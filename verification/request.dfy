/** The hover request: find the blame hunk that covers the cursor's line and answer
    with its commit's attribution, or with nothing when the attribution cannot be found. */
module RequestHandlers {
  import opened Wrappers
  import opened Lsp
  import opened Git
  import opened MessageState

  const HoverMethod: string := "textDocument/hover"
  const LineNotFound: string := "Line not found"
  const LineLookupFailed: string := "Failed to get line from blame"
  const UncommittedChanges: string := "Uncommitted changes"
  const MessageNotUtf8: string := "commit message is not valid UTF-8"

  // ---------------------------------------------------------------------------
  // Hunk lookup

  /** The number of lines the hunks cover together. */
  function Total(hunks: seq<Hunk>): nat
  {
    if hunks == [] then 0 else hunks[0].linesInHunk + Total(hunks[1..])
  }

  lemma {:induction false} TotalAppend(a: seq<Hunk>, b: seq<Hunk>)
    ensures Total(a + b) == Total(a) + Total(b)
    decreases |a|
  {
    if a == [] {
      assert a + b == b;
    } else {
      assert (a + b)[1..] == a[1..] + b;
      TotalAppend(a[1..], b);
    }
  }

  lemma EndIsStartPlusLength(hunks: seq<Hunk>, k: nat)
    requires k < |hunks|
    ensures EndOf(hunks, k) == StartOf(hunks, k) + hunks[k].linesInHunk
  {
    assert hunks[..k + 1] == hunks[..k] + [hunks[k]];
    TotalAppend(hunks[..k], [hunks[k]]);
  }

  /** A longer prefix covers at least as many lines. */
  lemma StartMonotone(hunks: seq<Hunk>, a: nat, b: nat)
    requires a <= b <= |hunks|
    ensures StartOf(hunks, a) <= StartOf(hunks, b)
  {
    assert hunks[..b] == hunks[..a] + hunks[a..b];
    TotalAppend(hunks[..a], hunks[a..b]);
  }

  /** The first line of hunk `k`, lines being counted from 1. */
  function StartOf(hunks: seq<Hunk>, k: nat): nat
    requires k <= |hunks|
  {
    1 + Total(hunks[..k])
  }

  /** The line just after hunk `k`: the walk's running counter once it has passed hunk `k`. */
  function EndOf(hunks: seq<Hunk>, k: nat): nat
    requires k < |hunks|
  {
    StartOf(hunks, k + 1)
  }

  /** The least index `i >= k` whose hunk ends after `line`. */
  function HunkIndexFrom(hunks: seq<Hunk>, line: nat, k: nat): (r: Option<nat>)
    requires k <= |hunks|
    ensures r.Some? ==> k <= r.value < |hunks| && line < EndOf(hunks, r.value)
    ensures r.Some? ==> forall j :: k <= j < r.value ==> EndOf(hunks, j) <= line
    ensures r.None? ==> forall j :: k <= j < |hunks| ==> EndOf(hunks, j) <= line
    decreases |hunks| - k
  {
    if k == |hunks| then None
    else if line < EndOf(hunks, k) then Some(k)
    else HunkIndexFrom(hunks, line, k + 1)
  }

  function HunkIndex(hunks: seq<Hunk>, line: nat): Option<nat>
  {
    HunkIndexFrom(hunks, line, 0)
  }

  /** `get_hunk_for_line` as a value: the hunk at `HunkIndex`, or "Line not found". */
  function HunkForLine(hunks: seq<Hunk>, line: nat): (r: Result<Hunk, string>)
    ensures r.Success? ==>
      exists i :: && 0 <= i < |hunks|
                  && hunks[i] == r.value
                  && line < EndOf(hunks, i)
                  && forall j :: 0 <= j < i ==> EndOf(hunks, j) <= line
    ensures r.Failure? ==> r.error == LineNotFound && forall j :: 0 <= j < |hunks| ==> EndOf(hunks, j) <= line
  {
    match HunkIndex(hunks, line)
    case Some(i) => Success(hunks[i])
    case None => Failure(LineNotFound)
  }

  /** `get_hunk_for_line`: walk the hunks in order with a running line counter that
      starts at 1 and return the first hunk whose end lies beyond `line`. */
  method GetHunkForLine(blame: seq<Hunk>, line: nat) returns (r: Result<Hunk, string>)
    ensures r == HunkForLine(blame, line)
  {
    var currentLine: nat := 1;
    for k := 0 to |blame|
      invariant currentLine == StartOf(blame, k)
      invariant HunkIndexFrom(blame, line, k) == HunkIndex(blame, line)
    {
      EndIsStartPlusLength(blame, k);
      currentLine := currentLine + blame[k].linesInHunk;
      if line < currentLine {
        return Success(blame[k]);
      }
    }
    return Failure(LineNotFound);
  }

  /** The lookup picks hunk `i` exactly when `i` is the least index whose hunk ends
      after `line`. */
  lemma HunkIndexIsLeast(hunks: seq<Hunk>, line: nat, i: nat)
    ensures HunkIndex(hunks, line) == Some(i) <==>
      && i < |hunks|
      && line < EndOf(hunks, i)
      && forall j :: 0 <= j < i ==> EndOf(hunks, j) <= line
  {
    var r := HunkIndexFrom(hunks, line, 0);
    assert HunkIndex(hunks, line) == r;
  }

  /** The lookup fails exactly when there are no hunks or `line` lies beyond the last line
      they cover. */
  lemma HunkIndexNone(hunks: seq<Hunk>, line: nat)
    ensures HunkIndex(hunks, line).None? <==> |hunks| == 0 || 1 + Total(hunks) <= line
  {
    var r := HunkIndexFrom(hunks, line, 0);
    assert HunkIndex(hunks, line) == r;
    if r.Some? {
      StartMonotone(hunks, r.value + 1, |hunks|);
      assert hunks[..|hunks|] == hunks;
      assert line < 1 + Total(hunks);
    } else if |hunks| > 0 {
      var last := |hunks| - 1;
      assert EndOf(hunks, last) <= line;
      assert hunks[..last + 1] == hunks;
    }
  }

  /** For a line counted from 1, the hunk found covers it: its first line is at or before
      `line` and its end is after it. */
  lemma HunkIndexCovers(hunks: seq<Hunk>, line: nat)
    requires 1 <= line
    requires HunkIndex(hunks, line).Some?
    ensures var i := HunkIndex(hunks, line).value;
      StartOf(hunks, i) <= line < EndOf(hunks, i)
  {
    var r := HunkIndexFrom(hunks, line, 0);
    assert HunkIndex(hunks, line) == r;
    var i := r.value;
    if i > 0 {
      var j := i - 1;
      assert EndOf(hunks, j) <= line;
      assert j + 1 == i;
    }
  }

  /** Conversely, a hunk that covers `line` is the one found. */
  lemma HunkIndexOfCoveringHunk(hunks: seq<Hunk>, line: nat, i: nat)
    requires i < |hunks|
    requires StartOf(hunks, i) <= line < EndOf(hunks, i)
    ensures HunkIndex(hunks, line) == Some(i)
  {
    forall j | 0 <= j < i
      ensures EndOf(hunks, j) <= line
    {
      StartMonotone(hunks, j + 1, i);
    }
    HunkIndexIsLeast(hunks, line, i);
  }

  // ---------------------------------------------------------------------------
  // Blame text

  /** An open repository: its working directory and the library calls made on it.
      `blame` stands for `blame_file(relative)` followed by `blame_buffer(buffer)`. */
  datatype Repository = Repository(
    workdir: string,
    blame: (string, string) -> Result<seq<Hunk>, Error>,
    findCommit: Oid -> Result<Commit, Error>)

  /** The outside world of a hover request: repository discovery, the virtual file system,
      path relativisation and the rendering of a commit time in the local time zone. */
  datatype Host = Host(
    discover: string -> Result<Repository, Error>,
    readFile: string -> Result<string, Error>,
    stripPrefix: (string, string) -> Result<string, Error>,
    localDateTime: i64 -> string)

  /** The first part of `get_blame_text`: discover the repository, read the buffer through
      the virtual file system, make the path relative to the working directory and blame
      the buffer; every failure is returned. */
  function BlameHunks(host: Host, path: string): (r: Result<(Repository, seq<Hunk>), Error>)
    ensures host.discover(path).Failure? ==> r == Failure(host.discover(path).error)
    ensures host.discover(path).Success? && host.readFile(path).Failure? ==>
      r == Failure(host.readFile(path).error)
    ensures host.discover(path).Success? && host.readFile(path).Success? ==>
      var strip := host.stripPrefix(path, host.discover(path).value.workdir);
      strip.Failure? ==> r == Failure(strip.error)
    ensures host.discover(path).Success? && host.readFile(path).Success? ==>
      var strip := host.stripPrefix(path, host.discover(path).value.workdir);
      strip.Success? ==>
        var blamed := host.discover(path).value.blame(strip.value, host.readFile(path).value);
        blamed.Failure? ==> r == Failure(blamed.error)
    ensures r.Success? <==>
      && host.discover(path).Success?
      && host.readFile(path).Success?
      && host.stripPrefix(path, host.discover(path).value.workdir).Success?
      && host.discover(path).value.blame(
           host.stripPrefix(path, host.discover(path).value.workdir).value, host.readFile(path).value).Success?
    ensures r.Success? ==>
      && r.value.0 == host.discover(path).value
      && Success(r.value.1) == r.value.0.blame(
           host.stripPrefix(path, r.value.0.workdir).value, host.readFile(path).value)
  {
    var repository :- host.discover(path);
    var buffer :- host.readFile(path);
    var relative :- host.stripPrefix(path, repository.workdir);
    var hunks :- repository.blame(relative, buffer);
    Success((repository, hunks))
  }

  /** `get_blame_text`: the attribution of the hovered line. The cursor's line is counted
      from 0, blame's from 1. */
  function GetBlameText(host: Host, params: HoverParams): (r: Result<string, Error>)
    ensures BlameHunks(host, params.path).Failure? ==> r == Failure(BlameHunks(host, params.path).error)
  {
    var blamed :- BlameHunks(host, params.path);
    var repository := blamed.0;
    var lineno := params.position.line + 1;
    match HunkForLine(blamed.1, lineno)
    case Failure(_) => Failure(Failed(LineLookupFailed))
    case Success(hunk) =>
      if IsZero(hunk.finalCommitId) then Success(UncommittedChanges)
      else
        var commit :- repository.findCommit(hunk.finalCommitId);
        match commit.message
        case None => Failure(Panicked(MessageNotUtf8))
        case Some(message) =>
          Success(commit.authorName + " " + host.localDateTime(commit.time) + ": " + message)
  }

  /** A cursor line at or beyond the number of blamed lines is not found. */
  lemma BlameTextLineNotFound(host: Host, params: HoverParams, repository: Repository, hunks: seq<Hunk>)
    requires BlameHunks(host, params.path) == Success((repository, hunks))
    requires Total(hunks) <= params.position.line
    ensures GetBlameText(host, params) == Failure(Failed(LineLookupFailed))
  {
    HunkIndexNone(hunks, params.position.line + 1);
  }

  /** The hunk whose lines (counted from 0) include the cursor's line decides the text:
      "Uncommitted changes" for the all-zero id, without looking up any commit; otherwise
      "author date: message" of its commit, a lookup failure, or a panic when the message
      is not UTF-8. */
  lemma BlameTextOfCoveringHunk(host: Host, params: HoverParams, repository: Repository, hunks: seq<Hunk>, i: nat)
    requires BlameHunks(host, params.path) == Success((repository, hunks))
    requires i < |hunks|
    requires StartOf(hunks, i) <= params.position.line + 1 < EndOf(hunks, i)
    ensures IsZero(hunks[i].finalCommitId) ==> GetBlameText(host, params) == Success(UncommittedChanges)
    ensures !IsZero(hunks[i].finalCommitId) ==>
      match repository.findCommit(hunks[i].finalCommitId)
      case Failure(e) => GetBlameText(host, params) == Failure(e)
      case Success(commit) =>
        match commit.message
        case None => GetBlameText(host, params) == Failure(Panicked(MessageNotUtf8))
        case Some(message) =>
          GetBlameText(host, params) ==
            Success(commit.authorName + " " + host.localDateTime(commit.time) + ": " + message)
  {
    HunkIndexOfCoveringHunk(hunks, params.position.line + 1, i);
  }

  /** Lines 1-3 by commit `a`, lines 4-6 uncommitted: the cursor on line 4 (counted from 0)
      gets "Uncommitted changes" and the cursor on line 1 gets `a`'s attribution. */
  lemma TwoHunkExample(host: Host, path: string, repository: Repository, a: Oid, zero: Oid, commit: Commit)
    requires IsZero(zero) && !IsZero(a)
    requires BlameHunks(host, path) == Success((repository, [Hunk(3, a), Hunk(3, zero)]))
    requires repository.findCommit(a) == Success(commit) && commit.message.Some?
    ensures GetBlameText(host, HoverParams(path, Position(4, 0))) == Success(UncommittedChanges)
    ensures GetBlameText(host, HoverParams(path, Position(1, 0))) ==
      Success(commit.authorName + " " + host.localDateTime(commit.time) + ": " + commit.message.value)
  {
    var hunks := [Hunk(3, a), Hunk(3, zero)];
    assert StartOf(hunks, 1) == 4 && EndOf(hunks, 1) == 7 by {
      assert hunks[..1] == [Hunk(3, a)] && [Hunk(3, a)][1..] == [];
      assert Total([Hunk(3, a)]) == 3;
      assert hunks[..2] == hunks && hunks[1..] == [Hunk(3, zero)] && [Hunk(3, zero)][1..] == [];
      assert Total([Hunk(3, zero)]) == 3;
      assert Total(hunks) == 6;
    }
    assert StartOf(hunks, 0) == 1 && EndOf(hunks, 0) == 4 by {
      assert hunks[..0] == [];
      assert hunks[..1] == [Hunk(3, a)];
    }
    BlameTextOfCoveringHunk(host, HoverParams(path, Position(4, 0)), repository, hunks, 1);
    BlameTextOfCoveringHunk(host, HoverParams(path, Position(1, 0)), repository, hunks, 0);
  }

  /** Every cursor line before the end of the blamed lines lies in some hunk. */
  lemma BlamedLineHasHunk(hunks: seq<Hunk>, line: nat)
    requires line < Total(hunks)
    ensures exists i :: 0 <= i < |hunks| && StartOf(hunks, i) <= line + 1 < EndOf(hunks, i)
  {
    HunkIndexNone(hunks, line + 1);
    HunkIndexCovers(hunks, line + 1);
  }

  // ---------------------------------------------------------------------------
  // Hover handler

  function MarkdownHover(text: string): Hover
  {
    Hover(Markup(MarkupContent(Markdown, text)), None)
  }

  /** The handler built by `handle_hover_builder`: Markdown contents with no range when the
      blame text is found, and no hover at all when it is not; it never returns an error
      of its own (a panic below it still unwinds). */
  function HandleHover(host: Host, params: HoverParams): (r: Result<Option<Hover>, Error>)
    ensures GetBlameText(host, params).Success? ==>
      r == Success(Some(Hover(Markup(MarkupContent(Markdown, GetBlameText(host, params).value)), None)))
    ensures GetBlameText(host, params).Failure? && GetBlameText(host, params).error.Failed? ==>
      r == Success(None)
    ensures r.Failure? <==> GetBlameText(host, params).Failure? && GetBlameText(host, params).error.Panicked?
  {
    match GetBlameText(host, params)
    case Success(text) => Success(Some(MarkdownHover(text)))
    case Failure(Panicked(reason)) => Failure(Panicked(reason))
    case Failure(Failed(_)) => Success(None)
  }

  /** A file outside the repository's working directory (the prefix strip fails with an
      ordinary error) gets no hover. */
  lemma OutsideWorkdirGivesNoHover(host: Host, params: HoverParams, repository: Repository, message: string)
    requires host.discover(params.path) == Success(repository)
    requires host.readFile(params.path).Success?
    requires host.stripPrefix(params.path, repository.workdir) == Failure(Failed(message))
    ensures GetBlameText(host, params) == Failure(Failed(message))
    ensures HandleHover(host, params) == Success(None)
  {
  }

  /** The server's request chain: one hover link. A hover request whose params decode is
      answered under its own id, with the hover or with no hover, unless a panic unwinds. */
  lemma HoverRequestIsAnswered(
    host: Host, req: Request, decode: Value -> Option<HoverParams>, encode: Option<Hover> -> Value)
    requires req.methodName == HoverMethod && decode(req.params).Some?
    requires !(GetBlameText(host, decode(req.params).value).Failure? &&
               GetBlameText(host, decode(req.params).value).error.Panicked?)
    ensures var text := GetBlameText(host, decode(req.params).value);
      HandleRequest(Unhandled(req), HoverMethod, decode, encode, p => HandleHover(host, p))
      == Success(Handled(Response(
           req.id,
           Some(encode(if text.Success? then Some(MarkdownHover(text.value)) else None)),
           None)))
  {
    var params := decode(req.params).value;
    assert RequestFires(Unhandled(req), HoverMethod, decode);
    assert (p => HandleHover(host, p))(params) == HandleHover(host, params);
  }
}
