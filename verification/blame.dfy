/** The Markdown attribution of a commit: its subject in bold, then author, humanised
    time and short id in italics, then the body of the message. */
module BlameFormat {
  import opened Wrappers
  import opened Git
  import opened DateTime

  const NoMessage: string := "No message"

  // ---------------------------------------------------------------------------
  // Trimming

  /** Unicode's White_Space property, which `str::trim` strips. */
  predicate IsWhitespace(c: char) {
    || '\U{9}' <= c <= '\U{D}'
    || c == ' ' || c == '\U{85}' || c == '\U{A0}' || c == '\U{1680}'
    || '\U{2000}' <= c <= '\U{200A}'
    || c == '\U{2028}' || c == '\U{2029}' || c == '\U{202F}' || c == '\U{205F}' || c == '\U{3000}'
  }

  predicate AllWhitespace(s: string) {
    forall k :: 0 <= k < |s| ==> IsWhitespace(s[k])
  }

  /** Neither the first nor the last character is whitespace. */
  predicate NoOuterWhitespace(s: string) {
    s == [] || (!IsWhitespace(s[0]) && !IsWhitespace(s[|s| - 1]))
  }

  /** `str::trim_start`: the suffix left after dropping leading whitespace. */
  function TrimStart(s: string): (r: string)
    ensures |r| <= |s| && r == s[|s| - |r|..]
    ensures AllWhitespace(s[..|s| - |r|])
    ensures r == [] || !IsWhitespace(r[0])
  {
    if s == [] || !IsWhitespace(s[0]) then s else TrimStart(s[1..])
  }

  /** `str::trim_end`: the prefix left after dropping trailing whitespace. */
  function TrimEnd(s: string): (r: string)
    ensures |r| <= |s| && r == s[..|r|]
    ensures AllWhitespace(s[|r|..])
    ensures r == [] || !IsWhitespace(r[|r| - 1])
  {
    if s == [] || !IsWhitespace(s[|s| - 1]) then s else TrimEnd(s[..|s| - 1])
  }

  /** `str::trim`. */
  function Trim(s: string): (r: string)
    ensures NoOuterWhitespace(r)
  {
    TrimEnd(TrimStart(s))
  }

  lemma {:induction false} TrimStartSkips(p: string, y: string)
    requires AllWhitespace(p)
    requires y == [] || !IsWhitespace(y[0])
    ensures TrimStart(p + y) == y
    decreases |p|
  {
    if p == [] {
      assert p + y == y;
    } else {
      assert (p + y)[1..] == p[1..] + y;
      TrimStartSkips(p[1..], y);
    }
  }

  lemma {:induction false} TrimEndSkips(y: string, q: string)
    requires AllWhitespace(q)
    requires y == [] || !IsWhitespace(y[|y| - 1])
    ensures TrimEnd(y + q) == y
    decreases |q|
  {
    if q == [] {
      assert y + q == y;
    } else {
      assert (y + q)[..|y + q| - 1] == y + q[..|q| - 1];
      TrimEndSkips(y, q[..|q| - 1]);
    }
  }

  /** Trimming removes exactly the whitespace around a text that has none at its ends. */
  lemma TrimPadded(p: string, x: string, q: string)
    requires AllWhitespace(p) && AllWhitespace(q)
    requires NoOuterWhitespace(x)
    ensures Trim(p + x + q) == x
  {
    if x == [] {
      assert p + x + q == p + q;
      TrimStartSkips(p + q, []);
      assert p + q + [] == p + q;
    } else {
      assert p + x + q == p + (x + q);
      TrimStartSkips(p, x + q);
      TrimEndSkips(x, q);
    }
  }

  // ---------------------------------------------------------------------------
  // Subject and body

  /** A blank line, "\n\n", starts at index `i` of `s`. */
  predicate SeparatorAt(s: string, i: nat) {
    i + 2 <= |s| && s[i] == '\n' && s[i + 1] == '\n'
  }

  /** `str::find("\n\n")` from index `from` on: the first blank line at or after `from`. */
  function FindSeparator(s: string, from: nat): (r: Option<nat>)
    ensures r.Some? ==> from <= r.value && SeparatorAt(s, r.value)
    ensures r.Some? ==> forall j :: from <= j < r.value ==> !SeparatorAt(s, j)
    ensures r.None? ==> forall j :: from <= j ==> !SeparatorAt(s, j)
    decreases |s| - from
  {
    if |s| < from + 2 then None
    else if SeparatorAt(s, from) then Some(from)
    else FindSeparator(s, from + 1)
  }

  /** Split a message at its first blank line into subject and body (`split_once`); with
      no blank line the whole message is the subject and the body is empty. */
  function SplitMessage(message: string): (r: (string, string))
    ensures (exists i :: SeparatorAt(message, i)) ==>
      && message == r.0 + "\n\n" + r.1
      && (forall j :: 0 <= j < |r.0| ==> !SeparatorAt(message, j))
      && (forall j :: !SeparatorAt(r.0, j))
    ensures (forall i :: !SeparatorAt(message, i)) ==> r == (message, "")
  {
    match FindSeparator(message, 0)
    case Some(i) =>
      var r := (message[..i], message[i + 2..]);
      assert message == r.0 + "\n\n" + r.1;
      assert forall j :: SeparatorAt(r.0, j) ==> SeparatorAt(message, j);
      r
    case None => (message, "")
  }

  // ---------------------------------------------------------------------------
  // Commit id and time

  /** The short id: the first 8 characters of the commit id's hex form. */
  function ShortId(oid: Oid): (r: string)
    ensures |r| == 8
    ensures r == Hex(oid[..4])
  {
    HexAppend(oid[..4], oid[4..]);
    assert oid[..4] + oid[4..] == oid;
    Hex(oid)[..8]
  }

  /** `as u64` on a commit time: two's-complement reinterpretation. */
  function AsU64(x: i64): (r: u64)
    ensures r as int == x as int % 0x1_0000_0000_0000_0000
  {
    if x >= 0 then x as int as u64 else (x as int + 0x1_0000_0000_0000_0000) as u64
  }

  // ---------------------------------------------------------------------------
  // The attribution

  /** The two header lines: bold subject, then italic author, time and short id. */
  function Header(subject: string, author: string, time: string, commitId: string): (r: string)
    ensures |r| == |subject| + |author| + |time| + |commitId| + 13
    ensures NoOuterWhitespace(r) && r[0] == '*' && r[|r| - 1] == '*'
    ensures r[..2] == "**" && r[2..2 + |subject|] == subject && r[2 + |subject|..5 + |subject|] == "**\n"
    ensures r[|r| - 1 - |commitId|..|r| - 1] == commitId
  {
    "**" + subject + "**\n*" + author + " \U{2022} " + time + " \U{2022} " + commitId + "*"
  }

  /** `format_blame_text` with the clock reading `now` and the renderers explicit. The
      message is trimmed and split; the result is trimmed, which removes only the blank
      line left before an empty body. */
  function FormatBlameText(
    commit: Commit, now: Instant, formatDuration: nat -> string, formatDate: i64 -> string
  ): (r: string)
    requires commit.message.Some? ==> commit.time >= 0
    ensures commit.message.None? ==> r == NoMessage
    ensures NoOuterWhitespace(r)
    ensures commit.message.Some? ==>
      var parts := SplitMessage(Trim(commit.message.value));
      var time := FormatTimestamp(AsU64(commit.time), now, formatDuration, formatDate);
      var header := Header(parts.0, commit.authorName, time, ShortId(commit.id));
      r == if parts.1 == [] then header else header + "\n\n" + parts.1
  {
    match commit.message
    case None => NoMessage
    case Some(raw) =>
      var message := Trim(raw);
      var parts := SplitMessage(message);
      var time := FormatTimestamp(AsU64(commit.time), now, formatDuration, formatDate);
      var text := Header(parts.0, commit.authorName, time, ShortId(commit.id)) + "\n\n" + parts.1;
      HeaderThenBodyTrims(parts.0, commit.authorName, time, ShortId(commit.id), message, parts.1);
      Trim(text)
  }

  /** The header starts and ends with '*' and a body cut from the end of a trimmed message
      ends like it, so the final trim removes at most the blank line before an empty body. */
  lemma HeaderThenBodyTrims(
    subject: string, author: string, time: string, commitId: string, message: string, body: string)
    requires NoOuterWhitespace(message)
    requires body != [] ==> |body| <= |message| && body == message[|message| - |body|..]
    ensures var header := Header(subject, author, time, commitId);
      Trim(header + "\n\n" + body) == if body == [] then header else header + "\n\n" + body
  {
    var header := Header(subject, author, time, commitId);
    if body == [] {
      assert header + "\n\n" + body == [] + header + "\n\n";
      TrimPadded([], header, "\n\n");
    } else {
      var text := header + "\n\n" + body;
      assert text[|text| - 1] == body[|body| - 1] == message[|message| - 1];
      assert text == [] + text + [];
      TrimPadded([], text, []);
    }
  }
}
