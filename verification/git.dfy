/** The values the server receives from the version-control library (`git2`): object
    ids, blame hunks and commits. The library's operations themselves are parameters of
    the operations that call them. */
module Git {
  import opened Wrappers

  newtype i64 = x: int | -0x8000_0000_0000_0000 <= x < 0x8000_0000_0000_0000

  newtype u64 = x: int | 0 <= x < 0x1_0000_0000_0000_0000

  /** An object id: the 20 bytes of a SHA-1 hash. */
  type Oid = s: seq<bv8> | |s| == 20 witness seq(20, _ => 0 as bv8)

  /** `Oid::is_zero`: the all-zero id, which blame gives to lines not yet committed. */
  predicate IsZero(oid: Oid) {
    forall i :: 0 <= i < |oid| ==> oid[i] == 0
  }

  /** A blame hunk: a run of `linesInHunk` consecutive lines attributed to one commit. */
  datatype Hunk = Hunk(linesInHunk: nat, finalCommitId: Oid)

  /** A commit as the server reads it. `message` is `None` when the commit message is not
      valid UTF-8 (`Commit::message`). */
  datatype Commit = Commit(id: Oid, authorName: string, time: i64, message: Option<string>)

  predicate IsHexDigit(c: char) {
    '0' <= c <= '9' || 'a' <= c <= 'f'
  }

  function HexDigit(n: bv8): (c: char)
    requires n < 16
    ensures IsHexDigit(c)
  {
    "0123456789abcdef"[n as int]
  }

  /** Lower-case hexadecimal, two digits per byte, high nibble first (`Oid`'s `Display`). */
  function Hex(bytes: seq<bv8>): (s: string)
    ensures |s| == 2 * |bytes|
    ensures forall i :: 0 <= i < |s| ==> IsHexDigit(s[i])
  {
    if bytes == [] then []
    else [HexDigit(bytes[0] >> 4), HexDigit(bytes[0] & 0xF)] + Hex(bytes[1..])
  }

  /** The hex of two concatenated byte strings is the concatenation of their hex. */
  lemma {:induction false} HexAppend(a: seq<bv8>, b: seq<bv8>)
    ensures Hex(a + b) == Hex(a) + Hex(b)
    decreases |a|
  {
    if a != [] {
      assert (a + b)[1..] == a[1..] + b;
      HexAppend(a[1..], b);
    } else {
      assert a + b == b;
    }
  }

  /** Each byte shows as two hex digits at its own position. */
  lemma {:induction false} HexAt(bytes: seq<bv8>, k: nat)
    requires k < |bytes|
    ensures Hex(bytes)[2 * k] == HexDigit(bytes[k] >> 4)
    ensures Hex(bytes)[2 * k + 1] == HexDigit(bytes[k] & 0xF)
    decreases k
  {
    if k > 0 {
      HexAt(bytes[1..], k - 1);
    }
  }
}
