/** Raw bytes and newline counting, shared by every component that cuts a stream at line ends. */
module Lines {

  newtype byte = x: int | 0 <= x < 256

  const NL: byte := 10

  /** The number of '\n' bytes in `s` (bytes.Count). */
  function Newlines(s: seq<byte>): nat {
    if s == [] then 0 else Newlines(s[..|s| - 1]) + if s[|s| - 1] == NL then 1 else 0
  }

  /** Newline-delimited lines; a trailing partial line counts as one. */
  function CountLines(s: seq<byte>): nat {
    if s == [] then 0 else Newlines(s) + if s[|s| - 1] == NL then 0 else 1
  }

  lemma NewlinesAppend(s: seq<byte>, b: byte)
    ensures Newlines(s + [b]) == Newlines(s) + if b == NL then 1 else 0
  {
    assert (s + [b])[..|s|] == s;
  }

  lemma {:induction false} NewlinesConcat(s: seq<byte>, t: seq<byte>)
    ensures Newlines(s + t) == Newlines(s) + Newlines(t)
  {
    if t == [] {
      assert s + t == s;
    } else {
      assert (s + t)[..|s + t| - 1] == s + t[..|t| - 1];
      NewlinesConcat(s, t[..|t| - 1]);
    }
  }

  /** Newlines distribute over every cut of a sequence. */
  lemma NewlinesSplit(s: seq<byte>, k: nat)
    requires k <= |s|
    ensures Newlines(s) == Newlines(s[..k]) + Newlines(s[k..])
  {
    assert s == s[..k] + s[k..];
    NewlinesConcat(s[..k], s[k..]);
  }

  lemma NewlinesPositive(s: seq<byte>, k: nat)
    requires k < |s| && s[k] == NL
    ensures Newlines(s) >= 1
  {
    NewlinesSplit(s, k + 1);
    assert s[..k + 1][..k] == s[..k];
  }

  lemma {:induction false} NewlinesZero(s: seq<byte>)
    requires forall i :: 0 <= i < |s| ==> s[i] != NL
    ensures Newlines(s) == 0
  {
    if s != [] {
      NewlinesZero(s[..|s| - 1]);
    }
  }
}
