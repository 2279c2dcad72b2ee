/** Finding line ends in byte strings. */
module Newlines {

  const NEWLINE := '\n'

  /** Empty, or ending a line. */
  predicate AtBoundary(s: string) {
    s == "" || s[|s| - 1] == NEWLINE
  }

  lemma BoundaryConcat(a: string, b: string)
    requires AtBoundary(a) && AtBoundary(b)
    ensures AtBoundary(a + b)
  {
  }

  function FirstNewline(s: string): (i: nat)
    ensures i <= |s|
    ensures i < |s| ==> s[i] == NEWLINE
    ensures forall k :: 0 <= k < i ==> s[k] != NEWLINE
  {
    if s == "" || s[0] == NEWLINE then 0 else 1 + FirstNewline(s[1..])
  }

  lemma {:induction false} FirstNewlineSkips(s: string, k: nat)
    requires k <= |s| && NEWLINE !in s[..k]
    ensures FirstNewline(s) == k + FirstNewline(s[k..])
  {
    if k == 0 {
      assert s[0..] == s;
    } else {
      assert s[..k][0] == s[0];
      assert s[1..][..k - 1] == s[..k][1..];
      FirstNewlineSkips(s[1..], k - 1);
      assert s[1..][k - 1..] == s[k..];
    }
  }

  lemma {:induction false} FirstNewlineInPrefix(s: string, k: nat)
    requires k <= |s| && FirstNewline(s[..k]) < k
    ensures FirstNewline(s) == FirstNewline(s[..k])
  {
    if s[0] != NEWLINE {
      assert s[..k][1..] == s[1..][..k - 1];
      FirstNewlineInPrefix(s[1..], k - 1);
    }
  }

  lemma FirstNewlineInBlock(s: string, offset: nat, n: nat)
    requires offset + n <= |s| && offset <= FirstNewline(s)
    ensures var i := FirstNewline(s[offset..offset + n]);
      if i < n then FirstNewline(s) == offset + i else FirstNewline(s) >= offset + n
  {
    var block, rest := s[offset..offset + n], s[offset..];
    assert NEWLINE !in s[..offset];
    FirstNewlineSkips(s, offset);
    assert rest[..n] == block;
    if FirstNewline(block) < n {
      FirstNewlineInPrefix(rest, n);
    } else {
      assert NEWLINE !in block;
      FirstNewlineSkips(rest, n);
    }
  }
}
