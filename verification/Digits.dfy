/** Decimal numerals in ASCII digits. */
module Digits {

  predicate AllDigits(s: string) {
    s != "" && forall c | c in s :: '0' <= c <= '9'
  }

  function DigitValue(c: char): nat {
    if '0' <= c <= '9' then c as int - '0' as int else 0
  }

  function DigitsValue(s: string): nat {
    if s == "" then 0 else 10 * DigitsValue(s[..|s| - 1]) + DigitValue(s[|s| - 1])
  }

  // ---------------------------------------------------------------- writing numbers

  /** The usual numeral of a number, without leading zeros. */
  function Decimal(n: nat): (s: string)
    ensures s != ""
  {
    if n < 10 then ["0123456789"[n]] else Decimal(n / 10) + ["0123456789"[n % 10]]
  }

  /** A numeral of the number, leading zeros allowed. */
  predicate Spells(s: string, n: nat) {
    exists k :: 0 <= k <= |s| && (forall i :: 0 <= i < k ==> s[i] == '0') && s[k..] == Decimal(n)
  }

  lemma OneDigit(n: nat)
    requires n < 10
    ensures DigitValue("0123456789"[n]) == n && '0' <= "0123456789"[n] <= '9'
  {
  }

  lemma LastDigit(c: char)
    requires '0' <= c <= '9'
    ensures DigitValue(c) < 10 && "0123456789"[DigitValue(c)] == c
  {
  }

  lemma {:induction false} DecimalIsRead(n: nat)
    ensures DigitsValue(Decimal(n)) == n && AllDigits(Decimal(n))
  {
    var s := Decimal(n);
    OneDigit(n % 10);
    if n < 10 {
      assert s[..|s| - 1] == "";
    } else {
      DecimalIsRead(n / 10);
      assert s[..|s| - 1] == Decimal(n / 10);
    }
  }

  lemma {:induction false} ZerosInFront(s: string, k: nat)
    requires k <= |s| && forall i :: 0 <= i < k ==> s[i] == '0'
    ensures DigitsValue(s) == DigitsValue(s[k..])
    decreases |s|
  {
    if k == |s| {
      if k > 0 { ZerosInFront(s[..k - 1], k - 1); }
      assert s[k..] == "";
    } else {
      var front := s[..|s| - 1];
      ZerosInFront(front, k);
      assert s[k..][..|s[k..]| - 1] == front[k..];
    }
  }

  /** Reading undoes writing: a string of digits has one value, the number it is a numeral of. */
  lemma SpellsIsRead(s: string, n: nat)
    ensures Spells(s, n) <==> AllDigits(s) && DigitsValue(s) == n
  {
    hide *;
    if Spells(s, n) { NumeralIsRead(s, n); }
    if AllDigits(s) { DigitsSpell(s); }
  }

  lemma NumeralIsRead(s: string, n: nat)
    requires Spells(s, n)
    ensures AllDigits(s) && DigitsValue(s) == n
  {
    hide Decimal, DigitsValue;
    var k :| 0 <= k <= |s| && (forall i :: 0 <= i < k ==> s[i] == '0') && s[k..] == Decimal(n);
    DecimalIsRead(n);
    ZerosInFront(s, k);
    forall i | 0 <= i < |s| ensures '0' <= s[i] <= '9' {
      if i >= k { assert s[k..][i - k] == s[i] && s[k..][i - k] in s[k..]; }
    }
  }

  lemma {:induction false} DigitsSpell(s: string)
    requires AllDigits(s)
    ensures Spells(s, DigitsValue(s))
    decreases |s|
  {
    var front, c := s[..|s| - 1], s[|s| - 1];
    assert c in s;
    LastDigit(c);
    var m, d := DigitsValue(front), DigitValue(c);
    assert DigitsValue(s) == 10 * m + d;
    if front == "" {
      assert m == 0;
      assert s[0..] == [c];
    } else {
      assert forall x :: x in front ==> x in s;
      DigitsSpell(front);
      OneMoreDigit(front, m, c, d);
      assert s == front + [c];
    }
  }

  lemma SplitTen(n: nat, m: nat, d: nat)
    requires n == 10 * m + d && d < 10
    ensures n / 10 == m && n % 10 == d
  {
  }

  lemma DecimalStep(m: nat, d: nat)
    requires d < 10
    ensures Decimal(10 * m + d) == if m == 0 then ["0123456789"[d]] else Decimal(m) + ["0123456789"[d]]
  {
    SplitTen(10 * m + d, m, d);
  }

  lemma SpelledFrom(s: string, n: nat, k: nat)
    requires k <= |s| && (forall i :: 0 <= i < k ==> s[i] == '0') && s[k..] == Decimal(n)
    ensures Spells(s, n)
  {
    hide Decimal;
  }

  lemma OneMoreDigit(front: string, m: nat, c: char, d: nat)
    requires Spells(front, m) && d < 10 && "0123456789"[d] == c
    ensures Spells(front + [c], 10 * m + d)
  {
    var s := front + [c];
    var k :| 0 <= k <= |front| && (forall i :: 0 <= i < k ==> front[i] == '0') && front[k..] == Decimal(m);
    DecimalStep(m, d);
    assert s[k..] == front[k..] + [c];
    if m > 0 {
      hide *;
      SpelledFrom(s, 10 * m + d, k);
    } else {
      assert front[k..] == "0";
      hide *;
      assert front[k..][0] == front[k];
      assert s[k + 1..] == [c];
      SpelledFrom(s, 10 * m + d, k + 1);
    }
  }
}
