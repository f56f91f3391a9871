/** Decimal rendering of natural numbers, the `String(n)` that the store uses to
    mint ids, together with its inverse and the injectivity that makes the
    minted ids fresh. */
module Decimal {
  import opened Optional

  predicate IsDigit(c: char) {
    '0' <= c <= '9'
  }

  predicate AllDigits(s: string) {
    forall i :: 0 <= i < |s| ==> IsDigit(s[i])
  }

  function DigitChar(d: nat): (c: char)
    requires d < 10
    ensures IsDigit(c)
  {
    ('0' as int + d) as char
  }

  function DigitValue(c: char): (d: nat)
    requires IsDigit(c)
    ensures d < 10 && DigitChar(d) == c
  {
    c as int - '0' as int
  }

  /** `String(n)` for a non-negative integer: its decimal digits, most
      significant first, with no leading zero. */
  function Show(n: nat): (s: string)
  {
    if n < 10 then [DigitChar(n)] else Show(n / 10) + [DigitChar(n % 10)]
  }

  /** The rendering is canonical: digits only, at least one, no leading zero,
      and more than one exactly from ten upwards. */
  lemma {:induction false} ShowCanonical(n: nat)
    ensures Canonical(Show(n))
    ensures n >= 10 <==> |Show(n)| > 1
  {
    if n >= 10 {
      ShowCanonical(n / 10);
      var p := Show(n / 10);
      assert Show(n) == p + [DigitChar(n % 10)];
      assert Show(n)[0] == p[0];
    }
  }

  /** The number a string of digits spells, read most significant digit first. */
  function DigitsValue(s: string): (v: nat)
    requires AllDigits(s)
  {
    if s == [] then 0 else DigitsValue(s[..|s| - 1]) * 10 + DigitValue(s[|s| - 1])
  }

  /** True when `s` is the canonical rendering of some number: non-empty,
      only digits, and no leading zero unless it is "0" itself. */
  predicate Canonical(s: string) {
    |s| >= 1 && AllDigits(s) && (|s| > 1 ==> s[0] != '0')
  }

  /** Reads back a canonical decimal string; anything else is not an id the
      store could have minted. */
  function Parse(s: string): (r: Option<nat>)
    ensures r.Some? <==> Canonical(s)
  {
    if Canonical(s) then Some(DigitsValue(s)) else None
  }

  lemma {:induction false} DigitsValueShow(n: nat)
    ensures AllDigits(Show(n)) && DigitsValue(Show(n)) == n
  {
    ShowCanonical(n);
    if n >= 10 {
      ShowCanonical(n / 10);
      var p := Show(n / 10);
      var s := Show(n);
      assert s == p + [DigitChar(n % 10)];
      assert s[..|s| - 1] == p;
      DigitsValueShow(n / 10);
    }
  }

  /** Reading back a rendered number gives the number. */
  lemma ParseShow(n: nat)
    ensures Parse(Show(n)) == Some(n)
  {
    ShowCanonical(n);
    DigitsValueShow(n);
  }

  lemma {:induction false} DigitsValuePositive(s: string)
    requires AllDigits(s) && |s| >= 1 && s[0] != '0'
    ensures DigitsValue(s) >= 1
  {
    if |s| > 1 {
      DigitsValuePositive(s[..|s| - 1]);
    }
  }

  /** A canonical string is the rendering of the number it spells. */
  lemma {:induction false} ShowParse(s: string)
    requires Parse(s).Some?
    ensures Show(Parse(s).value) == s
  {
    var n := DigitsValue(s);
    if |s| > 1 {
      var p := s[..|s| - 1];
      var d := DigitValue(s[|s| - 1]);
      assert Canonical(p);
      DigitsValuePositive(p);
      var m := DigitsValue(p);
      assert n == m * 10 + d;
      assert n / 10 == m && n % 10 == d;
      ShowParse(p);
      assert Show(n) == Show(m) + [DigitChar(d)];
      assert s == p + [s[|s| - 1]];
    } else {
      assert |s| == 1 && s[..|s| - 1] == [];
      assert DigitsValue(s[..|s| - 1]) == 0;
      assert n == DigitValue(s[0]);
      assert s == [DigitChar(n)];
    }
  }

  /** Parse and Show are inverse bijections between the naturals and the
      canonical strings. */
  lemma ParseIffShow(s: string, n: nat)
    ensures Parse(s) == Some(n) <==> s == Show(n)
  {
    if Parse(s) == Some(n) {
      ShowParse(s);
    }
    if s == Show(n) {
      ParseShow(n);
    }
  }

  /** Distinct counters render to distinct ids. */
  lemma ShowInjective(m: nat, n: nat)
    ensures Show(m) == Show(n) <==> m == n
  {
    ParseShow(m);
    ParseShow(n);
  }
}
