/** Decimal numerals and colon-separated keys. */
module Text {

  function Digit(d: nat): char
    requires d < 10
  {
    ['0', '1', '2', '3', '4', '5', '6', '7', '8', '9'][d]
  }

  function Natural(n: nat): (r: string)
    ensures r != [] && forall i :: 0 <= i < |r| ==> '0' <= r[i] <= '9'
  {
    if n < 10 then [Digit(n)] else Natural(n / 10) + [Digit(n % 10)]
  }

  /** `String(n)` of an integer. */
  function Decimal(n: int): (r: string)
    ensures r != [] && forall i :: 0 <= i < |r| ==> r[i] == '-' || '0' <= r[i] <= '9'
  {
    if n < 0 then "-" + Natural(-n) else Natural(n)
  }

  /** The number a numeral spells. */
  function Spelled(s: string): int {
    if s == "" then 0 else 10 * Spelled(s[..|s| - 1]) + (s[|s| - 1] as int - '0' as int)
  }

  lemma {:induction false} NaturalIsSpelled(n: nat)
    ensures Spelled(Natural(n)) == n
  {
    var s := Natural(n);
    if n < 10 {
      assert s[..0] == "" && Digit(n) as int == n + '0' as int;
    } else {
      NaturalIsSpelled(n / 10);
      assert s[..|s| - 1] == Natural(n / 10) && Digit(n % 10) as int == n % 10 + '0' as int;
    }
  }

  /** Different integers have different numerals. */
  lemma DecimalInjective(m: int, n: int)
    requires Decimal(m) == Decimal(n)
    ensures m == n
  {
    hide Natural, Spelled;
    assert m < 0 <==> Decimal(m)[0] == '-';
    assert n < 0 <==> Decimal(n)[0] == '-';
    assert m < 0 ==> Decimal(m)[1..] == Natural(-m);
    assert n < 0 ==> Decimal(n)[1..] == Natural(-n);
    NaturalIsSpelled(if m < 0 then -m else m);
    NaturalIsSpelled(if n < 0 then -n else n);
  }

  predicate ColonFree(s: string) {
    forall i :: 0 <= i < |s| ==> s[i] != ':'
  }

  /** A colon whose right side holds none splits a text in one way only. */
  lemma LastColonSplits(s: string, d: string, s': string, d': string)
    requires ColonFree(d) && ColonFree(d')
    requires s + ":" + d == s' + ":" + d'
    ensures s == s' && d == d'
  {
    var t := s + ":" + d;
    assert t[|s|] == ':' && t[|s'|] == ':';
    assert forall i :: |s| < i < |t| ==> t[i] != ':';
    assert forall i :: |s'| < i < |t| ==> t[i] != ':';
    assert t[..|s|] == s && t[..|s'|] == s' && t[|s| + 1..] == d && t[|s'| + 1..] == d';
  }
}
