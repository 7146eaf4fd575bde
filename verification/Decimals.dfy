/**
 * Decimal numbers as text: what is written into a stable key, and what Rust's `u64` parser reads
 * from a request header.
 */
module Decimals {
  import opened Sequences

  predicate IsDigit(c: char) {
    '0' <= c <= '9'
  }

  function ParseDigits(s: string): (n: Option<nat>) {
    if s == [] then Some(0)
    else if !IsDigit(s[|s| - 1]) then None
    else
      match ParseDigits(s[..|s| - 1])
      case None => None
      case Some(high) => Some(10 * high + (s[|s| - 1] as nat - '0' as nat))
  }

  /** Rust's parser for `u64`: digits, with an optional plus sign, that do not overflow. */
  function ParseU64(s: string): Option<nat> {
    var digits := if |s| > 1 && s[0] == '+' then s[1..] else s;
    if digits == [] then None
    else
      match ParseDigits(digits)
      case None => None
      case Some(n) => if n < U64_LIMIT then Some(n) else None
  }

  function Decimal(n: nat): (s: string)
    ensures s != []
  {
    var digit := [('0' as nat + n % 10) as char];
    if n < 10 then digit else Decimal(n / 10) + digit
  }

  lemma {:induction false} DecimalDigits(n: nat)
    ensures forall c | c in Decimal(n) :: IsDigit(c)
  {
    if n >= 10 {
      DecimalDigits(n / 10);
    }
  }

  lemma {:induction false} ParsesDecimal(n: nat)
    ensures ParseDigits(Decimal(n)) == Some(n)
  {
    var s := Decimal(n);
    if n >= 10 {
      ParsesDecimal(n / 10);
      assert s[..|s| - 1] == Decimal(n / 10);
    } else {
      assert s[..|s| - 1] == [];
    }
  }

  lemma DecimalRoundTrip(n: nat)
    ensures ParseU64(Decimal(n)) == if n < U64_LIMIT then Some(n) else None
  {
    DecimalDigits(n);
    ParsesDecimal(n);
    assert Decimal(n)[0] in Decimal(n);
  }

  predicate AllDigits(s: string) {
    forall c | c in s :: IsDigit(c)
  }

  lemma {:induction false} ParsesIffDigits(s: string)
    ensures ParseDigits(s).Some? <==> AllDigits(s)
  {
    if s != [] {
      var n := |s| - 1;
      ParsesIffDigits(s[..n]);
      assert s == s[..n] + [s[n]];
    }
  }

  lemma {:induction false} LeadingZero(s: string)
    ensures ParseDigits("0" + s) == ParseDigits(s)
  {
    if s == [] {
      assert "0" + s == "0" && "0"[..0] == [];
    } else {
      var n := |s| - 1;
      LeadingZero(s[..n]);
      assert ("0" + s)[..n + 1] == "0" + s[..n];
    }
  }

  /** One plus sign and zeros in front of the digits change nothing; anything else is refused. */
  lemma ParseU64Iff(s: string)
    ensures ParseU64(s).Some? ==> (s != "" && AllDigits(s)) || (|s| > 1 && s[0] == '+' && AllDigits(s[1..]))
    ensures s != "" && AllDigits(s) ==>
      ParseU64("+" + s) == ParseU64(s) && ParseU64("0" + s) == ParseU64(s)
    ensures s != "" && AllDigits(s) && ParseU64(s).None? ==>
      ParseDigits(s).Some? && ParseDigits(s).value >= U64_LIMIT
  {
    ParsesIffDigits(s);
    if |s| > 1 {
      ParsesIffDigits(s[1..]);
    }
    LeadingZero(s);
    assert ("+" + s)[1..] == s;
    assert s != "" && AllDigits(s) ==> s[0] in s && IsDigit(s[0]);
  }
}
