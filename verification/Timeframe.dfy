/** Timeframe arithmetic of stateful rules (parseTimeframe and parseUintStrict
    in pkg/ruleast/sigma.go), with 64-bit wrap-around written out. */
module Timeframe {
  import opened Wrappers
  import opened Words
  import Decimal

  const MAX_U64: nat := 0xFFFF_FFFF_FFFF_FFFF
  const MAX_U32: nat := 0xFFFF_FFFF

  datatype UintError = MissingDigits | NonDigit(c: char) | ValueOverflows

  datatype TimeframeError = TooShort | UnknownUnit(c: char) | BadDigits | NotPositive | SecondsOverflow

  /** The number a timeframe's digits denote, if they are digits and fit 64 bits. */
  function UintStrict(s: string): Option<nat> {
    if s != [] && Decimal.AllDigits(s) && Decimal.Value(s) <= MAX_U64 then Some(Decimal.Value(s)) else None
  }

  /** Accepts exactly the non-empty digit strings of value at most 2^64 - 1. */
  method ParseUintStrict(s: string) returns (r: Result<nat, UintError>)
    ensures r.Ok? <==> UintStrict(s).Some?
    ensures r.Ok? ==> r.value == UintStrict(s).value
    ensures r == Err(MissingDigits) <==> s == []
    ensures r.Err? && r.error.NonDigit? ==> r.error.c in s && !Decimal.IsDigit(r.error.c)
  {
    if s == "" {
      return Err(MissingDigits);
    }
    var n: nat := 0;
    for i := 0 to |s|
      invariant Decimal.AllDigits(s[..i]) && n == Decimal.Value(s[..i]) <= MAX_U64
    {
      var c := s[i];
      assert s[..i + 1][..i] == s[..i] && s[..i + 1][i] == c;
      if c < '0' || c > '9' {
        assert !Decimal.IsDigit(s[i]);
        return Err(NonDigit(c));
      }
      var d := (c - '0') as nat;
      if n > (MAX_U64 - d) / 10 {
        if Decimal.AllDigits(s) {
          ValueGrows(s, i + 1);
        }
        return Err(ValueOverflows);
      }
      n := n * 10 + d;
    }
    assert s[..|s|] == s;
    return Ok(n);
  }

  lemma {:induction false} ValueGrows(s: string, k: nat)
    requires Decimal.AllDigits(s) && k <= |s|
    ensures Decimal.Value(s[..k]) <= Decimal.Value(s)
  {
    if k < |s| {
      ValueGrows(s[..|s| - 1], k);
      assert s[..|s| - 1][..k] == s[..k];
    } else {
      assert s[..k] == s;
    }
  }

  function Multiplier(unit: char): Option<nat> {
    match unit
    case 's' => Some(1)
    case 'm' => Some(60)
    case 'h' => Some(60 * 60)
    case 'd' => Some(60 * 60 * 24)
    case _ => None
  }

  /** What the code returns: the product is taken modulo 2^64 before the check. */
  function Parsed(s: string): Result<nat, TimeframeError> {
    if s == "" then Ok(0)
    else if |s| < 2 then Err(TooShort)
    else
      var mult, n := Multiplier(s[|s| - 1]), UintStrict(s[..|s| - 1]);
      if mult.None? then Err(UnknownUnit(s[|s| - 1]))
      else if n.None? then Err(BadDigits)
      else if n.value == 0 then Err(NotPositive)
      else if n.value * mult.value % TWO_64 > MAX_U32 then Err(SecondsOverflow)
      else Ok(n.value * mult.value % TWO_64)
  }

  method ParseTimeframe(s: string) returns (r: Result<nat, TimeframeError>)
    ensures r == Parsed(s)
    ensures r.Ok? ==> r.value <= MAX_U32
  {
    if s == "" {
      return Ok(0);
    }
    if |s| < 2 {
      return Err(TooShort);
    }
    var unit, digits := s[|s| - 1], s[..|s| - 1];
    var mult := 0;
    match unit {
      case 's' => mult := 1;
      case 'm' => mult := 60;
      case 'h' => mult := 60 * 60;
      case 'd' => mult := 60 * 60 * 24;
      case _ => return Err(UnknownUnit(unit));
    }
    var n := ParseUintStrict(digits);
    if n.Err? {
      return Err(BadDigits);
    }
    if n.value == 0 {
      return Err(NotPositive);
    }
    var total := n.value * mult % TWO_64;
    if total > MAX_U32 {
      return Err(SecondsOverflow);
    }
    return Ok(total);
  }

  /** A number and a unit, when `s` has that shape. */
  function Reading(s: string): Option<(nat, nat)> {
    if |s| < 2 || Multiplier(s[|s| - 1]).None? || UintStrict(s[..|s| - 1]).None? then None
    else Some((UintStrict(s[..|s| - 1]).value, Multiplier(s[|s| - 1]).value))
  }

  /** What is meant: no timeframe, or the exact number of seconds if it is
      positive and fits 32 bits. */
  function Meant(s: string): Option<nat> {
    if s == "" then Some(0)
    else if Reading(s).None? then None
    else
      var seconds := Reading(s).value.0 * Reading(s).value.1;
      if 1 <= seconds <= MAX_U32 then Some(seconds) else None
  }

  predicate Agrees(r: Result<nat, TimeframeError>, meant: Option<nat>) {
    if meant.Some? then r == Ok(meant.value) else r.Err?
  }

  /** The product leaves 64 bits and comes back small enough to be taken. */
  predicate WrapsSmall(s: string) {
    && Reading(s).Some?
    && Reading(s).value.0 * Reading(s).value.1 >= TWO_64
    && Reading(s).value.0 * Reading(s).value.1 % TWO_64 <= MAX_U32
  }

  /** The code gives the exact product of value and unit, or rejects it, if and
      only if the product does not wrap around into the accepted range; in
      particular whenever the product is below 2^64. */
  lemma TimeframeExact(s: string)
    ensures Agrees(Parsed(s), Meant(s)) <==> !WrapsSmall(s)
    ensures Reading(s).Some? && Reading(s).value.0 * Reading(s).value.1 < TWO_64 ==> Agrees(Parsed(s), Meant(s))
    ensures Reading(s).Some? ==>
              && (s[|s| - 1] == 's' ==> Reading(s).value.1 == 1) && (s[|s| - 1] == 'm' ==> Reading(s).value.1 == 60)
              && (s[|s| - 1] == 'h' ==> Reading(s).value.1 == 3600) && (s[|s| - 1] == 'd' ==> Reading(s).value.1 == 86400)
              && s[|s| - 1] in {'s', 'm', 'h', 'd'}
  {
    if Reading(s).Some? {
      var n, mult := Reading(s).value.0, Reading(s).value.1;
      ProductOf(n, mult);
    }
  }

  lemma ProductOf(n: nat, mult: nat)
    requires mult in {1, 60, 60 * 60, 60 * 60 * 24}
    ensures n * mult == 0 <==> n == 0
    ensures n * mult < TWO_64 ==> n * mult % TWO_64 == n * mult
  {
  }

  /** Five hundred and eighty-four billion years of minutes pass as 44 seconds. */
  lemma WrapExample()
    ensures var s := Decimal.Print(307445734561825861) + "m";
            WrapsSmall(s) && Parsed(s) == Ok(44) && Meant(s) == None
  {
    hide Decimal.Print, Decimal.Value;
    var n: nat := 307445734561825861;
    var s := Decimal.Print(n) + "m";
    Decimal.ValueOfPrint(n);
    assert s[..|s| - 1] == Decimal.Print(n);
    assert UintStrict(Decimal.Print(n)) == Some(n);
    assert n * 60 == TWO_64 + 44;
  }
}
