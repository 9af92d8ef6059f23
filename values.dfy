/** The typed value holder of src/value.hpp and src/value.cpp: a `Value` has a declared type
    fixed at construction and a `std::any` holder that the setters fill only when the type
    matches. `Number` is `int32_t`. */
module Values {
  import opened Wrappers

  newtype int32 = x: int | -0x8000_0000 <= x < 0x8000_0000

  /** `Value::Type`. */
  datatype ValueType = Bool | Number | Str | Ref

  /** What the `std::any` holder contains. */
  datatype Held = Empty | HBool(b: bool) | HNumber(n: int32) | HString(s: string)

  // ---------------------------------------------------------------------------------------
  // Decimal rendering of a number (`std::to_chars`) and its inverse
  // ---------------------------------------------------------------------------------------

  predicate IsDigit(c: char) { '0' <= c <= '9' }

  function DigitChar(d: nat): (c: char)
    requires d < 10
    ensures IsDigit(c)
  {
    (48 + d) as char
  }

  function DigitValue(c: char): (d: nat)
    requires IsDigit(c)
    ensures d < 10
  {
    (c as int) - 48
  }

  /** Decimal digits of a natural number, most significant first, no leading zero. */
  function Digits(n: nat): (s: string)
    ensures |s| >= 1 && forall i :: 0 <= i < |s| ==> IsDigit(s[i])
  {
    if n < 10 then [DigitChar(n)] else Digits(n / 10) + [DigitChar(n % 10)]
  }

  /** What `std::to_chars` writes for an integer: an optional `-`, then the digits. */
  function Decimal(n: int): string
  {
    if n < 0 then "-" + Digits(-n) else Digits(n)
  }

  function DigitsValue(s: string): nat
    requires |s| >= 1 && forall i :: 0 <= i < |s| ==> IsDigit(s[i])
  {
    if |s| == 1 then DigitValue(s[0])
    else DigitsValue(s[..|s| - 1]) * 10 + DigitValue(s[|s| - 1])
  }

  /** Reads back an optionally signed decimal numeral. */
  function ParseDecimal(s: string): Option<int>
  {
    if s != [] && s[0] == '-' then
      (if |s| >= 2 && forall i :: 1 <= i < |s| ==> IsDigit(s[i]) then Some(0 - (DigitsValue(s[1..]) as int)) else None)
    else if |s| >= 1 && forall i :: 0 <= i < |s| ==> IsDigit(s[i]) then Some(DigitsValue(s) as int)
    else None
  }

  lemma {:induction false} DigitsRoundTrip(n: nat)
    ensures DigitsValue(Digits(n)) == n
  {
    if n >= 10 {
      DigitsRoundTrip(n / 10);
      var s := Digits(n);
      assert s[..|s| - 1] == Digits(n / 10);
    }
  }

  /** The rendering of every number reads back as that number. */
  lemma DecimalRoundTrip(n: int)
    ensures ParseDecimal(Decimal(n)) == Some(n)
  {
    if n < 0 {
      NegativeRoundTrip(n);
    } else {
      var s := Digits(n);
      DigitsRoundTrip(n);
      assert IsDigit(s[0]);
      assert ParseDecimal(s) == Some(DigitsValue(s) as int);
    }
  }

  lemma NegativeRoundTrip(n: int)
    requires n < 0
    ensures ParseDecimal(Decimal(n)) == Some(n)
  {
    var m: nat := -n;
    var d := Digits(m);
    DigitsRoundTrip(m);
    ParseNegative(d);
    assert Decimal(n) == "-" + d;
  }

  /** A `-` followed by digits reads back as the negated digit value. */
  lemma ParseNegative(d: string)
    requires |d| >= 1 && forall i :: 0 <= i < |d| ==> IsDigit(d[i])
    ensures ParseDecimal("-" + d) == Some(0 - (DigitsValue(d) as int))
  {
    var s := "-" + d;
    assert s[0] == '-' && s[1..] == d;
    forall i | 1 <= i < |s| ensures IsDigit(s[i]) {
      assert s[i] == d[i - 1];
    }
  }

  // ---------------------------------------------------------------------------------------
  // Value
  // ---------------------------------------------------------------------------------------

  class Value {
    /** `_type`: fixed at construction. */
    const declared: ValueType
    /** `_holder`. */
    var held: Held

    /** The holder never contains a value of a type other than the declared one. */
    ghost predicate Valid()
      reads this
    {
      match held
      case Empty => true
      case HBool(_) => declared == Bool
      case HNumber(_) => declared == Number
      case HString(_) => declared == Str
    }

    /** `Value(Type)`: an empty holder. */
    constructor (t: ValueType)
      ensures declared == t && Valid()
      ensures !HasValue() && !IsBool() && !IsNumber() && !IsString()
    {
      declared := t;
      held := Empty;
    }

    /** The copy constructor: same declared type, same held value. */
    constructor Copy(other: Value)
      ensures declared == other.declared && held == other.held
      ensures other.Valid() ==> Valid()
    {
      declared := other.declared;
      held := other.held;
    }

    predicate HasValue()
      reads this
    {
      !held.Empty?
    }

    predicate IsBool() reads this { held.HBool? }

    predicate IsNumber() reads this { held.HNumber? }

    predicate IsString() reads this { held.HString? }

    /** `get_bool`: `None` where `std::any_cast` throws `bad_any_cast`. */
    function GetBool(): (r: Option<bool>)
      reads this
      ensures r.Some? <==> IsBool()
    {
      if held.HBool? then Some(held.b) else None
    }

    function GetNumber(): (r: Option<int32>)
      reads this
      ensures r.Some? <==> IsNumber()
    {
      if held.HNumber? then Some(held.n) else None
    }

    function GetString(): (r: Option<string>)
      reads this
      ensures r.Some? <==> IsString()
    {
      if held.HString? then Some(held.s) else None
    }

    /** `set_bool`: refused (false, holder untouched) unless the declared type is BOOL. */
    method SetBool(v: bool) returns (ok: bool)
      modifies this
      ensures ok <==> declared == Bool
      ensures ok ==> IsBool() && GetBool() == Some(v)
      ensures !ok ==> held == old(held)
      ensures old(Valid()) ==> Valid()
    {
      if declared != Bool {
        return false;
      }
      held := HBool(v);
      return true;
    }

    method SetNumber(v: int32) returns (ok: bool)
      modifies this
      ensures ok <==> declared == Number
      ensures ok ==> IsNumber() && GetNumber() == Some(v)
      ensures !ok ==> held == old(held)
      ensures old(Valid()) ==> Valid()
    {
      if declared != Number {
        return false;
      }
      held := HNumber(v);
      return true;
    }

    method SetString(v: string) returns (ok: bool)
      modifies this
      ensures ok <==> declared == Str
      ensures ok ==> IsString() && GetString() == Some(v)
      ensures !ok ==> held == old(held)
      ensures old(Valid()) ==> Valid()
    {
      if declared != Str {
        return false;
      }
      held := HString(v);
      return true;
    }

    /** `to_string`: `None` where the getter for the declared type throws. */
    function ToString(): (r: Option<string>)
      reads this
      ensures declared == Ref ==> r == Some("")
      ensures declared == Bool ==> (r.Some? <==> IsBool())
      ensures declared == Bool && IsBool() ==> r == Some(if held.b then "true" else "false")
      ensures declared == Number ==> (r.Some? <==> IsNumber())
      ensures declared == Number && IsNumber() ==> r.Some? && ParseDecimal(r.value) == Some(held.n as int)
      ensures declared == Str ==> r == GetString()
    {
      match declared
      case Bool => (match GetBool() case Some(b) => Some(if b then "true" else "false") case None => None)
      case Number => (match GetNumber()
                      case Some(n) => DecimalRoundTrip(n as int); Some(Decimal(n as int))
                      case None => None)
      case Str => GetString()
      case Ref => Some("")
    }
  }
}
