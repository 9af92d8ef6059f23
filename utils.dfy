/** `Utils::leftTrim`, `Utils::rightTrim` and `Utils::trim` from src/lib/utils.hpp.
    Each is a `std::regex_replace` of a run of `\s` anchored at one end; with the default
    `std::regex_traits<char>` the class `\s` is the C-locale `isspace` set. */
module Utils {

  /** Whitespace as `\s` matches it under `std::regex_traits<char>` in the C locale. */
  predicate IsSpace(c: char)
  {
    c == ' ' || c == '\t' || c == '\n' || c == '\r' || c == '\U{0B}' || c == '\U{0C}'
  }

  /** `leftTrim`: removes the longest whitespace prefix (`^\s+` replaced by ""). */
  function LeftTrim(s: string): (r: string)
    ensures |r| <= |s| && r == s[|s| - |r|..]
    ensures r == [] || !IsSpace(r[0])
    ensures forall k :: 0 <= k < |s| - |r| ==> IsSpace(s[k])
    decreases |s|
  {
    if s != [] && IsSpace(s[0]) then LeftTrim(s[1..]) else s
  }

  /** `rightTrim`: removes the longest whitespace suffix (`\s+$` replaced by ""). */
  function RightTrim(s: string): (r: string)
    ensures |r| <= |s| && r == s[..|r|]
    ensures r == [] || !IsSpace(r[|r| - 1])
    ensures forall k :: |r| <= k < |s| ==> IsSpace(s[k])
    decreases |s|
  {
    if s != [] && IsSpace(s[|s| - 1]) then RightTrim(s[..|s| - 1]) else s
  }

  function Trim(s: string): string
  {
    LeftTrim(RightTrim(s))
  }

  /** `r` is the piece of `s` that starts at `i`, and only whitespace lies around it. */
  ghost predicate InnerPart(s: string, r: string, i: int)
  {
    0 <= i <= |s| - |r| && r == s[i..i + |r|]
    && (forall k :: 0 <= k < i ==> IsSpace(s[k]))
    && (forall k :: i + |r| <= k < |s| ==> IsSpace(s[k]))
  }

  /** `trim(s)` starts and ends with a non-whitespace character, or is empty. */
  lemma TrimNoOuterSpace(s: string)
    ensures var r := Trim(s); r == [] || (!IsSpace(r[0]) && !IsSpace(r[|r| - 1]))
  {
    var t := RightTrim(s);
    var r := LeftTrim(t);
    if r != [] {
      assert r[|r| - 1] == t[|t| - 1];
    }
  }

  /** `trim(s)` is a contiguous piece of `s`; only whitespace is dropped on either side. */
  lemma TrimIsInnerPart(s: string)
    ensures exists i :: InnerPart(s, Trim(s), i)
  {
    var t := RightTrim(s);
    var r := LeftTrim(t);
    var i := |t| - |r|;
    assert r == t[i..] == s[..|t|][i..] == s[i..i + |r|];
    forall k | 0 <= k < i ensures IsSpace(s[k]) {
      assert s[k] == t[k];
    }
    assert InnerPart(s, Trim(s), i);
  }

  /** A string without whitespace at either end is its own trim. */
  lemma TrimPlain(s: string)
    requires s == [] || (!IsSpace(s[0]) && !IsSpace(s[|s| - 1]))
    ensures Trim(s) == s
  {
  }

  /** Trimming twice is trimming once. */
  lemma TrimIdempotent(s: string)
    ensures Trim(Trim(s)) == Trim(s)
  {
    TrimNoOuterSpace(s);
  }

  /** A string trims to "" exactly when it is made only of whitespace. */
  lemma {:induction false} TrimEmptyIffAllSpace(s: string)
    ensures Trim(s) == "" <==> forall k :: 0 <= k < |s| ==> IsSpace(s[k])
  {
    if forall k :: 0 <= k < |s| ==> IsSpace(s[k]) {
      AllSpaceTrimsEmpty(s);
    } else {
      var k :| 0 <= k < |s| && !IsSpace(s[k]);
      TrimIsInnerPart(s);
      var i :| InnerPart(s, Trim(s), i);
      assert i <= k < i + |Trim(s)|;
      assert Trim(s)[k - i] == s[k];
    }
  }

  /** Only whitespace survives `rightTrim` of an all-whitespace string, and `rightTrim` keeps
      no whitespace at the end, so nothing survives. */
  lemma {:induction false} AllSpaceTrimsEmpty(s: string)
    requires forall k :: 0 <= k < |s| ==> IsSpace(s[k])
    ensures Trim(s) == ""
  {
    var t := RightTrim(s);
    assert forall j :: 0 <= j < |t| ==> t[j] == s[j];
    assert t == [];
  }
}
