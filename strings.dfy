/** String helpers shared by the model: the lexicographic order `std::map<std::string, _>`
    iterates in, substring search (`find`), left-to-right replacement and splitting. */
module Strings {
  import opened Wrappers

  // ---------------------------------------------------------------------------------------
  // Lexicographic order (std::string operator<)
  // ---------------------------------------------------------------------------------------

  /** `a` sorts strictly before `b`: a proper prefix, or smaller at the first difference. */
  predicate Below(a: string, b: string)
  {
    if a == [] then b != []
    else b != [] && (a[0] < b[0] || (a[0] == b[0] && Below(a[1..], b[1..])))
  }

  lemma {:induction false} BelowIrreflexive(a: string)
    ensures !Below(a, a)
  {
    if a != [] { BelowIrreflexive(a[1..]); }
  }

  lemma {:induction false} BelowTransitive(a: string, b: string, c: string)
    requires Below(a, b) && Below(b, c)
    ensures Below(a, c)
  {
    if a != [] && a[0] == b[0] && b[0] == c[0] {
      BelowTransitive(a[1..], b[1..], c[1..]);
    }
  }

  lemma {:induction false} BelowAsymmetric(a: string, b: string)
    requires Below(a, b)
    ensures !Below(b, a)
  {
    if a != [] && a[0] == b[0] {
      BelowAsymmetric(a[1..], b[1..]);
    }
  }

  lemma {:induction false} BelowTotal(a: string, b: string)
    ensures a == b || Below(a, b) || Below(b, a)
  {
    if a != [] && b != [] && a[0] == b[0] {
      BelowTotal(a[1..], b[1..]);
      assert a == [a[0]] + a[1..] && b == [b[0]] + b[1..];
    }
  }

  // ---------------------------------------------------------------------------------------
  // Iteration order of a std::map / std::set keyed by strings
  // ---------------------------------------------------------------------------------------

  ghost predicate IsLeast(m: string, s: set<string>)
  {
    m in s && forall x :: x in s ==> x == m || Below(m, x)
  }

  lemma {:induction false} LeastExists(s: set<string>)
    requires s != {}
    ensures exists m :: IsLeast(m, s)
    decreases |s|
  {
    var y :| y in s;
    if s == {y} {
      assert IsLeast(y, s);
    } else {
      LeastExists(s - {y});
      var m :| IsLeast(m, s - {y});
      BelowTotal(m, y);
      if Below(m, y) {
        assert IsLeast(m, s);
      } else {
        forall x | x in s && x != y ensures Below(y, x) {
          if x != m { BelowTransitive(y, m, x); }
        }
        assert IsLeast(y, s);
      }
    }
  }

  lemma LeastUnique(s: set<string>, m: string, n: string)
    requires IsLeast(m, s) && IsLeast(n, s)
    ensures m == n
  {
    if m != n { BelowAsymmetric(m, n); }
  }

  ghost function Least(s: set<string>): (m: string)
    requires s != {}
    ensures IsLeast(m, s)
  {
    LeastExists(s);
    var m :| IsLeast(m, s); m
  }

  /** The keys of a string-keyed std::map (or the members of a std::set) in iteration order. */
  ghost function SortedKeys(s: set<string>): seq<string>
    decreases |s|
  {
    if s == {} then [] else [Least(s)] + SortedKeys(s - {Least(s)})
  }

  /** Iteration visits every key exactly once, in strictly ascending order. */
  lemma {:induction false} SortedKeysSpec(s: set<string>)
    ensures |SortedKeys(s)| == |s|
    ensures forall x :: x in SortedKeys(s) <==> x in s
    ensures forall i, j :: 0 <= i < j < |SortedKeys(s)| ==> Below(SortedKeys(s)[i], SortedKeys(s)[j])
    decreases |s|
  {
    if s != {} {
      var m := Least(s);
      var rest := SortedKeys(s - {m});
      SortedKeysSpec(s - {m});
      assert SortedKeys(s) == [m] + rest;
      forall i, j | 0 <= i < j < |SortedKeys(s)|
        ensures Below(SortedKeys(s)[i], SortedKeys(s)[j])
      {
        if i > 0 {
          assert SortedKeys(s)[i] == rest[i - 1] && SortedKeys(s)[j] == rest[j - 1];
        } else {
          assert SortedKeys(s)[j] == rest[j - 1];
          assert rest[j - 1] in s - {m};
        }
      }
    }
  }

  /** Iteration visits exactly the keys of the set. */
  lemma SortedKeysMembers(s: set<string>)
    ensures forall x :: x in SortedKeys(s) <==> x in s
  {
    SortedKeysSpec(s);
  }

  /** Computes the iteration order of a key set: repeatedly take the least remaining key. */
  method OrderedKeys(s: set<string>) returns (ks: seq<string>)
    ensures ks == SortedKeys(s)
  {
    ks := [];
    var rest := s;
    while rest != {}
      invariant ks + SortedKeys(rest) == SortedKeys(s)
      decreases |rest|
    {
      LeastExists(rest);
      var m :| m in rest && forall x :: x in rest ==> x == m || Below(m, x);
      LeastUnique(rest, m, Least(rest));
      assert SortedKeys(rest) == [m] + SortedKeys(rest - {m});
      ks := ks + [m];
      rest := rest - {m};
    }
  }

  // ---------------------------------------------------------------------------------------
  // Searching
  // ---------------------------------------------------------------------------------------

  predicate OccursAt(s: string, sub: string, i: int)
  {
    0 <= i && i + |sub| <= |s| && s[i..i + |sub|] == sub
  }

  /** Index of the first occurrence of `sub` at or after `from` (std::string::find, str.find). */
  function FindFrom(s: string, sub: string, from: nat): (r: int)
    ensures r == -1 || (from <= r && OccursAt(s, sub, r))
    ensures forall i :: from <= i && (r == -1 || i < r) ==> !OccursAt(s, sub, i)
    decreases |s| - from
  {
    if from + |sub| > |s| then -1
    else if s[from..from + |sub|] == sub then from
    else FindFrom(s, sub, from + 1)
  }

  function Find(s: string, sub: string): (r: int)
    ensures r == -1 || OccursAt(s, sub, r)
    ensures forall i :: 0 <= i && (r == -1 || i < r) ==> !OccursAt(s, sub, i)
  {
    FindFrom(s, sub, 0)
  }

  /** `sub in s` / `s.find(sub) != npos`. */
  predicate Contains(s: string, sub: string)
  {
    Find(s, sub) != -1
  }

  lemma ContainsWitness(s: string, sub: string, i: int)
    requires OccursAt(s, sub, i)
    ensures Contains(s, sub)
  {
  }

  // ---------------------------------------------------------------------------------------
  // Replacing and splitting
  // ---------------------------------------------------------------------------------------

  /** Replaces every occurrence of a non-empty `pat`, scanning left to right and resuming after
      each replacement (Python `str.replace`, and the usual `find_and_replace_all` loop). */
  function ReplaceAll(s: string, pat: string, rep: string): string
    requires pat != []
    decreases |s|
  {
    if |s| < |pat| then s
    else if s[..|pat|] == pat then rep + ReplaceAll(s[|pat|..], pat, rep)
    else [s[0]] + ReplaceAll(s[1..], pat, rep)
  }

  /** Replacing one character by one character maps the string position by position. */
  lemma {:induction false} ReplaceCharAt(s: string, c: char, d: char)
    ensures |ReplaceAll(s, [c], [d])| == |s|
    ensures forall i :: 0 <= i < |s| ==> ReplaceAll(s, [c], [d])[i] == if s[i] == c then d else s[i]
  {
    if s != [] {
      ReplaceCharAt(s[1..], c, d);
      var rest := ReplaceAll(s[1..], [c], [d]);
      assert s[..1] == [s[0]];
      assert ReplaceAll(s, [c], [d]) == [if s[0] == c then d else s[0]] + rest;
    }
  }

  /** The characters of `s` other than `c`, in order. */
  function Without(s: string, c: char): (r: string)
    ensures c !in r && |r| <= |s|
  {
    if s == [] then [] else (if s[0] == c then [] else [s[0]]) + Without(s[1..], c)
  }

  /** Deleting a character by replacement keeps every other character in order. */
  lemma {:induction false} DeleteCharIsWithout(s: string, c: char)
    ensures ReplaceAll(s, [c], []) == Without(s, c)
  {
    if s != [] {
      DeleteCharIsWithout(s[1..], c);
      assert s[..1] == [s[0]];
    }
  }

  lemma {:induction false} WithoutIdempotent(s: string, c: char)
    ensures Without(Without(s, c), c) == Without(s, c)
  {
    if s != [] {
      WithoutIdempotent(s[1..], c);
      WithoutAppend((if s[0] == c then [] else [s[0]]), Without(s[1..], c), c);
    }
  }

  lemma {:induction false} WithoutAppend(a: string, b: string, c: char)
    ensures Without(a + b, c) == Without(a, c) + Without(b, c)
  {
    if a != [] {
      assert (a + b)[1..] == a[1..] + b;
      WithoutAppend(a[1..], b, c);
    } else {
      assert a + b == b;
    }
  }

  /** Python `s.split(c)`: the pieces between occurrences of `c`, empty pieces included. */
  function SplitOn(s: string, c: char): (r: seq<string>)
    ensures |r| >= 1
    decreases |s|
  {
    if s == [] then [""]
    else
      var rest := SplitOn(s[1..], c);
      if s[0] == c then [""] + rest else [[s[0]] + rest[0]] + rest[1..]
  }

  /** A string splits into at least two pieces exactly when it contains the separator. */
  lemma {:induction false} SplitOnCount(s: string, c: char)
    ensures |SplitOn(s, c)| >= 2 <==> c in s
  {
    if s != [] {
      SplitOnCount(s[1..], c);
      assert c in s <==> s[0] == c || c in s[1..];
    }
  }

  /** No piece of a split holds the separator. */
  lemma {:induction false} SplitOnPiecesFree(s: string, c: char)
    ensures forall p :: p in SplitOn(s, c) ==> c !in p
  {
    if s != [] {
      SplitOnPiecesFree(s[1..], c);
      var rest := SplitOn(s[1..], c);
      if s[0] != c {
        assert rest[0] in rest;
        forall p | p in SplitOn(s, c) ensures c !in p {
          if p != [s[0]] + rest[0] {
            assert p in rest[1..];
          }
        }
      }
    }
  }

  /** A string without the separator is one piece. */
  lemma {:induction false} SplitOnSingle(s: string, c: char)
    requires c !in s
    ensures SplitOn(s, c) == [s]
  {
    if s != [] {
      assert s[0] != c && c !in s[1..];
      SplitOnSingle(s[1..], c);
      assert s == [s[0]] + s[1..];
    }
  }

  /** A separator-free piece followed by a separator splits off as the first piece. */
  lemma {:induction false} SplitOnPrefix(p: string, c: char, rest: string)
    requires c !in p
    ensures SplitOn(p + [c] + rest, c) == [p] + SplitOn(rest, c)
  {
    if p != [] {
      SplitOnPrefix(p[1..], c, rest);
      assert (p + [c] + rest)[1..] == p[1..] + [c] + rest;
      var r := SplitOn(p[1..] + [c] + rest, c);
      assert r[0] == p[1..] && r[1..] == SplitOn(rest, c);
      assert p == [p[0]] + p[1..];
    } else {
      assert p + [c] + rest == [c] + rest;
    }
  }

  /** A separator followed by a separator-free piece splits off as the last piece. */
  lemma {:induction false} SplitOnSuffix(s: string, c: char, p: string)
    requires c !in p
    ensures SplitOn(s + [c] + p, c) == SplitOn(s, c) + [p]
  {
    if s == [] {
      assert s + [c] + p == [c] + p;
      SplitOnSingle(p, c);
    } else {
      SplitOnSuffix(s[1..], c, p);
      assert (s + [c] + p)[1..] == s[1..] + [c] + p;
    }
  }

  /** Python `s.split(c)[-2]`; `None` when Python raises IndexError. */
  function SecondToLast(s: string, c: char): (r: Option<string>)
    ensures r.Some? <==> c in s
  {
    var parts := SplitOn(s, c);
    SplitOnCount(s, c);
    if |parts| >= 2 then Some(parts[|parts| - 2]) else None
  }

  /** A string that contains a character occurring inside a contained substring. */
  lemma ContainsChar(s: string, sub: string, k: nat)
    requires Contains(s, sub) && k < |sub|
    ensures sub[k] in s
  {
    var i := Find(s, sub);
    assert s[i + k] == s[i..i + |sub|][k];
  }
}
