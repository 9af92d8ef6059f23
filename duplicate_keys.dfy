/** `CheckIfThereIsDuplicatedKey` (src/config.cpp): while a JSON document is parsed, a
    callback keeps one set of keys per open object and reports a key that its own object
    has already seen. The parser is not modelled; its callback events are the input. */
module DuplicateKeys {

  /** The parse events the callback reacts to (`parse_event_t`); `Other` is every event
      it ignores (arrays, values). */
  datatype Event = ObjectStart | ObjectEnd | Key(key: string) | Other

  /** The positions of the `ObjectStart` events whose objects are still open before event
      `n`, outermost first. A position identifies one object of the document. */
  function Open(events: seq<Event>, n: nat): seq<nat>
    requires n <= |events|
  {
    if n == 0 then []
    else
      var o := Open(events, n - 1);
      match events[n - 1]
      case ObjectStart => o + [n - 1]
      case ObjectEnd => if o == [] then o else o[..|o| - 1]
      case _ => o
  }

  /** Open objects started before `n`, and the inner one after the outer one. */
  lemma {:induction false} OpenAscending(events: seq<Event>, n: nat)
    requires n <= |events|
    ensures forall d :: 0 <= d < |Open(events, n)| ==> Open(events, n)[d] < n
    ensures forall d, e :: 0 <= d < e < |Open(events, n)| ==> Open(events, n)[d] < Open(events, n)[e]
  {
    if n > 0 {
      OpenAscending(events, n - 1);
      var o, r := Open(events, n - 1), Open(events, n);
      if events[n - 1].ObjectStart? {
        assert r == o + [n - 1];
      } else if events[n - 1].ObjectEnd? && o != [] {
        assert r == o[..|o| - 1];
      } else {
        assert r == o;
      }
    }
  }

  /** What a JSON parser guarantees its callback: a key or an object end only ever occurs
      inside an open object. */
  ghost predicate WellNested(events: seq<Event>)
  {
    forall n :: 0 <= n < |events| && (events[n].ObjectEnd? || events[n].Key?) ==> Open(events, n) != []
  }

  /** The object that event `n` belongs to: the innermost open one. */
  function Owner(events: seq<Event>, n: nat): nat
    requires n < |events| && Open(events, n) != []
  {
    var o := Open(events, n); o[|o| - 1]
  }

  /** Events `i` and `j` are the same key in the same object. */
  ghost predicate SameObjectKey(events: seq<Event>, i: nat, j: nat)
  {
    i < |events| && j < |events| && events[i].Key? && events[j] == events[i]
    && Open(events, i) != [] && Open(events, j) != [] && Owner(events, i) == Owner(events, j)
  }

  /** Some object repeats a key at its own level. */
  ghost predicate HasDuplicate(events: seq<Event>)
  {
    exists i, j :: 0 <= i < j < |events| && SameObjectKey(events, i, j)
  }

  /** The keys that object `s` has received before event `n`. */
  function KeysOf(events: seq<Event>, n: nat, s: nat): set<string>
    requires n <= |events|
  {
    if n == 0 then {}
    else
      var added := if events[n - 1].Key? && Open(events, n - 1) != [] && Owner(events, n - 1) == s
        then {events[n - 1].key} else {};
      KeysOf(events, n - 1, s) + added
  }

  lemma {:induction false} KeysOfSpec(events: seq<Event>, n: nat, s: nat, k: string)
    requires n <= |events|
    ensures k in KeysOf(events, n, s) <==>
      exists p :: 0 <= p < n && events[p] == Key(k) && Open(events, p) != [] && Owner(events, p) == s
  {
    if n > 0 {
      KeysOfSpec(events, n - 1, s, k);
    }
  }

  /** An object that has not started yet has received no key. */
  lemma {:induction false} KeysOfFresh(events: seq<Event>, n: nat, s: nat)
    requires n <= |events| && n <= s
    ensures KeysOf(events, n, s) == {}
  {
    if n > 0 {
      KeysOfFresh(events, n - 1, s);
      OpenAscending(events, n - 1);
      assert Open(events, n - 1) != [] ==> Owner(events, n - 1) < n - 1;
    }
  }

  /** Some key event before `n` repeats a key its object has already received. */
  predicate DupBefore(events: seq<Event>, n: nat)
    requires n <= |events|
  {
    n > 0 &&
      (DupBefore(events, n - 1)
       || (events[n - 1].Key? && Open(events, n - 1) != []
           && events[n - 1].key in KeysOf(events, n - 1, Owner(events, n - 1))))
  }

  lemma {:induction false} DupBeforePairs(events: seq<Event>, n: nat)
    requires n <= |events|
    ensures DupBefore(events, n) <==> exists i, j :: 0 <= i < j < n && SameObjectKey(events, i, j)
  {
    if n > 0 {
      DupBeforePairs(events, n - 1);
      var j := n - 1;
      if events[j].Key? && Open(events, j) != [] {
        KeysOfSpec(events, j, Owner(events, j), events[j].key);
        if events[j].key in KeysOf(events, j, Owner(events, j)) {
          var p :| 0 <= p < j && events[p] == Key(events[j].key) && Open(events, p) != []
            && Owner(events, p) == Owner(events, j);
          assert SameObjectKey(events, p, j);
        }
      }
      if exists i, j' :: 0 <= i < j' < n && SameObjectKey(events, i, j') {
        var i, j' :| 0 <= i < j' < n && SameObjectKey(events, i, j');
        if j' == j {
          assert events[i] == Key(events[j].key);
        }
      }
    }
  }

  /** Over the whole stream, the incremental check is the pairwise one. */
  lemma DuplicateFound(events: seq<Event>)
    ensures DupBefore(events, |events|) <==> HasDuplicate(events)
  {
    DupBeforePairs(events, |events|);
  }

  /** One event's effect on the key sets of the objects that remain open. */
  lemma StackStep(events: seq<Event>, i: nat, j: nat)
    requires j == i + 1 <= |events|
    ensures forall d :: 0 <= d < |Open(events, j)| && (events[i].ObjectStart? ==> d < |Open(events, i)|) ==>
      KeysOf(events, j, Open(events, j)[d]) == KeysOf(events, i, Open(events, j)[d])
        + (if events[i].Key? && Open(events, i) != [] && d == |Open(events, i)| - 1 then {events[i].key} else {})
  {
    OpenAscending(events, i);
  }

  /** The key sets of the open objects before event `i`, innermost last. */
  ghost predicate StackAt(events: seq<Event>, i: nat, parseStack: seq<set<string>>)
    requires i <= |events|
  {
    |parseStack| == |Open(events, i)|
    && forall d :: 0 <= d < |parseStack| ==> parseStack[d] == KeysOf(events, i, Open(events, i)[d])
  }

  /** The callback on one event before any duplicate: an object start pushes an empty key
      set, an object end pops it, and a key goes into the innermost set unless it is
      already there, which flags a duplicate. */
  method OnEvent(e: Event, parseStack: seq<set<string>>, ghost events: seq<Event>, ghost i: nat)
    returns (isDuplicatedKey: bool, after: seq<set<string>>)
    requires i < |events| && e == events[i]
    requires (e.ObjectEnd? || e.Key?) ==> Open(events, i) != []
    requires StackAt(events, i, parseStack) && !DupBefore(events, i)
    ensures isDuplicatedKey <==> DupBefore(events, i + 1)
    ensures !isDuplicatedKey ==> StackAt(events, i + 1, after)
  {
    isDuplicatedKey := false;
    StackStep(events, i, i + 1);
    match e
    case ObjectStart =>
      KeysOfFresh(events, i, i);
      assert KeysOf(events, i + 1, i) == {};
      after := parseStack + [{}];
    case ObjectEnd =>
      after := parseStack[..|parseStack| - 1];
    case Key(k) =>
      var top := parseStack[|parseStack| - 1];
      if k in top {
        isDuplicatedKey, after := true, parseStack;
      } else {
        after := parseStack[|parseStack| - 1 := top + {k}];
      }
    case Other =>
      after := parseStack;
  }

  /** `CheckIfThereIsDuplicatedKey` over the events the parser reports: once a duplicate is
      flagged, every later event is ignored. */
  method CheckIfThereIsDuplicatedKey(events: seq<Event>) returns (isDuplicatedKey: bool)
    requires WellNested(events)
    ensures isDuplicatedKey <==> HasDuplicate(events)
  {
    DuplicateFound(events);
    isDuplicatedKey := false;
    var parseStack: seq<set<string>> := [];
    var i := 0;
    while i < |events|
      invariant 0 <= i <= |events|
      invariant isDuplicatedKey <==> DupBefore(events, i)
      invariant !isDuplicatedKey ==> StackAt(events, i, parseStack)
    {
      if !isDuplicatedKey {
        isDuplicatedKey, parseStack := OnEvent(events[i], parseStack, events, i);
      }
      i := i + 1;
    }
  }

  /** The same key in two different objects is not a duplicate, even when one object is
      nested in the other. */
  lemma NestedKeysAllowed()
    ensures !HasDuplicate([ObjectStart, Key("a"), ObjectStart, Key("a")])
  {
    var e := [ObjectStart, Key("a"), ObjectStart, Key("a")];
    assert Open(e, 1) == [0];
    assert Open(e, 2) == [0];
    assert Open(e, 3) == [0, 2];
    assert Owner(e, 1) != Owner(e, 3);
    forall i, j | 0 <= i < j < |e| ensures !SameObjectKey(e, i, j) {
      if i == 1 && j == 3 {
        assert Owner(e, i) == 0 && Owner(e, j) == 2;
      } else {
        assert i == 0 || i == 2 || j == 2;
      }
    }
  }

  /** A key repeated at one level is a duplicate, whatever lies between. */
  lemma SameLevelDuplicate()
    ensures HasDuplicate([ObjectStart, Key("a"), Other, Key("a"), ObjectEnd])
  {
    var f := [ObjectStart, Key("a"), Other, Key("a"), ObjectEnd];
    assert Open(f, 1) == [0];
    assert Open(f, 2) == [0];
    assert Open(f, 3) == [0];
    assert SameObjectKey(f, 1, 3);
  }
}
