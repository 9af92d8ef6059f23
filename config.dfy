/** Bookkeeping of `Config::Manager` (src/config.cpp): the table of cross-references between
    configuration nodes, the action-parameter filter, the parent prefixes of a removed path,
    and the candidate/running state machine. JSON documents, schema lookups, patching and
    validation are outside the model: their answers are parameters. */
module Config {
  import opened Wrappers
  import opened XPath
  import Nodes

  // ---------------------------------------------------------------------------------------
  // Reference table: target xpath -> the source xpaths that refer to it
  // ---------------------------------------------------------------------------------------

  type RefTable = map<string, set<string>>

  /** `t` holds `s` as a source. */
  predicate HasRef(m: RefTable, t: string, s: string)
  {
    t in m && s in m[t]
  }

  /** What `saveXPathReference` learns about the node at one xpath: its name and the
      `reference` attribute of its schema node. `None` when the xpath has no schema node or
      no configuration node. */
  datatype Source = Source(name: string, refs: seq<string>)

  /** The target a reference names once `@` is replaced by the source node's name; `ref` is
      what lines 480-486 made of the attribute (`evaluated`). None without an `@`. */
  function Target(ref: string, name: string): (r: Option<string>)
    ensures r.Some? <==> '@' in ref
  {
    if '@' in ref then Some(Strings.ReplaceAll(ref, "@", name)) else None
  }

  /** One of `refs`, after evaluation, names the existing target `t`. */
  ghost predicate NamesTarget(s: string, name: string, refs: seq<string>, t: string,
                              evaluated: (string, string) -> string, present: string -> bool)
  {
    exists ref :: ref in refs && Target(evaluated(s, ref), name) == Some(t) && present(t)
  }

  /** The node at `s` refers to the existing node at `t`. */
  ghost predicate Links(s: string, t: string, sources: string -> Option<Source>,
                        evaluated: (string, string) -> string, present: string -> bool)
  {
    sources(s).Some? && NamesTarget(s, sources(s).value.name, sources(s).value.refs, t, evaluated, present)
  }

  /** `r` is `m` with exactly the links of the listed sources added. */
  ghost predicate SavedFrom(m: RefTable, r: RefTable, ordered: seq<string>, sources: string -> Option<Source>,
                            evaluated: (string, string) -> string, present: string -> bool)
  {
    m.Keys <= r.Keys
    && forall t, s :: HasRef(r, t, s) <==> HasRef(m, t, s) || (s in ordered && Links(s, t, sources, evaluated, present))
  }

  /** The inner loop of `saveXPathReference` for one source `s`. */
  method SaveSource(r: RefTable, s: string, src: Source, evaluated: (string, string) -> string,
                    present: string -> bool) returns (r': RefTable)
    ensures r.Keys <= r'.Keys
    ensures forall t, x :: HasRef(r', t, x) <==>
      HasRef(r, t, x) || (x == s && NamesTarget(s, src.name, src.refs, t, evaluated, present))
  {
    r' := r;
    var j := 0;
    while j < |src.refs|
      invariant 0 <= j <= |src.refs|
      invariant r.Keys <= r'.Keys
      invariant forall t, x :: HasRef(r', t, x) <==>
        HasRef(r, t, x) || (x == s && NamesTarget(s, src.name, src.refs[..j], t, evaluated, present))
    {
      var ref := evaluated(s, src.refs[j]);
      assert src.refs[..j + 1] == src.refs[..j] + [src.refs[j]];
      match Target(ref, src.name) {
        case Some(t) =>
          if present(t) {
            r' := r'[t := (if t in r' then r'[t] else {}) + {s}];
          }
        case None =>
      }
      j := j + 1;
    }
    assert src.refs[..j] == src.refs;
  }

  /** `saveXPathReference`: for each listed node with a schema, each reference that contains
      `@` names a target once `@` is replaced by the node's name; when that target exists the
      node is recorded as one of its sources. Pairs are only ever added, and it always
      succeeds. */
  method SaveXPathReference(ordered: seq<string>, m: RefTable, sources: string -> Option<Source>,
                            evaluated: (string, string) -> string, present: string -> bool)
    returns (ok: bool, r: RefTable)
    ensures ok
    ensures SavedFrom(m, r, ordered, sources, evaluated, present)
  {
    r := m;
    var i := 0;
    while i < |ordered|
      invariant 0 <= i <= |ordered|
      invariant SavedFrom(m, r, ordered[..i], sources, evaluated, present)
    {
      var s := ordered[i];
      assert ordered[..i + 1] == ordered[..i] + [s];
      match sources(s) {
        case Some(src) =>
          r := SaveSource(r, s, src, evaluated, present);
        case None =>
      }
      i := i + 1;
    }
    assert ordered[..i] == ordered;
    ok := true;
  }

  /** The table with every listed xpath struck from every source set; every target stays. */
  function Stripped(m: RefTable, xs: seq<string>): (r: RefTable)
    ensures r.Keys == m.Keys
    ensures forall t, s :: HasRef(r, t, s) <==> HasRef(m, t, s) && s !in xs
  {
    map t | t in m :: set s | s in m[t] && s !in xs
  }

  /** Some listed xpath is a target that is still referred to by an unlisted source. */
  ghost predicate StillReferenced(m: RefTable, xs: seq<string>)
  {
    exists x :: x in xs && x in m && Stripped(m, xs)[x] != {}
  }

  /** `removeXPathReference`: strikes the listed xpaths from every source set; it refuses,
      leaving the table as it was, when a listed xpath is a target that another source still
      refers to. On success the table keeps all its targets: only xpaths that are not
      targets are queued for erasure. */
  method RemoveXPathReference(ordered: seq<string>, m: RefTable) returns (ok: bool, r: RefTable)
    ensures ok <==> !StillReferenced(m, ordered)
    ensures ok ==> r == Stripped(m, ordered)
    ensures !ok ==> r == m
  {
    var table := m;
    var i := 0;
    assert Stripped(m, ordered[..0]) == m by {
      forall t | t in m ensures Stripped(m, ordered[..0])[t] == m[t] { }
    }
    while i < |ordered|
      invariant 0 <= i <= |ordered|
      invariant table == Stripped(m, ordered[..i])
    {
      var x := ordered[i];
      table := map t | t in table :: table[t] - {x};
      i := i + 1;
      assert ordered[..i] == ordered[..i - 1] + [x];
      forall t | t in table ensures table[t] == Stripped(m, ordered[..i])[t] { }
    }
    assert ordered[..i] == ordered;
    var referenceToRemove: seq<string> := [];
    var success := true;
    i := 0;
    while i < |ordered|
      invariant 0 <= i <= |ordered|
      invariant success <==> forall j :: 0 <= j < i && ordered[j] in table ==> table[ordered[j]] == {}
      invariant forall x :: x in referenceToRemove ==> x !in table
    {
      var x := ordered[i];
      if x in table {
        if table[x] != {} {
          success := false;
        }
      } else {
        referenceToRemove := [x] + referenceToRemove;
      }
      i := i + 1;
    }
    if !success {
      return false, m;
    }
    i := 0;
    while i < |referenceToRemove|
      invariant 0 <= i <= |referenceToRemove|
      invariant table == Stripped(m, ordered)
    {
      table := table - {referenceToRemove[i]};
      i := i + 1;
    }
    ok, r := true, table;
  }

  /** Removing the sources of a reference and then the reference's target succeeds in two
      steps, where removing the target alone is refused. */
  lemma RemoveSourcesFirst(t: string, s: string)
    requires t != s
    ensures var m := map[t := {s}];
      StillReferenced(m, [t]) && !StillReferenced(m, [s]) && !StillReferenced(Stripped(m, [s]), [t])
  {
    var m := map[t := {s}];
    assert s in Stripped(m, [t])[t];
  }

  // ---------------------------------------------------------------------------------------
  // Action parameters
  // ---------------------------------------------------------------------------------------

  /** `findAndAppendParamActionF`: `actionParams` is the schema's `action-parameters`
      object (None when absent), mapping an action name to the parameter names it takes;
      the result holds each listed parameter that the configuration node has, with the
      node's value. */
  method FindAndAppendParamActionF<V>(actionParams: Option<map<string, seq<string>>>, config: map<string, V>,
                                      action: string) returns (parameters: map<string, V>)
    ensures actionParams.None? || action !in actionParams.value ==> parameters == map[]
    ensures actionParams.Some? && action in actionParams.value ==>
      parameters.Keys == (set p | p in actionParams.value[action] && p in config)
    ensures forall p :: p in parameters ==> p in config && parameters[p] == config[p]
  {
    parameters := map[];
    if actionParams.None? {
      return;
    }
    if action in actionParams.value {
      var list := actionParams.value[action];
      var i := 0;
      while i < |list|
        invariant 0 <= i <= |list|
        invariant parameters.Keys == set p | p in list[..i] && p in config
        invariant forall p :: p in parameters ==> p in config && parameters[p] == config[p]
      {
        var param := list[i];
        if param in config {
          parameters := parameters[param := config[param]];
        }
        i := i + 1;
        assert list[..i] == list[..i - 1] + [param];
      }
      assert list[..i] == list;
    }
  }

  // ---------------------------------------------------------------------------------------
  // Parent prefixes of a removed path (gMakeCandidateConfigInternal)
  // ---------------------------------------------------------------------------------------

  /** The loop that fills `path_nodes`: starting from the root "/", each token but the last
      is appended after a separator and the path so far is inserted. */
  method ParentPrefixes(tokens: seq<string>) returns (inserted: seq<string>)
    ensures |inserted| == if tokens == [] then 0 else |tokens| - 1
    ensures forall k :: 0 <= k < |inserted| ==> inserted[k] == Merged(tokens[..k + 1])
  {
    var xpath := [Separator];
    var rest := tokens;
    inserted := [];
    ghost var i := 0;
    while |rest| > 1
      invariant 0 <= i <= |tokens| && rest == tokens[i..]
      invariant tokens != [] ==> i < |tokens|
      invariant xpath == Merged(tokens[..i])
      invariant |inserted| == i
      invariant forall k :: 0 <= k < i ==> inserted[k] == Merged(tokens[..k + 1])
    {
      assert tokens[..i + 1][..i] == tokens[..i];
      if xpath[|xpath| - 1] != Separator {
        xpath := xpath + [Separator];
      }
      xpath := xpath + rest[0];
      rest := rest[1..];
      inserted := inserted + [xpath];
      i := i + 1;
    }
  }

  /** For parsed tokens the inserted prefixes are pairwise different and none is the full
      path: exactly `n - 1` proper prefixes. */
  lemma PrefixesProper(tokens: seq<string>)
    requires AllTokens(tokens)
    ensures forall k, l :: 1 <= k < l <= |tokens| ==> Merged(tokens[..k]) != Merged(tokens[..l])
  {
    forall k, l | 1 <= k < l <= |tokens| ensures Merged(tokens[..k]) != Merged(tokens[..l]) {
      PrefixesDiffer(tokens, k, l);
    }
  }

  lemma PrefixesDiffer(tokens: seq<string>, k: nat, l: nat)
    requires AllTokens(tokens) && k < l <= |tokens|
    ensures Merged(tokens[..k]) != Merged(tokens[..l])
  {
    PrefixTokens(tokens, k);
    PrefixTokens(tokens, l);
    assert |tokens[..k]| == k && |tokens[..l]| == l;
    assert Tokens(Merged(tokens[..k])) != Tokens(Merged(tokens[..l]));
  }

  lemma PrefixTokens(tokens: seq<string>, k: nat)
    requires AllTokens(tokens) && k <= |tokens|
    ensures Tokens(Merged(tokens[..k])) == tokens[..k]
  {
    assert AllTokens(tokens[..k]) by {
      forall i | 0 <= i < k ensures IsToken(tokens[..k][i]) { assert tokens[..k][i] == tokens[i]; }
    }
    MergeRoundTrip(tokens[..k]);
  }

  // ---------------------------------------------------------------------------------------
  // Candidate / running state machine
  // ---------------------------------------------------------------------------------------

  /** A JSON document held by `RunningJsonConfig` or `CandidateJsonConfig`. */
  datatype Document = NullDoc | Doc(text: string)

  /** What `gMakeCandidateConfigInternal` produced: success, the reference table it edited
      in place, and the patched document. */
  datatype Build = Build(ok: bool, refs: RefTable, doc: Document)

  /** How writing the candidate to the configuration file went. A failure to remove the
      temporary file only warns, so it counts as `Written`. */
  datatype FileWrite = OpenFailed | WriteFailed | RenameFailed | Written

  class Manager {
    var running: Nodes.Node?
    var candidate: Nodes.Node?
    var ready: bool
    var runningRefs: RefTable
    var candidateRefs: RefTable
    var runningDoc: Document
    var candidateDoc: Document

    /** A ready candidate exists. */
    ghost predicate Valid()
      reads this
    {
      ready ==> candidate != null
    }

    constructor (running: Nodes.Node?, runningDoc: Document)
      ensures Valid() && !ready && candidate == null
      ensures this.running == running && this.runningDoc == runningDoc
      ensures runningRefs == map[] && candidateRefs == map[] && candidateDoc == NullDoc
    {
      this.running := running;
      this.runningDoc := runningDoc;
      candidate := null;
      ready := false;
      runningRefs := map[];
      candidateRefs := map[];
      candidateDoc := NullDoc;
    }

    /** `makeCandidateConfig`: `patchInvalid` is what `ValidatePatch` answers (true means
        invalid), `build` the internal patching and `reloaded` the reloaded tree. An invalid
        patch changes nothing; a failed build has already edited the candidate table. */
    method MakeCandidateConfig(patchInvalid: bool, build: Build, reloaded: Nodes.Node?) returns (ok: bool)
      requires Valid()
      modifies this
      ensures Valid()
      ensures ok <==> !patchInvalid && build.ok && reloaded != null
      ensures patchInvalid ==> unchanged(this)
      ensures !patchInvalid && !ok ==>
        candidateRefs == build.refs && running == old(running) && candidate == old(candidate)
        && ready == old(ready) && runningRefs == old(runningRefs)
        && runningDoc == old(runningDoc) && candidateDoc == old(candidateDoc)
      ensures ok ==>
        candidate == reloaded && ready && candidateRefs == build.refs && runningRefs == build.refs
        && candidateDoc == build.doc && running == old(running) && runningDoc == old(runningDoc)
    {
      if patchInvalid {
        return false;
      }
      candidateRefs := build.refs;
      if !build.ok {
        return false;
      }
      if reloaded == null {
        return false;
      }
      candidate := reloaded;
      runningRefs := candidateRefs;
      candidateDoc := build.doc;
      ready := true;
      ok := true;
    }

    /** `applyCandidateConfig`: without a ready candidate, or when the file cannot be
        written, nothing changes; otherwise the candidate becomes the running
        configuration and the candidate is cleared. */
    method ApplyCandidateConfig(write: FileWrite) returns (ok: bool)
      requires Valid()
      modifies this
      ensures Valid()
      ensures ok <==> old(ready) && write == Written
      ensures !ok ==> unchanged(this)
      ensures ok ==>
        running == old(candidate) && running != null && runningDoc == old(candidateDoc)
        && candidate == null && candidateDoc == NullDoc && !ready
        && runningRefs == old(runningRefs) && candidateRefs == old(candidateRefs)
    {
      if !ready {
        return false;
      }
      if write != Written {
        return false;
      }
      running := candidate;
      runningDoc := candidateDoc;
      candidate := null;
      candidateDoc := NullDoc;
      ready := false;
      ok := true;
    }

    /** `cancelCandidateConfig`: `valid` is whether the restored document validates and
        `build` the internal patching back to the running document. Without a ready
        candidate, or on any failure, the state is as before (the candidate table is
        restored from its copy); on success the candidate is dropped. */
    method CancelCandidateConfig(valid: bool, build: Build) returns (ok: bool)
      requires Valid()
      modifies this
      ensures Valid()
      ensures ok <==> old(ready) && valid && build.ok
      ensures !ok ==> unchanged(this)
      ensures ok ==>
        candidate == null && candidateDoc == NullDoc && !ready && candidateRefs == build.refs
        && running == old(running) && runningDoc == old(runningDoc) && runningRefs == old(runningRefs)
    {
      if !ready {
        return false;
      }
      if !valid {
        return false;
      }
      var copy := candidateRefs;
      candidateRefs := build.refs;
      if !build.ok {
        candidateRefs := copy;
        return false;
      }
      candidate := null;
      candidateDoc := NullDoc;
      ready := false;
      ok := true;
    }

    /** `saveXPathReference` on the candidate table. */
    method SaveReferences(ordered: seq<string>, sources: string -> Option<Source>,
                          evaluated: (string, string) -> string, present: string -> bool) returns (ok: bool)
      modifies this`candidateRefs
      ensures ok && SavedFrom(old(candidateRefs), candidateRefs, ordered, sources, evaluated, present)
    {
      ok, candidateRefs := SaveXPathReference(ordered, candidateRefs, sources, evaluated, present);
    }

    /** `removeXPathReference` on the candidate table. */
    method RemoveReferences(ordered: seq<string>) returns (ok: bool)
      modifies this`candidateRefs
      ensures ok <==> !StillReferenced(old(candidateRefs), ordered)
      ensures candidateRefs == if ok then Stripped(old(candidateRefs), ordered) else old(candidateRefs)
    {
      ok, candidateRefs := RemoveXPathReference(ordered, candidateRefs);
    }
  }
}
