/**
  Resolution of parsed symbol relations to stored symbols
  (backend/app/workers/task_worker.py, `process_next`).
 */
module RelationResolution {
  import opened Wrappers
  import opened Json

  type SymbolId = nat

  datatype SymbolType = Class | Interface | Enumeration | Method | FieldSymbol | Dto | Exception | Repository | Mapper

  datatype RelationType = Calls | References | Throws | UsesDto

  datatype Symbol = Symbol(id: SymbolId, name: string, qualifiedName: string, kind: SymbolType)

  datatype Relation = Relation(source: string, target: string, kind: RelationType, metadata: Fields)

  /** `relation_key`. */
  datatype Edge = Edge(source: SymbolId, target: SymbolId, kind: RelationType)

  datatype SymbolRelation = SymbolRelation(edge: Edge, metadata: Fields)

  // ------------------------------------------------------------- what a relation means

  predicate IsType(s: Symbol) { s.kind != FieldSymbol && s.kind != Method }

  predicate KindFits(relation: RelationType, target: SymbolType) {
    (relation == UsesDto ==> target == Dto) && (relation == Throws ==> target == Exception)
  }

  /** The last symbol stored under a qualified name. */
  ghost predicate IsSource(symbols: seq<Symbol>, name: string, s: Symbol) {
    exists i :: 0 <= i < |symbols| && symbols[i] == s && s.qualifiedName == name &&
      forall j :: i < j < |symbols| ==> symbols[j].qualifiedName != name
  }

  /** The only symbol with a name that is neither a field nor a method. */
  ghost predicate IsTarget(symbols: seq<Symbol>, name: string, s: Symbol) {
    exists i :: 0 <= i < |symbols| && symbols[i] == s && IsType(s) && s.name == name &&
      forall j :: 0 <= j < |symbols| && j != i && IsType(symbols[j]) ==> symbols[j].name != name
  }

  /** The relation stands for the edge. */
  ghost predicate Resolves(symbols: seq<Symbol>, relation: Relation, edge: Edge) {
    && edge.kind == relation.kind && edge.source != edge.target
    && exists source, target ::
      && IsSource(symbols, relation.source, source) && edge.source == source.id
      && IsTarget(symbols, relation.target, target) && edge.target == target.id
      && KindFits(relation.kind, target.kind)
  }

  // ------------------------------------------------------------------ the dictionaries

  /** `symbols_by_qualified_name`. */
  function ByQualifiedName(symbols: seq<Symbol>): map<string, Symbol> {
    if symbols == [] then map[]
    else
      var n := |symbols| - 1;
      ByQualifiedName(symbols[..n])[symbols[n].qualifiedName := symbols[n]]
  }

  /** `symbols_by_name.get(name, [])`. */
  function Candidates(symbols: seq<Symbol>, name: string): seq<Symbol> {
    if symbols == [] then []
    else
      var n := |symbols| - 1;
      Candidates(symbols[..n], name) + if IsType(symbols[n]) && symbols[n].name == name then [symbols[n]] else []
  }

  lemma {:induction false} SourceFound(symbols: seq<Symbol>, name: string, s: Symbol)
    ensures name in ByQualifiedName(symbols) && ByQualifiedName(symbols)[name] == s <==> IsSource(symbols, name, s)
  {
    if symbols != [] {
      var n := |symbols| - 1;
      var earlier := symbols[..n];
      SourceFound(earlier, name, s);
      if symbols[n].qualifiedName == name {
        if symbols[n] == s {
          assert symbols[n] == s && s.qualifiedName == name;
        }
      } else {
        if IsSource(earlier, name, s) {
          var i :| 0 <= i < n && earlier[i] == s && s.qualifiedName == name &&
            forall j :: i < j < n ==> earlier[j].qualifiedName != name;
          assert symbols[i] == s;
          forall j | i < j < |symbols| ensures symbols[j].qualifiedName != name {
            assert j < n ==> symbols[j] == earlier[j];
          }
        }
        if IsSource(symbols, name, s) {
          var i :| 0 <= i < |symbols| && symbols[i] == s && s.qualifiedName == name &&
            forall j :: i < j < |symbols| ==> symbols[j].qualifiedName != name;
          assert earlier[i] == s;
          forall j | i < j < n ensures earlier[j].qualifiedName != name {
            assert symbols[j] == earlier[j];
          }
        }
      }
    }
  }

  predicate IsCandidate(symbols: seq<Symbol>, name: string, i: int) {
    0 <= i < |symbols| && symbols[i].kind !in {FieldSymbol, Method} && symbols[i].name == name
  }

  /** How many candidates there are: none, exactly one, or at least two. */
  lemma {:induction false} CandidatesCount(symbols: seq<Symbol>, name: string)
    ensures Candidates(symbols, name) == [] <==> forall i :: !IsCandidate(symbols, name, i)
    ensures |Candidates(symbols, name)| == 1 ==>
              exists i :: IsCandidate(symbols, name, i) && symbols[i] == Candidates(symbols, name)[0] &&
                forall j :: IsCandidate(symbols, name, j) ==> j == i
    ensures |Candidates(symbols, name)| > 1 ==>
              exists i, j :: i < j && IsCandidate(symbols, name, i) && IsCandidate(symbols, name, j)
  {
    if symbols != [] {
      var n := |symbols| - 1;
      var earlier := symbols[..n];
      CandidatesCount(earlier, name);
      forall i ensures IsCandidate(symbols, name, i) <==> IsCandidate(earlier, name, i) || (i == n && IsCandidate(symbols, name, n)) {
      }
      assert IsCandidate(symbols, name, n) <==> IsType(symbols[n]) && symbols[n].name == name;
      assert forall i :: IsCandidate(earlier, name, i) ==> earlier[i] == symbols[i];
      if |Candidates(earlier, name)| == 1 {
        var i :| IsCandidate(earlier, name, i) && symbols[i] == Candidates(earlier, name)[0] &&
          forall j :: IsCandidate(earlier, name, j) ==> j == i;
        assert IsCandidate(symbols, name, i);
      }
      hide IsCandidate;
    }
  }

  lemma TargetFound(symbols: seq<Symbol>, name: string, s: Symbol)
    ensures |Candidates(symbols, name)| == 1 && Candidates(symbols, name)[0] == s <==> IsTarget(symbols, name, s)
  {
    CandidatesCount(symbols, name);
    hide Candidates;
    if IsTarget(symbols, name, s) {
      var i :| 0 <= i < |symbols| && symbols[i] == s && IsType(s) && s.name == name &&
        forall j :: 0 <= j < |symbols| && j != i && IsType(symbols[j]) ==> symbols[j].name != name;
      assert IsCandidate(symbols, name, i);
    }
    if |Candidates(symbols, name)| == 1 && Candidates(symbols, name)[0] == s {
      var i :| IsCandidate(symbols, name, i) && symbols[i] == s && forall j :: IsCandidate(symbols, name, j) ==> j == i;
      assert forall j :: 0 <= j < |symbols| && j != i && IsType(symbols[j]) ==> !IsCandidate(symbols, name, j);
    }
  }

  /** The edge the loop body works out for one relation. */
  function EdgeOf(symbols: seq<Symbol>, relation: Relation): Option<Edge> {
    var sources, candidates := ByQualifiedName(symbols), Candidates(symbols, relation.target);
    if relation.source !in sources || |candidates| != 1 then None
    else
      var source, target := sources[relation.source], candidates[0];
      if !KindFits(relation.kind, target.kind) || source.id == target.id then None
      else Some(Edge(source.id, target.id, relation.kind))
  }

  /** The loop body finds the edge the relation stands for, and skips exactly those without one. */
  lemma EdgeExact(symbols: seq<Symbol>, relation: Relation, edge: Edge)
    ensures EdgeOf(symbols, relation) == Some(edge) <==> Resolves(symbols, relation, edge)
  {
    hide ByQualifiedName, Candidates, IsSource, IsTarget, KindFits;
    var sources, candidates := ByQualifiedName(symbols), Candidates(symbols, relation.target);
    if relation.source in sources {
      SourceFound(symbols, relation.source, sources[relation.source]);
    }
    if |candidates| == 1 {
      TargetFound(symbols, relation.target, candidates[0]);
    }
    if Resolves(symbols, relation, edge) {
      var source, target :|
        && IsSource(symbols, relation.source, source) && edge.source == source.id
        && IsTarget(symbols, relation.target, target) && edge.target == target.id
        && KindFits(relation.kind, target.kind);
      SourceFound(symbols, relation.source, source);
      TargetFound(symbols, relation.target, target);
    }
  }

  // ------------------------------------------------------------------------- the loops

  /** The loop that fills `symbols_by_name`. */
  method GroupByName(symbols: seq<Symbol>) returns (byName: map<string, seq<Symbol>>)
    ensures forall name :: (if name in byName then byName[name] else []) == Candidates(symbols, name)
  {
    byName := map[];
    for i := 0 to |symbols|
      invariant forall name :: (if name in byName then byName[name] else []) == Candidates(symbols[..i], name)
    {
      var s := symbols[i];
      assert symbols[..i + 1][..i] == symbols[..i];
      if IsType(s) {
        byName := byName[s.name := (if s.name in byName then byName[s.name] else []) + [s]];
      }
    }
    assert symbols[..|symbols|] == symbols;
  }

  method IndexByQualifiedName(symbols: seq<Symbol>) returns (index: map<string, Symbol>)
    ensures index == ByQualifiedName(symbols)
  {
    index := map[];
    for i := 0 to |symbols|
      invariant index == ByQualifiedName(symbols[..i])
    {
      assert symbols[..i + 1][..i] == symbols[..i];
      index := index[symbols[i].qualifiedName := symbols[i]];
    }
    assert symbols[..|symbols|] == symbols;
  }

  /** The first relation that resolves to an edge decides the metadata stored with it. */
  ghost predicate FirstWith(symbols: seq<Symbol>, relations: seq<Relation>, r: SymbolRelation) {
    exists k :: 0 <= k < |relations| && Resolves(symbols, relations[k], r.edge) && relations[k].metadata == r.metadata &&
      forall m :: 0 <= m < k ==> !Resolves(symbols, relations[m], r.edge)
  }

  predicate Stored(found: seq<SymbolRelation>, edge: Edge) {
    exists i :: 0 <= i < |found| && found[i].edge == edge
  }

  ghost predicate NoDuplicates(found: seq<SymbolRelation>) {
    forall i, j :: 0 <= i < j < |found| ==> found[i].edge != found[j].edge
  }

  ghost predicate AllFirst(symbols: seq<Symbol>, relations: seq<Relation>, found: seq<SymbolRelation>) {
    forall i :: 0 <= i < |found| ==> FirstWith(symbols, relations, found[i])
  }

  /** Every relation that stands for an edge has it stored. */
  ghost predicate Covered(symbols: seq<Symbol>, relations: seq<Relation>, found: seq<SymbolRelation>) {
    forall k, edge :: 0 <= k < |relations| && Resolves(symbols, relations[k], edge) ==> Stored(found, edge)
  }

  /** What the resolved relations owe to the parsed ones. */
  ghost predicate Resolved(symbols: seq<Symbol>, relations: seq<Relation>, found: seq<SymbolRelation>) {
    NoDuplicates(found) && AllFirst(symbols, relations, found) && Covered(symbols, relations, found)
  }

  lemma FirstWithLonger(symbols: seq<Symbol>, relations: seq<Relation>, next: Relation, r: SymbolRelation)
    requires FirstWith(symbols, relations, r)
    ensures FirstWith(symbols, relations + [next], r)
  {
    hide Resolves;
    var k :| 0 <= k < |relations| && Resolves(symbols, relations[k], r.edge) && relations[k].metadata == r.metadata &&
      forall m :: 0 <= m < k ==> !Resolves(symbols, relations[m], r.edge);
    assert (relations + [next])[k] == relations[k];
    assert forall m :: 0 <= m < k ==> (relations + [next])[m] == relations[m];
  }

  lemma FirstWithNew(symbols: seq<Symbol>, relations: seq<Relation>, next: Relation, edge: Edge, found: seq<SymbolRelation>)
    requires Covered(symbols, relations, found) && Resolves(symbols, next, edge) && !Stored(found, edge)
    ensures FirstWith(symbols, relations + [next], SymbolRelation(edge, next.metadata))
  {
    hide Resolves, Stored;
    var k := |relations|;
    assert (relations + [next])[k] == next;
    assert forall m :: 0 <= m < k ==> (relations + [next])[m] == relations[m];
  }

  /** What the loop body does to the relations found so far. */
  function Store(symbols: seq<Symbol>, next: Relation, found: seq<SymbolRelation>): seq<SymbolRelation> {
    var e := EdgeOf(symbols, next);
    if e.None? || Stored(found, e.value) then found else found + [SymbolRelation(e.value, next.metadata)]
  }

  lemma StoreFacts(symbols: seq<Symbol>, next: Relation, found: seq<SymbolRelation>)
    ensures var after := Store(symbols, next, found);
            && (NoDuplicates(found) ==> NoDuplicates(after))
            && (forall edge :: Stored(found, edge) ==> Stored(after, edge))
            && (forall edge :: Resolves(symbols, next, edge) ==> Stored(after, edge))
  {
    forall edge ensures Resolves(symbols, next, edge) <==> EdgeOf(symbols, next) == Some(edge) {
      EdgeExact(symbols, next, edge);
    }
    hide EdgeOf, Resolves;
    var after := Store(symbols, next, found);
    assert after[..|found|] == found;
    forall edge | Stored(found, edge) ensures Stored(after, edge) {
      var i :| 0 <= i < |found| && found[i].edge == edge;
      assert after[i].edge == edge;
    }
    assert |after| > |found| ==> after[|found|].edge == EdgeOf(symbols, next).value;
  }

  /** One more relation, skipped or stored. */
  lemma ResolvedNext(symbols: seq<Symbol>, relations: seq<Relation>, next: Relation, found: seq<SymbolRelation>)
    requires Resolved(symbols, relations, found)
    ensures Resolved(symbols, relations + [next], Store(symbols, next, found))
  {
    StoreFacts(symbols, next, found);
    var after, e := Store(symbols, next, found), EdgeOf(symbols, next);
    if e.Some? {
      EdgeExact(symbols, next, e.value);
    }
    hide EdgeOf, Resolves, Stored, NoDuplicates;
    forall i | 0 <= i < |after| ensures FirstWith(symbols, relations + [next], after[i]) {
      if i < |found| {
        FirstWithLonger(symbols, relations, next, found[i]);
      } else {
        FirstWithNew(symbols, relations, next, e.value, found);
      }
    }
    hide FirstWith, Store;
    assert Covered(symbols, relations + [next], after) by {
      forall k, edge | 0 <= k < |relations + [next]| && Resolves(symbols, (relations + [next])[k], edge)
        ensures Stored(after, edge)
      {
        assert k < |relations| ==> (relations + [next])[k] == relations[k];
      }
    }
  }

  /** No self-loop, and the end is the only symbol of its name, of the kind some relation asks for. */
  ghost predicate IsSound(symbols: seq<Symbol>, relations: seq<Relation>, edge: Edge) {
    && edge.source != edge.target
    && exists k, target :: 0 <= k < |relations| && relations[k].kind == edge.kind
         && IsTarget(symbols, relations[k].target, target) && target.id == edge.target
         && KindFits(relations[k].kind, target.kind)
  }

  lemma EdgesAreSound(symbols: seq<Symbol>, relations: seq<Relation>, found: seq<SymbolRelation>, i: nat)
    requires Resolved(symbols, relations, found) && i < |found|
    ensures IsSound(symbols, relations, found[i].edge)
  {
    hide IsTarget, IsSource, KindFits;
    assert FirstWith(symbols, relations, found[i]);
    var k :| 0 <= k < |relations| && Resolves(symbols, relations[k], found[i].edge) && relations[k].metadata == found[i].metadata &&
      forall m :: 0 <= m < k ==> !Resolves(symbols, relations[m], found[i].edge);
    assert Resolves(symbols, relations[k], found[i].edge);
  }

  /**
    The relation loop: edges are pairwise distinct and without self-loops, each one is
    what some parsed relation stands for, and every relation that stands for an edge
    contributes it exactly once.
   */
  method ResolveRelations(symbols: seq<Symbol>, relations: seq<Relation>) returns (found: seq<SymbolRelation>)
    ensures Resolved(symbols, relations, found)
    ensures forall i :: 0 <= i < |found| ==> IsSound(symbols, relations, found[i].edge)
  {
    NothingResolved(symbols);
    hide Resolved, ByQualifiedName, Candidates, Stored, IsType, Resolves, IsSource, IsTarget, FirstWith, IsSound;
    var sources := IndexByQualifiedName(symbols);
    var byName := GroupByName(symbols);
    found := [];
    assert relations[..0] == [];
    var keys: set<Edge> := {};
    for k := 0 to |relations|
      invariant Resolved(symbols, relations[..k], found)
      invariant forall edge :: edge in keys <==> Stored(found, edge)
    {
      var relation := relations[k];
      ResolvedNext(symbols, relations[..k], relation, found);
      assert relations[..k + 1] == relations[..k] + [relation];
      var candidates := if relation.target in byName then byName[relation.target] else [];
      assert candidates == Candidates(symbols, relation.target);
      if relation.source !in sources || |candidates| != 1 {
        continue;
      }
      var source, target := sources[relation.source], candidates[0];
      if relation.kind == UsesDto && target.kind != Dto {
        continue;
      }
      if relation.kind == Throws && target.kind != Exception {
        continue;
      }
      var key := Edge(source.id, target.id, relation.kind);
      if source.id == target.id || key in keys {
        continue;
      }
      StoredOneMore(found, SymbolRelation(key, relation.metadata));
      keys := keys + {key};
      found := found + [SymbolRelation(key, relation.metadata)];
    }
    assert relations[..|relations|] == relations;
    forall i | 0 <= i < |found| ensures IsSound(symbols, relations, found[i].edge) {
      EdgesAreSound(symbols, relations, found, i);
    }
  }

  lemma NothingResolved(symbols: seq<Symbol>)
    ensures Resolved(symbols, [], []) && forall edge :: !Stored([], edge)
  {
  }

  lemma StoredOneMore(found: seq<SymbolRelation>, r: SymbolRelation)
    ensures forall edge :: Stored(found + [r], edge) <==> Stored(found, edge) || edge == r.edge
  {
    assert (found + [r])[|found|] == r;
    forall edge | Stored(found, edge) ensures Stored(found + [r], edge) {
      var i :| 0 <= i < |found| && found[i].edge == edge;
      assert (found + [r])[i].edge == edge;
    }
  }
}
