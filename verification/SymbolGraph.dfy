/**
  Bounded expansion over the symbol graph
  (backend/app/modules/knowledge/exact_retrieval.py, `_expand_symbol_ids`).
 */
module SymbolGraph {
  import opened Wrappers

  type SymbolId = nat

  datatype Symbol = Symbol(id: SymbolId, parent: Option<SymbolId>)

  datatype Relation = Relation(source: SymbolId, target: SymbolId)

  const MAX_RELATION_DEPTH := 2

  /** `parent_by_id.get(id)`: the last symbol listed with the id decides. */
  function ParentOf(symbols: seq<Symbol>, id: SymbolId): Option<SymbolId> {
    if symbols == [] then None
    else
      var last := |symbols| - 1;
      if symbols[last].id == id then symbols[last].parent else ParentOf(symbols[..last], id)
  }

  /** The seeds and their parents. */
  function Roots(seeds: set<SymbolId>, symbols: seq<Symbol>): set<SymbolId> {
    seeds + set s | s in seeds && ParentOf(symbols, s).Some? :: ParentOf(symbols, s).value
  }

  // ------------------------------------------------------------ the declarative ball

  /** Relations are followed in both directions. */
  predicate Linked(relations: seq<Relation>, a: SymbolId, b: SymbolId) {
    Relation(a, b) in relations || Relation(b, a) in relations
  }

  /** A walk along relations; its length is one less than its number of symbols. */
  ghost predicate IsWalk(relations: seq<Relation>, walk: seq<SymbolId>) {
    walk != [] && forall i :: 0 <= i < |walk| - 1 ==> Linked(relations, walk[i], walk[i + 1])
  }

  /** Some walk of at most d relations leads from a root to x. */
  ghost predicate Within(relations: seq<Relation>, roots: set<SymbolId>, d: nat, x: SymbolId) {
    exists walk :: IsWalk(relations, walk) && walk[0] in roots && walk[|walk| - 1] == x && |walk| <= d + 1
  }

  /** What one round adds: unseen symbols across one relation from the frontier. */
  function Added(relations: seq<Relation>, frontier: set<SymbolId>, selected: set<SymbolId>): set<SymbolId> {
    if relations == [] then {}
    else
      var n := |relations| - 1;
      var r := relations[n];
      Added(relations[..n], frontier, selected)
      + (if r.source in frontier && r.target !in selected then {r.target} else {})
      + (if r.target in frontier && r.source !in selected then {r.source} else {})
  }

  lemma {:induction false} AddedExact(relations: seq<Relation>, frontier: set<SymbolId>, selected: set<SymbolId>, x: SymbolId)
    ensures x in Added(relations, frontier, selected) <==>
            x !in selected && exists f :: f in frontier && Linked(relations, f, x)
  {
    if relations != [] {
      var n := |relations| - 1;
      var r := relations[n];
      AddedExact(relations[..n], frontier, selected, x);
      assert relations == relations[..n] + [r];
      forall f ensures Linked(relations, f, x) <==> Linked(relations[..n], f, x) || r == Relation(f, x) || r == Relation(x, f) {
      }
      if x !in selected && r.source in frontier && r.target == x {
        assert Linked(relations, r.source, x);
      }
      if x !in selected && r.target in frontier && r.source == x {
        assert Linked(relations, r.target, x);
      }
    }
  }

  // ----------------------------------------------------------------- the invariant

  /** `selected` is the ball of radius d, and `frontier` holds all symbols it did not hold at radius d - 1. */
  ghost predicate Ball(relations: seq<Relation>, roots: set<SymbolId>, d: nat, selected: set<SymbolId>) {
    forall x :: x in selected <==> Within(relations, roots, d, x)
  }

  /** Symbols of the ball that are not in the frontier have all their neighbours in the ball. */
  ghost predicate Explored(relations: seq<Relation>, selected: set<SymbolId>, frontier: set<SymbolId>) {
    frontier <= selected &&
    forall a, b :: a in selected && a !in frontier && Linked(relations, a, b) ==> b in selected
  }

  lemma BallZero(relations: seq<Relation>, roots: set<SymbolId>)
    ensures Ball(relations, roots, 0, roots)
  {
    forall x | x in roots ensures Within(relations, roots, 0, x) {
      assert IsWalk(relations, [x]) && [x][0] in roots;
    }
  }

  /** Being within d + 1 is being within d, or one relation away from something within d. */
  lemma WithinNext(relations: seq<Relation>, roots: set<SymbolId>, d: nat, x: SymbolId)
    ensures Within(relations, roots, d + 1, x) <==>
            Within(relations, roots, d, x) || exists a :: Within(relations, roots, d, a) && Linked(relations, a, x)
  {
    if Within(relations, roots, d + 1, x) {
      var walk :| IsWalk(relations, walk) && walk[0] in roots && walk[|walk| - 1] == x && |walk| <= d + 2;
      if |walk| == d + 2 {
        var front := walk[..d + 1];
        assert IsWalk(relations, front) && front[0] in roots && front[|front| - 1] == walk[d];
        assert Within(relations, roots, d, walk[d]) && Linked(relations, walk[d], walk[d + 1]);
      }
    }
    if a :| Within(relations, roots, d, a) && Linked(relations, a, x) {
      var walk :| IsWalk(relations, walk) && walk[0] in roots && walk[|walk| - 1] == a && |walk| <= d + 1;
      var longer := walk + [x];
      forall i | 0 <= i < |longer| - 1 ensures Linked(relations, longer[i], longer[i + 1]) {
        if i < |walk| - 1 {
          assert longer[i] == walk[i] && longer[i + 1] == walk[i + 1];
        }
      }
      assert IsWalk(relations, longer) && longer[0] in roots && longer[|longer| - 1] == x;
    }
  }

  /** One round turns the ball of radius d into the ball of radius d + 1. */
  lemma {:induction false} BallNext(relations: seq<Relation>, roots: set<SymbolId>, d: nat, selected: set<SymbolId>, frontier: set<SymbolId>)
    requires Ball(relations, roots, d, selected) && Explored(relations, selected, frontier)
    ensures var added := Added(relations, frontier, selected);
            Ball(relations, roots, d + 1, selected + added) && Explored(relations, selected + added, added)
  {
    hide Within, Linked, Added;
    var added := Added(relations, frontier, selected);
    forall x
      ensures x in added <==> x !in selected && exists f :: f in frontier && Linked(relations, f, x)
      ensures Within(relations, roots, d + 1, x) <==>
              Within(relations, roots, d, x) || exists a :: Within(relations, roots, d, a) && Linked(relations, a, x)
    {
      AddedExact(relations, frontier, selected, x);
      WithinNext(relations, roots, d, x);
    }
  }

  /** Once a round adds nothing, no larger radius adds anything: the early exit is sound. */
  lemma {:induction false} BallStable(relations: seq<Relation>, roots: set<SymbolId>, d: nat, e: nat,
                                      selected: set<SymbolId>)
    requires d <= e && Ball(relations, roots, d, selected) && Explored(relations, selected, {})
    ensures Ball(relations, roots, e, selected)
    decreases e - d
  {
    if d < e {
      BallNext(relations, roots, d, selected, {});
      assert Added(relations, {}, selected) == {} by {
        forall x ensures x !in Added(relations, {}, selected) {
          AddedExact(relations, {}, selected, x);
        }
      }
      assert selected + {} == selected;
      BallStable(relations, roots, d + 1, e, selected);
    }
  }

  // ------------------------------------------------------------------- the method

  /**
    `_expand_symbol_ids`, for any depth: the result holds exactly the symbols within
    that many relations of a seed or of a seed's parent.
   */
  method ExpandSymbolIds(seeds: set<SymbolId>, symbols: seq<Symbol>, relations: seq<Relation>, depth: nat)
    returns (selected: set<SymbolId>)
    ensures Ball(relations, Roots(seeds, symbols), depth, selected)
  {
    hide Within, Added, ParentOf;
    selected := AddParents(seeds, symbols);
    ghost var roots := selected;
    var frontier := selected;
    BallZero(relations, roots);
    for d := 0 to depth
      invariant Ball(relations, roots, d, selected) && Explored(relations, selected, frontier)
    {
      var next := NextFrontier(relations, frontier, selected);
      BallNext(relations, roots, d, selected, frontier);
      if next == {} {
        assert selected + next == selected;
        BallStable(relations, roots, d + 1, depth, selected);
        return;
      }
      selected := selected + next;
      frontier := next;
    }
  }

  /** The dictionary of parents. */
  method ParentById(symbols: seq<Symbol>) returns (parents: map<SymbolId, Option<SymbolId>>)
    ensures forall id :: ParentOf(symbols, id) == if id in parents then parents[id] else None
  {
    parents := map[];
    for i := 0 to |symbols|
      invariant forall id :: ParentOf(symbols[..i], id) == if id in parents then parents[id] else None
    {
      assert symbols[..i + 1][..i] == symbols[..i];
      parents := parents[symbols[i].id := symbols[i].parent];
    }
    assert symbols[..|symbols|] == symbols;
  }

  /** x is the parent of one of the given symbols. */
  ghost predicate ParentAmong(part: set<SymbolId>, symbols: seq<Symbol>, x: SymbolId) {
    exists s :: s in part && ParentOf(symbols, s) == Some(x)
  }

  /** The parents of the seeds join the selection. */
  method AddParents(seeds: set<SymbolId>, symbols: seq<Symbol>) returns (selected: set<SymbolId>)
    ensures selected == Roots(seeds, symbols)
  {
    hide ParentOf;
    var parents := ParentById(symbols);
    selected := seeds;
    var todo := seeds;
    while todo != {}
      invariant todo <= seeds
      invariant forall x: SymbolId :: x in selected <==> x in seeds || ParentAmong(seeds - todo, symbols, x)
      decreases |todo|
    {
      var s :| s in todo;
      ghost var parent := ParentOf(symbols, s);
      assert parent == if s in parents then parents[s] else None;
      assert forall x: SymbolId :: ParentAmong(seeds - (todo - {s}), symbols, x) <==>
                         ParentAmong(seeds - todo, symbols, x) || parent == Some(x);
      if s in parents && parents[s].Some? {
        selected := selected + {parents[s].value};
      }
      todo := todo - {s};
    }
    assert seeds - {} == seeds;
  }

  /** The inner loop over the relations. */
  method NextFrontier(relations: seq<Relation>, frontier: set<SymbolId>, selected: set<SymbolId>)
    returns (next: set<SymbolId>)
    ensures next == Added(relations, frontier, selected)
  {
    next := {};
    for i := 0 to |relations|
      invariant next == Added(relations[..i], frontier, selected)
    {
      assert relations[..i + 1][..i] == relations[..i];
      var r := relations[i];
      if r.source in frontier && r.target !in selected {
        next := next + {r.target};
      }
      if r.target in frontier && r.source !in selected {
        next := next + {r.source};
      }
    }
    assert relations[..|relations|] == relations;
  }
}
