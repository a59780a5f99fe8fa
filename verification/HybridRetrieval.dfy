/**
  Merging exact and vector hits, ranking them and cutting them to the context budget
  (backend/app/modules/knowledge/hybrid_retrieval.py).
 */
module HybridRetrieval {
  import opened Wrappers
  import opened Sorting

  /** Chunk identifiers; their text forms have one length, so text order is number order. */
  type ChunkId = nat

  datatype Chunk = Chunk(id: ChunkId, symbol: Option<nat>, startLine: nat, content: string)

  datatype Candidate = Candidate(chunk: Chunk, distance: real)

  datatype Origin = Exact | Vector

  /** The symbols of the selected API definition. */
  datatype Api = Api(controller: Option<nat>, handler: Option<nat>)

  // -------------------------------------------------------------------------- scores

  function ExactScore(api: Api, chunk: Chunk): (score: real)
    ensures 0.85 <= score <= 1.0
  {
    if chunk.symbol == api.handler then 1.0 else if chunk.symbol == api.controller then 0.95 else 0.85
  }

  function Max(x: real, y: real): real { if x >= y then x else y }

  function VectorScore(distance: real): real { Max(0.0, 1.0 - distance) * 0.8 }

  predicate InExact(exact: seq<Chunk>, id: ChunkId) { exists i :: 0 <= i < |exact| && exact[i].id == id }

  predicate InVector(candidates: seq<Candidate>, id: ChunkId) {
    exists i :: 0 <= i < |candidates| && candidates[i].chunk.id == id
  }

  /** The exact score of an identifier: the last exact chunk with it decides, zero without any. */
  function ExactBase(api: Api, exact: seq<Chunk>, id: ChunkId): real {
    if exact == [] then 0.0
    else
      var n := |exact| - 1;
      if exact[n].id == id then ExactScore(api, exact[n]) else ExactBase(api, exact[..n], id)
  }

  /** The largest of the exact score and the scores of the candidates with the identifier. */
  function Best(base: real, candidates: seq<Candidate>, id: ChunkId): real {
    if candidates == [] then base
    else
      var n := |candidates| - 1;
      var earlier := Best(base, candidates[..n], id);
      if candidates[n].chunk.id == id then Max(earlier, VectorScore(candidates[n].distance)) else earlier
  }

  lemma {:induction false} BestIsMaximum(base: real, candidates: seq<Candidate>, id: ChunkId)
    ensures base <= Best(base, candidates, id)
    ensures forall k :: 0 <= k < |candidates| && candidates[k].chunk.id == id ==>
              VectorScore(candidates[k].distance) <= Best(base, candidates, id)
    ensures Best(base, candidates, id) == base ||
            exists k :: 0 <= k < |candidates| && candidates[k].chunk.id == id && Best(base, candidates, id) == VectorScore(candidates[k].distance)
  {
    if candidates != [] {
      BestIsMaximum(base, candidates[..|candidates| - 1], id);
      hide VectorScore;
    }
  }

  lemma {:induction false} ExactBaseRange(api: Api, exact: seq<Chunk>, id: ChunkId)
    ensures if InExact(exact, id) then 0.85 <= ExactBase(api, exact, id) <= 1.0 else ExactBase(api, exact, id) == 0.0
  {
    if exact != [] {
      var n := |exact| - 1;
      ExactBaseRange(api, exact[..n], id);
      InExactNext(exact, n, id);
      assert exact[..n + 1] == exact;
      hide InExact, ExactScore;
    }
  }

  lemma InExactNext(exact: seq<Chunk>, n: nat, id: ChunkId)
    requires n < |exact|
    ensures InExact(exact[..n + 1], id) <==> InExact(exact[..n], id) || exact[n].id == id
  {
    if InExact(exact[..n], id) {
      var i :| 0 <= i < n && exact[..n][i].id == id;
      assert exact[..n + 1][i].id == id;
    }
    if InExact(exact[..n + 1], id) {
      var i :| 0 <= i < n + 1 && exact[..n + 1][i].id == id;
      assert i < n ==> exact[..n][i].id == id;
    }
    assert exact[..n + 1][n] == exact[n];
  }

  lemma InVectorNext(candidates: seq<Candidate>, n: nat, id: ChunkId)
    requires n < |candidates|
    ensures InVector(candidates[..n + 1], id) <==> InVector(candidates[..n], id) || candidates[n].chunk.id == id
  {
    if InVector(candidates[..n], id) {
      var i :| 0 <= i < n && candidates[..n][i].chunk.id == id;
      assert candidates[..n + 1][i].chunk.id == id;
    }
    if InVector(candidates[..n + 1], id) {
      var i :| 0 <= i < n + 1 && candidates[..n + 1][i].chunk.id == id;
      assert i < n ==> candidates[..n][i].chunk.id == id;
    }
    assert candidates[..n + 1][n] == candidates[n];
  }

  // ---------------------------------------------------------------- the three dictionaries

  /** What the dictionaries say of one identifier. */
  datatype Entry = Entry(chunk: Chunk, score: real, origins: set<Origin>)

  /** The entry an identifier must have after both kinds of hits were added. */
  ghost predicate EntryFits(api: Api, exact: seq<Chunk>, candidates: seq<Candidate>, id: ChunkId, e: Entry) {
    && e.chunk.id == id
    && e.score == Best(ExactBase(api, exact, id), candidates, id)
    && (Exact in e.origins <==> InExact(exact, id))
    && (Vector in e.origins <==> InVector(candidates, id))
  }

  /** `chunks_by_id`, `scores_by_chunk_id` and `sources_by_chunk_id`, keys in order of insertion. */
  class Merge {
    var keys: seq<ChunkId>
    var chunks: map<ChunkId, Chunk>
    var scores: map<ChunkId, real>
    var origins: map<ChunkId, set<Origin>>

    /** The dictionaries have the same keys, each listed once. */
    ghost predicate Valid()
      reads this
    {
      && (forall id :: id in chunks <==> id in scores)
      && (forall id :: id in chunks <==> id in origins)
      && (forall id :: id in chunks <==> id in keys)
      && (forall i, j :: 0 <= i < j < |keys| ==> keys[i] != keys[j])
    }

    function EntryOf(id: ChunkId): Entry
      requires Valid() && id in chunks
      reads this
    {
      Entry(chunks[id], scores[id], origins[id])
    }

    /** Exactly the identifiers hit, with the entries they must have. */
    ghost predicate Reflects(api: Api, exact: seq<Chunk>, candidates: seq<Candidate>)
      requires Valid()
      reads this
    {
      && (forall id :: id in chunks <==> InExact(exact, id) || InVector(candidates, id))
      && (forall id :: id in chunks ==> EntryFits(api, exact, candidates, id, EntryOf(id)))
    }

    constructor ()
      ensures Valid() && chunks == map[]
    {
      keys, chunks, scores, origins := [], map[], map[], map[];
    }

    /** The entry is what one more hit makes of the dictionaries. */
    ghost predicate Accounts(api: Api, exact: seq<Chunk>, candidates: seq<Candidate>, e: Entry)
      requires Valid()
      reads this
    {
      && EntryFits(api, exact, candidates, e.chunk.id, e)
      && (forall id :: id in chunks || id == e.chunk.id <==> InExact(exact, id) || InVector(candidates, id))
      && (forall id :: id in chunks && id != e.chunk.id ==> EntryFits(api, exact, candidates, id, EntryOf(id)))
    }

    /** Writes one entry, keeping the place of a known identifier. */
    method Put(e: Entry)
      requires Valid()
      modifies this
      ensures Valid()
      ensures forall id :: id in chunks <==> id in old(chunks) || id == e.chunk.id
      ensures EntryOf(e.chunk.id) == e
      ensures forall id :: id in old(chunks) && id != e.chunk.id ==> EntryOf(id) == old(EntryOf(id))
    {
      var id := e.chunk.id;
      if id !in chunks {
        keys := keys + [id];
      }
      chunks := chunks[id := e.chunk];
      scores := scores[id := e.score];
      origins := origins[id := e.origins];
    }

    /** Writing the entry of one more hit accounts for that hit. */
    method Record(e: Entry, ghost api: Api, ghost exact: seq<Chunk>, ghost candidates: seq<Candidate>)
      requires Valid() && Accounts(api, exact, candidates, e)
      modifies this
      ensures Valid() && Reflects(api, exact, candidates)
    {
      hide EntryFits, InExact, InVector, Valid, EntryOf;
      Put(e);
    }

    /** `_add_exact_chunks`. */
    method AddExactChunks(api: Api, exact: seq<Chunk>)
      requires Valid() && chunks == map[]
      modifies this
      ensures Valid() && Reflects(api, exact, [])
    {
      for n := 0 to |exact|
        invariant Valid() && Reflects(api, exact[..n], [])
      {
        var chunk := exact[n];
        var known := if chunk.id in origins then origins[chunk.id] else {};
        ReflectsExact(api, exact, n, known);
        hide *;
        Record(Entry(chunk, ExactScore(api, chunk), known + {Exact}), api, exact[..n + 1], []);
      }
      assert exact[..|exact|] == exact;
    }

    lemma ReflectsExact(api: Api, exact: seq<Chunk>, n: nat, known: set<Origin>)
      requires n < |exact| && Valid() && Reflects(api, exact[..n], [])
      requires known == if exact[n].id in origins then origins[exact[n].id] else {}
      ensures Accounts(api, exact[..n + 1], [], Entry(exact[n], ExactScore(api, exact[n]), known + {Exact}))
    {
      forall id ensures InExact(exact[..n + 1], id) <==> InExact(exact[..n], id) || exact[n].id == id {
        InExactNext(exact, n, id);
      }
      assert exact[..n + 1][..n] == exact[..n];
      hide InExact, ExactScore;
    }

    /** The candidate loop of `_add_vector_chunks`. */
    method AddVectorChunks(api: Api, exact: seq<Chunk>, candidates: seq<Candidate>)
      requires Valid() && Reflects(api, exact, [])
      modifies this
      ensures Valid() && Reflects(api, exact, candidates)
    {
      assert candidates[..0] == [];
      for n := 0 to |candidates|
        invariant Valid() && Reflects(api, exact, candidates[..n])
      {
        var (chunk, distance) := (candidates[n].chunk, candidates[n].distance);
        var known := if chunk.id in origins then origins[chunk.id] else {};
        var score := Max(if chunk.id in scores then scores[chunk.id] else 0.0, VectorScore(distance));
        ReflectsVector(api, exact, candidates, n, known, score);
        hide *;
        Record(Entry(chunk, score, known + {Vector}), api, exact, candidates[..n + 1]);
      }
      assert candidates[..|candidates|] == candidates;
    }

    lemma ReflectsVector(api: Api, exact: seq<Chunk>, candidates: seq<Candidate>, n: nat, known: set<Origin>, score: real)
      requires n < |candidates| && Valid() && Reflects(api, exact, candidates[..n])
      requires known == if candidates[n].chunk.id in origins then origins[candidates[n].chunk.id] else {}
      requires score == Max(if candidates[n].chunk.id in scores then scores[candidates[n].chunk.id] else 0.0,
                            VectorScore(candidates[n].distance))
      ensures Accounts(api, exact, candidates[..n + 1], Entry(candidates[n].chunk, score, known + {Vector}))
    {
      forall id ensures InVector(candidates[..n + 1], id) <==> InVector(candidates[..n], id) || candidates[n].chunk.id == id {
        InVectorNext(candidates, n, id);
      }
      assert candidates[..n + 1][..n] == candidates[..n];
      var id := candidates[n].chunk.id;
      if id !in chunks {
        ExactBaseRange(api, exact, id);
        BestWithout(ExactBase(api, exact, id), candidates[..n], id);
      }
      hide InExact, InVector, VectorScore, ExactBase;
    }
  }

  lemma {:induction false} BestWithout(base: real, candidates: seq<Candidate>, id: ChunkId)
    requires !InVector(candidates, id)
    ensures Best(base, candidates, id) == base
  {
    if candidates != [] {
      var n := |candidates| - 1;
      assert candidates[..n + 1] == candidates;
      InVectorNext(candidates, n, id);
      hide InVector;
      BestWithout(base, candidates[..n], id);
    }
  }

  // ------------------------------------------------------------------------- ranking

  function ScoreOf(scores: map<ChunkId, real>, id: ChunkId): real { if id in scores then scores[id] else 0.0 }

  /** The order of the sort key: higher score, then earlier line, then smaller identifier. */
  predicate RanksBefore(scores: map<ChunkId, real>, a: Chunk, b: Chunk) {
    var x, y := ScoreOf(scores, a.id), ScoreOf(scores, b.id);
    x > y || (x == y && (a.startLine < b.startLine || (a.startLine == b.startLine && a.id <= b.id)))
  }

  function ByRank(scores: map<ChunkId, real>): (Chunk, Chunk) -> bool {
    (a, b) => RanksBefore(scores, a, b)
  }

  /** `ranked_chunks`. */
  function Ranked(merge: Merge): (ranked: seq<Chunk>)
    requires merge.Valid()
    reads merge
  {
    Sort(ByRank(merge.scores), Listed(merge))
  }

  /** `chunks_by_id.values()`. */
  function Listed(merge: Merge): (listed: seq<Chunk>)
    requires merge.Valid()
    reads merge
    ensures |listed| == |merge.keys| && forall i :: 0 <= i < |listed| ==> listed[i] == merge.chunks[merge.keys[i]]
  {
    seq(|merge.keys|, i requires 0 <= i < |merge.keys| && merge.keys[i] in merge.chunks reads merge => merge.chunks[merge.keys[i]])
  }

  /** The ranking is the merged chunks themselves, each once, in key order. */
  lemma RankedExact(merge: Merge)
    requires merge.Valid()
    ensures multiset(Ranked(merge)) == multiset(Listed(merge)) && |Ranked(merge)| == |merge.keys|
    ensures forall i, j :: 0 <= i < j < |Ranked(merge)| ==> RanksBefore(merge.scores, Ranked(merge)[i], Ranked(merge)[j])
    ensures forall chunk :: chunk in Ranked(merge) ==> exists id :: id in merge.chunks && merge.chunks[id] == chunk
  {
    assert TotalPreorder(ByRank(merge.scores));
    SortCorrect(ByRank(merge.scores), Listed(merge));
    assert forall i, j :: 0 <= i < j < |Ranked(merge)| ==> ByRank(merge.scores)(Ranked(merge)[i], Ranked(merge)[j]);
    forall chunk | chunk in Ranked(merge) ensures exists id :: id in merge.chunks && merge.chunks[id] == chunk {
      assert chunk in multiset(Listed(merge));
      var i :| 0 <= i < |merge.keys| && Listed(merge)[i] == chunk;
      assert merge.keys[i] in merge.chunks;
    }
  }

  // ------------------------------------------------------------ exact hits come first

  /**
    With distances above minus one sixteenth, so with every distance that is not negative,
    an exact chunk has the larger score.
   */
  lemma {:induction false} ExactScoresHigher(api: Api, exact: seq<Chunk>, candidates: seq<Candidate>, a: ChunkId, b: ChunkId)
    requires forall k :: 0 <= k < |candidates| ==> candidates[k].distance > -0.0625
    requires InExact(exact, a) && !InExact(exact, b)
    ensures Best(ExactBase(api, exact, a), candidates, a) > Best(ExactBase(api, exact, b), candidates, b)
  {
    ExactBaseRange(api, exact, a);
    ExactBaseRange(api, exact, b);
    BestIsMaximum(ExactBase(api, exact, a), candidates, a);
    BestIsMaximum(ExactBase(api, exact, b), candidates, b);
    hide InExact, Best, ExactBase;
  }

  lemma {:induction false} RankedScore(merge: Merge, api: Api, exact: seq<Chunk>, candidates: seq<Candidate>, chunk: Chunk)
    requires merge.Valid() && merge.Reflects(api, exact, candidates) && chunk in Ranked(merge)
    ensures ScoreOf(merge.scores, chunk.id) == Best(ExactBase(api, exact, chunk.id), candidates, chunk.id)
  {
    RankedExact(merge);
    hide Ranked, InExact, InVector, Best, ExactBase;
    var x :| x in merge.chunks && merge.chunks[x] == chunk;
    assert EntryFits(api, exact, candidates, x, merge.EntryOf(x));
  }

  /** Every exactly retrieved chunk ranks before every chunk found by its vector only. */
  lemma ExactFirst(merge: Merge, api: Api, exact: seq<Chunk>, candidates: seq<Candidate>, i: nat, j: nat)
    requires merge.Valid() && merge.Reflects(api, exact, candidates)
    requires forall k :: 0 <= k < |candidates| ==> candidates[k].distance > -0.0625
    requires i < |Ranked(merge)| && j < |Ranked(merge)|
    requires InExact(exact, Ranked(merge)[i].id) && !InExact(exact, Ranked(merge)[j].id)
    ensures i < j
  {
    RankedExact(merge);
    var a, b := Ranked(merge)[i], Ranked(merge)[j];
    RankedScore(merge, api, exact, candidates, a);
    RankedScore(merge, api, exact, candidates, b);
    ExactScoresHigher(api, exact, candidates, a.id, b.id);
    assert !RanksBefore(merge.scores, b, a);
    hide *;
  }

  /** The larger score comes first; of equal scores the earlier line, and then the smaller identifier. */
  lemma {:induction false} RankedByScore(merge: Merge, api: Api, exact: seq<Chunk>, candidates: seq<Candidate>, i: nat, j: nat)
    requires merge.Valid() && merge.Reflects(api, exact, candidates)
    requires i < j < |Ranked(merge)|
    ensures var a, b := Ranked(merge)[i], Ranked(merge)[j];
            var x, y := Best(ExactBase(api, exact, a.id), candidates, a.id), Best(ExactBase(api, exact, b.id), candidates, b.id);
            x >= y && (x == y ==> a.startLine <= b.startLine && (a.startLine == b.startLine ==> a.id <= b.id))
  {
    RankedExact(merge);
    RankedScore(merge, api, exact, candidates, Ranked(merge)[i]);
    RankedScore(merge, api, exact, candidates, Ranked(merge)[j]);
    assert RanksBefore(merge.scores, Ranked(merge)[i], Ranked(merge)[j]);
    hide Ranked, Best, ExactBase;
  }

  /** An identifier stands for one chunk. */
  ghost predicate OneChunkEach(exact: seq<Chunk>) {
    forall p, q :: 0 <= p < |exact| && 0 <= q < |exact| && exact[p].id == exact[q].id ==> exact[p] == exact[q]
  }

  lemma {:induction false} ExactBaseOf(api: Api, exact: seq<Chunk>, chunk: Chunk)
    requires OneChunkEach(exact) && chunk in exact
    ensures ExactBase(api, exact, chunk.id) == ExactScore(api, chunk)
  {
    var n := |exact| - 1;
    if exact[n].id != chunk.id {
      assert exact == exact[..n] + [exact[n]];
      assert forall p :: 0 <= p < n ==> exact[..n][p] == exact[p];
      ExactBaseOf(api, exact[..n], chunk);
    }
  }

  /** At these distances no vector score reaches an exact score. */
  lemma {:induction false} ExactBest(api: Api, exact: seq<Chunk>, candidates: seq<Candidate>, chunk: Chunk)
    requires forall k :: 0 <= k < |candidates| ==> candidates[k].distance > -0.0625
    requires OneChunkEach(exact) && chunk in exact
    ensures Best(ExactBase(api, exact, chunk.id), candidates, chunk.id) == ExactScore(api, chunk)
    ensures ExactScore(api, chunk) == 1.0 <==> chunk.symbol == api.handler
    ensures ExactScore(api, chunk) == 0.95 <==> chunk.symbol == api.controller && chunk.symbol != api.handler
    ensures ExactScore(api, chunk) == 0.85 <==> chunk.symbol !in {api.controller, api.handler}
  {
    ExactBaseOf(api, exact, chunk);
    BestIsMaximum(ExactBase(api, exact, chunk.id), candidates, chunk.id);
    hide Best, ExactBase;
  }

  /** The chunk is closer to the selected interface: the handler's first, then the controller's, then the rest. */
  predicate Closer(api: Api, c: Chunk, d: Chunk) {
    d.symbol != api.handler && (c.symbol == api.handler || (c.symbol == api.controller && d.symbol != api.controller))
  }

  /** Among exact chunks the handler's rank before the controller's, and those before the rest. */
  lemma CloserRanksFirst(merge: Merge, api: Api, exact: seq<Chunk>, candidates: seq<Candidate>, c: Chunk, d: Chunk, i: nat, j: nat)
    requires merge.Valid() && merge.Reflects(api, exact, candidates)
    requires forall k :: 0 <= k < |candidates| ==> candidates[k].distance > -0.0625
    requires OneChunkEach(exact) && c in exact && d in exact && Closer(api, c, d)
    requires i < |Ranked(merge)| && j < |Ranked(merge)| && Ranked(merge)[i].id == c.id && Ranked(merge)[j].id == d.id
    ensures i < j
  {
    ExactBest(api, exact, candidates, c);
    ExactBest(api, exact, candidates, d);
    assert ExactScore(api, c) > ExactScore(api, d);
    if j < i {
      RankedByScore(merge, api, exact, candidates, j, i);
    }
    hide *;
  }

  /** The identifier of a candidate is that of no other. */
  ghost predicate DistinctCandidates(candidates: seq<Candidate>) {
    forall p, q :: 0 <= p < q < |candidates| ==> candidates[p].chunk.id != candidates[q].chunk.id
  }

  lemma VectorOnlyBest(api: Api, exact: seq<Chunk>, candidates: seq<Candidate>, k: nat)
    requires k < |candidates| && DistinctCandidates(candidates) && !InExact(exact, candidates[k].chunk.id)
    ensures var id := candidates[k].chunk.id;
            Best(ExactBase(api, exact, id), candidates, id) == VectorScore(candidates[k].distance)
  {
    var id := candidates[k].chunk.id;
    ExactBaseRange(api, exact, id);
    BestIsMaximum(0.0, candidates, id);
    assert VectorScore(candidates[k].distance) >= 0.0;
    hide Best, ExactBase, InExact, VectorScore;
  }

  /**
    Of two chunks found by vector only the nearer ranks first if its distance is below one;
    from there on both scores are zero, and the distances decide nothing.
   */
  lemma {:induction false} NearerRanksFirst(merge: Merge, api: Api, exact: seq<Chunk>, candidates: seq<Candidate>, k: nat, l: nat, i: nat, j: nat)
    requires merge.Valid() && merge.Reflects(api, exact, candidates) && DistinctCandidates(candidates)
    requires k < |candidates| && l < |candidates| && candidates[k].distance < candidates[l].distance
    requires !InExact(exact, candidates[k].chunk.id) && !InExact(exact, candidates[l].chunk.id)
    requires i < |Ranked(merge)| && j < |Ranked(merge)|
    requires Ranked(merge)[i].id == candidates[k].chunk.id && Ranked(merge)[j].id == candidates[l].chunk.id
    ensures candidates[k].distance < 1.0 ==> i < j
    ensures candidates[k].distance >= 1.0 ==>
              ScoreOf(merge.scores, candidates[k].chunk.id) == ScoreOf(merge.scores, candidates[l].chunk.id) == 0.0
  {
    VectorOnlyBest(api, exact, candidates, k);
    VectorOnlyBest(api, exact, candidates, l);
    RankedScore(merge, api, exact, candidates, Ranked(merge)[i]);
    RankedScore(merge, api, exact, candidates, Ranked(merge)[j]);
    VectorScores(candidates[k].distance, candidates[l].distance);
    if j < i {
      RankedByScore(merge, api, exact, candidates, j, i);
    }
    hide *;
  }

  lemma VectorScores(near: real, far: real)
    requires near < far
    ensures near < 1.0 ==> VectorScore(near) > VectorScore(far)
    ensures near >= 1.0 ==> VectorScore(near) == VectorScore(far) == 0.0
  {
  }

  /** The scores of one exact chunk and one chunk found by vector only, at a distance. */
  function PairScores(api: Api, a: Chunk, b: Chunk, distance: real): map<ChunkId, real> {
    map[a.id := Best(ExactBase(api, [a], a.id), [Candidate(b, distance)], a.id),
        b.id := Best(ExactBase(api, [a], b.id), [Candidate(b, distance)], b.id)]
  }

  lemma PairScoresAre(api: Api, a: Chunk, b: Chunk, distance: real)
    requires a.id != b.id
    ensures PairScores(api, a, b, distance) == map[a.id := ExactScore(api, a), b.id := VectorScore(distance)]
  {
    var found := [Candidate(b, distance)];
    assert found[..0] == [] && [a][..0] == [];
    assert ExactBase(api, [a], a.id) == ExactScore(api, a) && ExactBase(api, [a], b.id) == 0.0;
    assert VectorScore(distance) >= 0.0;
    hide ExactBase, ExactScore, VectorScore;
    assert Best(ExactScore(api, a), found, a.id) == ExactScore(api, a);
    assert Best(0.0, found, b.id) == Max(0.0, VectorScore(distance));
  }

  /** The exact chunk always ranks strictly first. */
  ghost predicate AlwaysFirst(distance: real) {
    forall api: Api, a: Chunk, b: Chunk :: a.id != b.id ==> !RanksBefore(PairScores(api, a, b, distance), b, a)
  }

  /** At -1/16 the scores can be equal, and an earlier line puts the vector-only chunk first. */
  lemma ThresholdOvertakes(distance: real) returns (api: Api, a: Chunk, b: Chunk)
    requires distance <= -0.0625
    ensures a.id != b.id && RanksBefore(PairScores(api, a, b, distance), b, a)
  {
    api, a, b := Api(Some(1), Some(2)), Chunk(0, Some(3), 9, "exact"), Chunk(1, None, 1, "vector");
    PairScoresAre(api, a, b, distance);
    hide PairScores;
  }

  /** So the bound is sharp: exact chunks come first at a distance if and only if it is above -1/16. */
  lemma ThresholdSharp(distance: real)
    ensures AlwaysFirst(distance) <==> distance > -0.0625
  {
    if distance > -0.0625 {
      forall api: Api, a: Chunk, b: Chunk | a.id != b.id ensures !RanksBefore(PairScores(api, a, b, distance), b, a) {
        PairScoresAre(api, a, b, distance);
        hide PairScores, ExactScore;
      }
    } else {
      var api, a, b := ThresholdOvertakes(distance);
    }
  }

  // ---------------------------------------------------------------- the context budget

  datatype Served = Served(id: ChunkId, startLine: nat, content: string, originalCharacters: nat, truncated: bool)

  /** How many chunks can be considered: at most limit, and none from the first empty one on. */
  function Usable(chunks: seq<Chunk>, limit: int): (n: nat)
    ensures n <= |chunks| && (limit <= 0 ==> n == 0) && (limit >= 0 ==> n <= limit)
    ensures forall i :: 0 <= i < n ==> chunks[i].content != ""
    ensures n < |chunks| && n < limit ==> chunks[n].content == ""
  {
    if limit <= 0 || chunks == [] || chunks[0].content == "" then 0 else 1 + Usable(chunks[1..], limit - 1)
  }

  function Text(chunks: seq<Chunk>): string {
    if chunks == [] then "" else Text(chunks[..|chunks| - 1]) + chunks[|chunks| - 1].content
  }

  function ServedText(values: seq<Served>): string {
    if values == [] then "" else ServedText(values[..|values| - 1]) + values[|values| - 1].content
  }

  /** The first n characters, fewer when there are fewer, none for a negative n. */
  function Take(s: string, n: int): string {
    if n <= 0 then "" else if n >= |s| then s else s[..n]
  }

  /** A served value is its chunk, cut short only when marked so. */
  predicate Serves(v: Served, chunk: Chunk) {
    && v.id == chunk.id && v.startLine == chunk.startLine && v.originalCharacters == |chunk.content|
    && v.content != "" && v.content <= chunk.content && (v.truncated <==> v.content != chunk.content)
  }

  lemma {:induction false} TextGrows(chunks: seq<Chunk>, m: nat, n: nat)
    requires m <= n <= |chunks|
    ensures Text(chunks[..m]) <= Text(chunks[..n])
    decreases n
  {
    if m < n {
      assert chunks[..n][..n - 1] == chunks[..n - 1];
      TextGrows(chunks, m, n - 1);
    }
  }

  /** One more chunk within the budget that is left. */
  lemma TakeNext(before: string, content: string, budget: int)
    requires |before| < budget
    ensures var remaining := budget - |before|;
            Take(before + content, budget) == before + (if |content| > remaining then content[..remaining] else content)
  {
    if |content| > budget - |before| {
      assert (before + content)[..budget] == before + content[..budget - |before|];
    }
  }

  /** What has been served of the chunks so far. */
  ghost predicate ServedSoFar(chunks: seq<Chunk>, values: seq<Served>, budget: int) {
    && |values| <= |chunks|
    && ServedText(values) == Take(Text(chunks[..|values|]), budget)
    && (forall i :: 0 <= i < |values| ==> Serves(values[i], chunks[i]))
    && (forall i :: 0 <= i < |values| - 1 ==> !values[i].truncated)
    && (values != [] && values[|values| - 1].truncated ==> |ServedText(values)| >= budget)
  }

  lemma ServedNothing(chunks: seq<Chunk>, budget: int)
    ensures ServedSoFar(chunks, [], budget) && |ServedText([])| == 0
  {
  }

  lemma ServedTextNext(values: seq<Served>, value: Served)
    ensures ServedText(values + [value]) == ServedText(values) + value.content
  {
    assert (values + [value])[..|values|] == values;
  }

  lemma TextNext(chunks: seq<Chunk>, n: nat)
    requires n < |chunks|
    ensures Text(chunks[..n + 1]) == Text(chunks[..n]) + chunks[n].content
  {
    assert chunks[..n + 1][..n] == chunks[..n];
  }

  /** One more chunk, cut to what is left of the budget. */
  lemma {:induction false} ServedNext(chunks: seq<Chunk>, values: seq<Served>, value: Served, budget: int)
    requires |values| < |chunks| && ServedSoFar(chunks, values, budget) && |ServedText(values)| < budget
    requires var (chunk, remaining) := (chunks[|values|], budget - |ServedText(values)|);
             var content := if |chunk.content| > remaining then chunk.content[..remaining] else chunk.content;
             content != "" && value == Served(chunk.id, chunk.startLine, content, |chunk.content|, |chunk.content| > remaining)
    ensures ServedSoFar(chunks, values + [value], budget)
    ensures |ServedText(values + [value])| == |ServedText(values)| + |value.content|
  {
    var before := Text(chunks[..|values|]);
    assert before == ServedText(values) by {
      hide Text, ServedText, Serves;
    }
    TakeNext(before, chunks[|values|].content, budget);
    ServedTextNext(values, value);
    TextNext(chunks, |values|);
    hide Take, Text, ServedText;
  }

  lemma ServedAll(chunks: seq<Chunk>, values: seq<Served>, n: nat, budget: int)
    requires ServedSoFar(chunks, values, budget) && |values| <= n <= |chunks|
    requires |values| == n || |ServedText(values)| >= budget
    ensures ServedText(values) == Take(Text(chunks[..n]), budget)
  {
    TextGrows(chunks, |values|, n);
    hide Text, ServedText, Serves;
  }

  /**
    `_apply_context_budget`: what is served reads as the first characters, up to the
    budget, of the usable chunks in rank order; only the last may be cut.
   */
  method ApplyContextBudget(chunks: seq<Chunk>, limit: int, budget: int) returns (values: seq<Served>)
    ensures |values| <= Usable(chunks, limit)
    ensures ServedText(values) == Take(Text(chunks[..Usable(chunks, limit)]), budget)
    ensures forall i :: 0 <= i < |values| ==> Serves(values[i], chunks[i])
    ensures forall i :: 0 <= i < |values| - 1 ==> !values[i].truncated
  {
    ghost var n := Usable(chunks, limit);
    var remaining := budget;
    values := [];
    ServedNothing(chunks, budget);
    hide Usable, Text, ServedText, Take, Serves;
    while |values| < |chunks|
      invariant |values| <= n && ServedSoFar(chunks, values, budget)
      invariant remaining == budget - |ServedText(values)|
      decreases |chunks| - |values|
    {
      hide ServedSoFar;
      if |values| >= limit || remaining <= 0 {
        break;
      }
      var chunk := chunks[|values|];
      var content := chunk.content;
      var truncated := |content| > remaining;
      content := if truncated then content[..remaining] else content;
      if content == "" {
        break;
      }
      var value := Served(chunk.id, chunk.startLine, content, |chunk.content|, truncated);
      ServedNext(chunks, values, value, budget);
      values := values + [value];
      remaining := remaining - |content|;
    }
    ServedAll(chunks, values, n, budget);
  }

  // ------------------------------------------------------------------- the whole answer

  /**
    What the vector search comes to: no provider or a failed call, an exception that the
    search does not catch, or the candidates found.
   */
  datatype VectorSearch = Unavailable | Escaped | Found(candidates: seq<Candidate>)

  function CandidatesOf(vectors: VectorSearch): seq<Candidate> {
    match vectors case Found(candidates) => candidates case _ => []
  }

  /**
    `retrieve_hybrid_context` without its queries: exact hits, then vector hits when the
    embedding is available, ranked and cut to the budget.  Nothing is answered exactly
    when an exception escapes the vector search.
   */
  method RetrieveHybridContext(api: Api, exact: seq<Chunk>, vectors: VectorSearch, limit: int, budget: int)
    returns (merge: Merge, answer: Option<seq<Served>>)
    ensures answer.None? <==> vectors.Escaped?
    ensures merge.Valid() && merge.Reflects(api, exact, CandidatesOf(vectors))
    ensures answer.Some? ==>
              ServedText(answer.value) == Take(Text(Ranked(merge)[..Usable(Ranked(merge), limit)]), budget)
    ensures answer.Some? ==>
              |answer.value| <= |Ranked(merge)| && forall i :: 0 <= i < |answer.value| ==> Serves(answer.value[i], Ranked(merge)[i])
  {
    assert !vectors.Found? ==> CandidatesOf(vectors) == [];
    assert vectors.Found? ==> CandidatesOf(vectors) == vectors.candidates;
    hide *;
    merge := new Merge();
    merge.AddExactChunks(api, exact);
    match vectors {
      case Unavailable =>
      case Escaped =>
        return merge, None;
      case Found(candidates) =>
        merge.AddVectorChunks(api, exact, candidates);
    }
    var values := ApplyContextBudget(Ranked(merge), limit, budget);
    answer := Some(values);
  }
}
