/** What the eviction policy promises: how predictions behave, which chunks
    a plan may contain, in which order, and when the greedy walk stops. */
module EvictionProperties {
  import opened ChunkView
  import opened Clocks
  import opened PriorityQueues
  import opened EvictionPolicy

  // ---------------------------------------------------------------------
  // Next-use prediction

  /** Once warm-up is over and the clock is inside the recorded period, a
      prediction always lies strictly in the future. */
  lemma PredictionIsAhead(trace: Trace, clock: Clock, chunkId: nat, dev: Device)
    requires TraceValid(trace)
    requires !clock.isWarmup && clock.moment < clock.totalMoment
    ensures NextUse(trace, clock, chunkId, dev) > clock.moment
  {
  }

  /** A chunk never traced on `dev` is predicted later than any traced chunk
      whose recorded moments lie inside the period, so it is evicted
      first. */
  lemma UnseenOutranksTraced(trace: Trace, clock: Clock, unseen: nat, traced: nat, dev: Device)
    requires TraceValid(trace) && !clock.isWarmup
    requires (unseen, dev) !in trace && (traced, dev) in trace
    requires forall m :: m in trace[(traced, dev)] ==> m < clock.totalMoment
    ensures NextUse(trace, clock, unseen, dev) > NextUse(trace, clock, traced, dev)
  {
    var moments := trace[(traced, dev)];
    var r := NextUse(trace, clock, traced, dev);
    if exists j :: 0 <= j < |moments| && moments[j] > clock.moment {
      var i :| 0 <= i < |moments| && moments[i] == r;
      assert moments[i] in moments;
    } else {
      assert moments[0] in moments;
    }
  }

  /** The cyclic replay on a period of 10 moments with a chunk used at
      moments 2 and 7. */
  lemma CyclicPredictionExample(dev: Device)
    ensures var trace: Trace := map[(0, dev) := [2, 7]];
      && NextUse(trace, Clock(5, 10, false), 0, dev) == 7
      && NextUse(trace, Clock(8, 10, false), 0, dev) == 12
      && NextUse(trace, Clock(9, 10, false), 0, dev) == 12
      && NextUse(trace, Clock(9, 10, false), 1, dev) == 20
      && NextUse(trace, Clock(9, 10, true), 0, dev) == 0
  {
  }

  // ---------------------------------------------------------------------
  // Byte sums

  /** Evicting `x` first and then `s` frees the payload of `x` plus what `s`
      frees. */
  lemma {:induction false} FreedCons(chunks: seq<Chunk>, x: nat, s: seq<nat>)
    ensures Freed(chunks, [x] + s) == Payload(chunks, x) + Freed(chunks, s)
    decreases |s|
  {
    if s != [] {
      var init := s[..|s| - 1];
      assert ([x] + s)[..|s|] == [x] + init;
      FreedCons(chunks, x, init);
    }
  }

  /** A prefix never frees more than the whole sequence. */
  lemma {:induction false} FreedPrefix(chunks: seq<Chunk>, s: seq<nat>, k: nat)
    requires k <= |s|
    ensures Freed(chunks, s[..k]) <= Freed(chunks, s)
    decreases |s|
  {
    if k < |s| {
      var init := s[..|s| - 1];
      FreedPrefix(chunks, init, k);
      assert init[..k] == s[..k];
    } else {
      assert s[..k] == s;
    }
  }

  /** Putting an entry into the queue adds its chunk's payload to the bytes
      the queued chunks hold. */
  lemma {:induction false} FreedInsert(chunks: seq<Chunk>, q: seq<Entry>, e: Entry)
    ensures Freed(chunks, Ids(Insert(q, e))) == Freed(chunks, Ids(q)) + Payload(chunks, e.chunkId)
  {
    if q == [] || Less(e, q[0]) {
      assert Ids([e] + q) == [e.chunkId] + Ids(q);
      FreedCons(chunks, e.chunkId, Ids(q));
    } else {
      var rest := Insert(q[1..], e);
      assert Ids([q[0]] + rest) == [q[0].chunkId] + Ids(rest);
      assert Ids(q) == [q[0].chunkId] + Ids(q[1..]);
      FreedCons(chunks, q[0].chunkId, Ids(rest));
      FreedCons(chunks, q[0].chunkId, Ids(q[1..]));
      FreedInsert(chunks, q[1..], e);
    }
  }

  /** Bytes held by the admissible chunks among the first `n`, summed in
      registry order: a reference independent of the ranking. */
  function AdmissibleBytes(chunks: seq<Chunk>, target: Device, n: nat): nat
    requires n <= |chunks|
  {
    if n == 0 then 0
    else AdmissibleBytes(chunks, target, n - 1) + (if Admissible(chunks[n - 1], target) then chunks[n - 1].payloadSpace else 0)
  }

  /** The queued chunks hold exactly the admissible bytes. */
  lemma {:induction false} RankedBytes(chunks: seq<Chunk>, trace: Trace, clock: Clock, target: Device, n: nat)
    requires TraceValid(trace) && n <= |chunks|
    ensures Freed(chunks, Ids(Ranked(chunks, trace, clock, target, n))) == AdmissibleBytes(chunks, target, n)
  {
    if n > 0 {
      RankedBytes(chunks, trace, clock, target, n - 1);
      if Admissible(chunks[n - 1], target) {
        FreedInsert(chunks, Ranked(chunks, trace, clock, target, n - 1), EntryOf(trace, clock, n - 1, target));
      }
    }
  }

  // ---------------------------------------------------------------------
  // The greedy walk

  /** The walk takes a prefix of the queue, and at least one chunk when
      there is one. */
  lemma {:induction false} GreedyPrefix(chunks: seq<Chunk>, q: seq<Entry>, needBytes: int, moved: int)
    ensures |Greedy(chunks, q, needBytes, moved)| <= |q|
    ensures Greedy(chunks, q, needBytes, moved) == Ids(q)[..|Greedy(chunks, q, needBytes, moved)|]
    ensures q != [] ==> |Greedy(chunks, q, needBytes, moved)| >= 1
    decreases |q|
  {
    if q != [] {
      var total := moved + Payload(chunks, q[0].chunkId);
      if total < needBytes {
        GreedyPrefix(chunks, q[1..], needBytes, total);
        var rest := Greedy(chunks, q[1..], needBytes, total);
        assert Ids(q)[..1 + |rest|] == [q[0].chunkId] + Ids(q[1..])[..|rest|];
      }
    }
  }

  /** The walk stops at the first chunk that brings the freed bytes to
      `needBytes`: no shorter non-empty prefix is enough, and it stops
      before the end of the queue only once the bytes suffice. */
  lemma {:induction false} GreedyStops(chunks: seq<Chunk>, q: seq<Entry>, needBytes: int, moved: int)
    ensures var plan := Greedy(chunks, q, needBytes, moved);
      forall j :: 0 < j < |plan| ==> moved + Freed(chunks, plan[..j]) < needBytes
    ensures var plan := Greedy(chunks, q, needBytes, moved);
      |plan| < |q| ==> moved + Freed(chunks, plan) >= needBytes
    decreases |q|
  {
    var plan := Greedy(chunks, q, needBytes, moved);
    if q != [] {
      var id := q[0].chunkId;
      var total := moved + Payload(chunks, id);
      FreedCons(chunks, id, []);
      assert [id] + [] == [id];
      if total < needBytes {
        var rest := Greedy(chunks, q[1..], needBytes, total);
        GreedyStops(chunks, q[1..], needBytes, total);
        GreedyPrefix(chunks, q[1..], needBytes, total);
        assert plan == [id] + rest;
        forall j | 0 < j < |plan|
          ensures moved + Freed(chunks, plan[..j]) < needBytes
        {
          assert plan[..j] == [id] + rest[..j - 1];
          FreedCons(chunks, id, rest[..j - 1]);
          if j == 1 {
            assert rest[..0] == [];
          }
        }
        FreedCons(chunks, id, rest);
      }
    }
  }

  // ---------------------------------------------------------------------
  // The eviction plan

  /** Chunk `a` is evicted before chunk `b`: it is needed later, or needed
      at the same moment and has the smaller id. */
  predicate EvictedBefore(trace: Trace, clock: Clock, target: Device, a: nat, b: nat)
    requires TraceValid(trace)
  {
    var na := NextUse(trace, clock, a, target);
    var nb := NextUse(trace, clock, b, target);
    na > nb || (na == nb && a < b)
  }

  /** The ranking lists each admissible chunk once, farthest next use
      first, ties by ascending id. */
  lemma RankingOrdered(chunks: seq<Chunk>, trace: Trace, clock: Clock, target: Device)
    requires TraceValid(trace)
    ensures var ranking := Ranking(chunks, trace, clock, target);
      forall i, j :: 0 <= i < j < |ranking| ==>
        EvictedBefore(trace, clock, target, ranking[i].chunkId, ranking[j].chunkId)
    ensures var ranking := Ranking(chunks, trace, clock, target);
      forall c: nat :: c < |chunks| && Admissible(chunks[c], target) <==> c in Ids(ranking)
  {
    var ranking := Ranking(chunks, trace, clock, target);
    RankedMembers(chunks, trace, clock, target, |chunks|);
    forall i, j | 0 <= i < j < |ranking|
      ensures EvictedBefore(trace, clock, target, ranking[i].chunkId, ranking[j].chunkId)
    {
      assert ranking[i] in ranking && ranking[j] in ranking;
    }
    forall c: nat
      ensures c < |chunks| && Admissible(chunks[c], target) <==> c in Ids(ranking)
    {
      if c < |chunks| && Admissible(chunks[c], target) {
        var e := EntryOf(trace, clock, c, target);
        assert e in ranking;
        var m :| 0 <= m < |ranking| && ranking[m] == e;
        assert Ids(ranking)[m] == c;
      }
      if c in Ids(ranking) {
        var m :| 0 <= m < |Ids(ranking)| && Ids(ranking)[m] == c;
        assert ranking[m] in ranking;
      }
    }
  }

  /** Every planned id names an admissible chunk (on a device of the
      target's kind, not computing, not released, not pinned), and no id is
      planned twice. */
  lemma PlanAdmissible(chunks: seq<Chunk>, trace: Trace, clock: Clock, needBytes: int, target: Device)
    requires TraceValid(trace)
    ensures var plan := EvictionPlan(chunks, trace, clock, needBytes, target);
      forall i :: 0 <= i < |plan| ==> plan[i] < |chunks| && Admissible(chunks[plan[i]], target)
    ensures var plan := EvictionPlan(chunks, trace, clock, needBytes, target);
      forall i, j :: 0 <= i < j < |plan| ==> plan[i] != plan[j]
  {
    var ranking := Ranking(chunks, trace, clock, target);
    var plan := EvictionPlan(chunks, trace, clock, needBytes, target);
    GreedyPrefix(chunks, ranking, needBytes, 0);
    RankingOrdered(chunks, trace, clock, target);
    forall i | 0 <= i < |plan|
      ensures plan[i] < |chunks| && Admissible(chunks[plan[i]], target)
    {
      assert plan[i] == Ids(ranking)[i];
      assert Ids(ranking)[i] in Ids(ranking);
    }
    forall i, j | 0 <= i < j < |plan|
      ensures plan[i] != plan[j]
    {
      assert EvictedBefore(trace, clock, target, ranking[i].chunkId, ranking[j].chunkId);
    }
  }

  /** The plan is a prefix of the ranking: planned chunks come farthest
      next use first (ties by ascending id), and every admissible chunk left
      out is evicted after all of them. */
  lemma PlanOrdered(chunks: seq<Chunk>, trace: Trace, clock: Clock, needBytes: int, target: Device)
    requires TraceValid(trace)
    ensures var plan := EvictionPlan(chunks, trace, clock, needBytes, target);
      |plan| <= |Ranking(chunks, trace, clock, target)| &&
      plan == Ids(Ranking(chunks, trace, clock, target))[..|plan|]
    ensures var plan := EvictionPlan(chunks, trace, clock, needBytes, target);
      forall i, j :: 0 <= i < j < |plan| ==> EvictedBefore(trace, clock, target, plan[i], plan[j])
    ensures var plan := EvictionPlan(chunks, trace, clock, needBytes, target);
      forall c: nat, i :: c < |chunks| && Admissible(chunks[c], target) && c !in plan && 0 <= i < |plan| ==>
        EvictedBefore(trace, clock, target, plan[i], c)
  {
    var ranking := Ranking(chunks, trace, clock, target);
    var plan := EvictionPlan(chunks, trace, clock, needBytes, target);
    GreedyPrefix(chunks, ranking, needBytes, 0);
    RankingOrdered(chunks, trace, clock, target);
    forall i, j | 0 <= i < j < |plan|
      ensures EvictedBefore(trace, clock, target, plan[i], plan[j])
    {
      assert plan[i] == ranking[i].chunkId && plan[j] == ranking[j].chunkId;
    }
    forall c: nat, i | c < |chunks| && Admissible(chunks[c], target) && c !in plan && 0 <= i < |plan|
      ensures EvictedBefore(trace, clock, target, plan[i], c)
    {
      assert c in Ids(ranking);
      var m :| 0 <= m < |ranking| && Ids(ranking)[m] == c;
      assert plan[i] == ranking[i].chunkId;
    }
  }

  /** When the admissible chunks hold at least `needBytes`, the plan frees
      at least that much, and (for a positive need) dropping its last chunk
      would free too little; no shorter non-empty prefix of it suffices. */
  lemma PlanSufficient(chunks: seq<Chunk>, trace: Trace, clock: Clock, needBytes: int, target: Device)
    requires TraceValid(trace)
    requires AdmissibleBytes(chunks, target, |chunks|) >= needBytes
    ensures var plan := EvictionPlan(chunks, trace, clock, needBytes, target);
      Freed(chunks, plan) >= needBytes
    ensures var plan := EvictionPlan(chunks, trace, clock, needBytes, target);
      needBytes > 0 ==> plan != [] && Freed(chunks, plan[..|plan| - 1]) < needBytes
    ensures var plan := EvictionPlan(chunks, trace, clock, needBytes, target);
      forall j :: 0 < j < |plan| ==> Freed(chunks, plan[..j]) < needBytes
  {
    var ranking := Ranking(chunks, trace, clock, target);
    var plan := EvictionPlan(chunks, trace, clock, needBytes, target);
    GreedyPrefix(chunks, ranking, needBytes, 0);
    GreedyStops(chunks, ranking, needBytes, 0);
    RankedBytes(chunks, trace, clock, target, |chunks|);
    if |plan| == |ranking| {
      assert plan == Ids(ranking);
    }
    if needBytes > 0 && plan != [] && |plan| == 1 {
      assert plan[..0] == [];
    }
  }

  /** When the admissible chunks hold less than `needBytes`, the plan is
      every admissible chunk and falls short by exactly what is missing. */
  lemma PlanShortfall(chunks: seq<Chunk>, trace: Trace, clock: Clock, needBytes: int, target: Device)
    requires TraceValid(trace)
    requires AdmissibleBytes(chunks, target, |chunks|) < needBytes
    ensures var plan := EvictionPlan(chunks, trace, clock, needBytes, target);
      forall c: nat :: c < |chunks| && Admissible(chunks[c], target) ==> c in plan
    ensures var plan := EvictionPlan(chunks, trace, clock, needBytes, target);
      Freed(chunks, plan) == AdmissibleBytes(chunks, target, |chunks|)
  {
    var ranking := Ranking(chunks, trace, clock, target);
    var plan := EvictionPlan(chunks, trace, clock, needBytes, target);
    GreedyPrefix(chunks, ranking, needBytes, 0);
    GreedyStops(chunks, ranking, needBytes, 0);
    RankedBytes(chunks, trace, clock, target, |chunks|);
    RankingOrdered(chunks, trace, clock, target);
    if |plan| < |ranking| {
      FreedPrefix(chunks, Ids(ranking), |plan|);
      assert false;
    }
    assert plan == Ids(ranking);
  }

  /** The threshold is checked only after a chunk is taken: with nothing to
      free and at least one admissible chunk, the plan is exactly one
      chunk. */
  lemma PlanNonPositiveNeed(chunks: seq<Chunk>, trace: Trace, clock: Clock, needBytes: int, target: Device, c: nat)
    requires TraceValid(trace) && needBytes <= 0
    requires c < |chunks| && Admissible(chunks[c], target)
    ensures |EvictionPlan(chunks, trace, clock, needBytes, target)| == 1
  {
    RankingOrdered(chunks, trace, clock, target);
    assert c in Ids(Ranking(chunks, trace, clock, target));
  }

  /** During warm-up every prediction is 0, so the plan lists chunks by
      ascending id. */
  lemma WarmupPlanById(chunks: seq<Chunk>, trace: Trace, clock: Clock, needBytes: int, target: Device)
    requires TraceValid(trace) && clock.isWarmup
    ensures var plan := EvictionPlan(chunks, trace, clock, needBytes, target);
      forall i, j :: 0 <= i < j < |plan| ==> plan[i] < plan[j]
  {
    PlanOrdered(chunks, trace, clock, needBytes, target);
  }

  /** Three movable chunks of 500, 300 and 200 bytes on `dev`. */
  function ScenarioChunks(dev: Device): seq<Chunk> {
    [Chunk(Some(dev), Hold, false, 500), Chunk(Some(dev), Hold, false, 300), Chunk(Some(dev), Hold, false, 200)]
  }

  /** A trace in which they were used at moments 3, 9 and 6. */
  function ScenarioTrace(dev: Device): Trace {
    map[(0, dev) := [3], (1, dev) := [9], (2, dev) := [6]]
  }

  /** At moment 1 of a 10-moment period they are next needed at moments 3,
      9 and 6. */
  lemma ScenarioEntries(dev: Device)
    ensures TraceValid(ScenarioTrace(dev))
    ensures EntryOf(ScenarioTrace(dev), Clock(1, 10, false), 0, dev) == Entry(-3, 0)
    ensures EntryOf(ScenarioTrace(dev), Clock(1, 10, false), 1, dev) == Entry(-9, 1)
    ensures EntryOf(ScenarioTrace(dev), Clock(1, 10, false), 2, dev) == Entry(-6, 2)
  {
  }

  /** After the first two chunks are enumerated the queue holds the one
      needed at 9 ahead of the one needed at 3. */
  lemma ScenarioRankedTwo(dev: Device)
    ensures TraceValid(ScenarioTrace(dev))
    ensures Ranked(ScenarioChunks(dev), ScenarioTrace(dev), Clock(1, 10, false), dev, 2) == [Entry(-9, 1), Entry(-3, 0)]
  {
    var chunks, trace, clock := ScenarioChunks(dev), ScenarioTrace(dev), Clock(1, 10, false);
    ScenarioEntries(dev);
    assert Admissible(chunks[0], dev) && Admissible(chunks[1], dev);
    RankedStep(chunks, trace, clock, dev, 0);
    RankedStep(chunks, trace, clock, dev, 1);
    assert Insert([], Entry(-3, 0)) == [Entry(-3, 0)];
  }

  /** The entry needed at 6 goes between the ones needed at 9 and at 3. */
  lemma ScenarioInsert()
    ensures Insert([Entry(-9, 1), Entry(-3, 0)], Entry(-6, 2)) == [Entry(-9, 1), Entry(-6, 2), Entry(-3, 0)]
  {
  }

  /** They are ranked 9, 6, 3: farthest next use first. */
  lemma ScenarioRanking(dev: Device)
    ensures TraceValid(ScenarioTrace(dev))
    ensures Ranking(ScenarioChunks(dev), ScenarioTrace(dev), Clock(1, 10, false), dev) == [Entry(-9, 1), Entry(-6, 2), Entry(-3, 0)]
  {
    var chunks, trace, clock := ScenarioChunks(dev), ScenarioTrace(dev), Clock(1, 10, false);
    ScenarioEntries(dev);
    ScenarioRankedTwo(dev);
    assert Admissible(chunks[2], dev);
    RankedStep(chunks, trace, clock, dev, 2);
    ScenarioInsert();
  }

  /** To free 400 bytes, the plan takes the 300-byte chunk (next needed at
      9), then the 200-byte one (at 6), and stops. */
  lemma GreedyScenario(dev: Device)
    ensures TraceValid(ScenarioTrace(dev))
    ensures EvictionPlan(ScenarioChunks(dev), ScenarioTrace(dev), Clock(1, 10, false), 400, dev) == [1, 2]
  {
    ScenarioRanking(dev);
    var chunks := ScenarioChunks(dev);
    var b, c, a := Entry(-9, 1), Entry(-6, 2), Entry(-3, 0);
    assert Greedy(chunks, [c, a], 400, 300) == [2];
    assert [b, c, a][1..] == [c, a];
  }
}
