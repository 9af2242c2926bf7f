/** The predictive chunk-eviction policy: a recorder of which chunk was used
    on which device at which moment, a predictor that replays that trace
    cyclically to find each chunk's next use, and a selector that evicts the
    chunks needed farthest in the future until enough bytes are freed. */
module EvictionPolicy {
  import opened ChunkView
  import opened Clocks
  import opened PriorityQueues

  /** The access trace: for each (chunk id, device) the moments at which the
      chunk was used there, in the order they were recorded. */
  type Trace = map<(nat, Device), seq<nat>>

  /** Every recorded list holds at least one moment: an entry is only ever
      created together with its first moment. */
  ghost predicate TraceValid(trace: Trace) {
    forall key :: key in trace ==> |trace[key]| > 0
  }

  /** The position of the first moment later than `cur`, or `|moments|` when
      there is none. */
  function FirstAfter(moments: seq<nat>, cur: nat): (i: nat)
    ensures i <= |moments|
    ensures forall j :: 0 <= j < i ==> moments[j] <= cur
    ensures i < |moments| ==> moments[i] > cur
  {
    if moments == [] || moments[0] > cur then 0 else 1 + FirstAfter(moments[1..], cur)
  }

  /** The predicted next moment at which `chunkId` is needed on `dev`:
      0 for everyone during warm-up, twice the period for a pair never
      traced, else the first recorded moment after the current one, or the
      first recorded moment in the next period when none is left in this
      one. */
  function NextUse(trace: Trace, clock: Clock, chunkId: nat, dev: Device): nat
    requires TraceValid(trace)
  {
    if clock.isWarmup then 0
    else if (chunkId, dev) !in trace then 2 * clock.totalMoment
    else
      var moments := trace[(chunkId, dev)];
      var i := FirstAfter(moments, clock.moment);
      if i < |moments| then moments[i] else clock.totalMoment + moments[0]
  }

  /** The four cases of the prediction, stated without the scan. */
  lemma NextUseCases(trace: Trace, clock: Clock, chunkId: nat, dev: Device)
    requires TraceValid(trace)
    ensures clock.isWarmup ==> NextUse(trace, clock, chunkId, dev) == 0
    ensures !clock.isWarmup && (chunkId, dev) !in trace ==> NextUse(trace, clock, chunkId, dev) == 2 * clock.totalMoment
    ensures !clock.isWarmup && (chunkId, dev) in trace ==>
      var moments := trace[(chunkId, dev)];
      var r := NextUse(trace, clock, chunkId, dev);
      if exists j :: 0 <= j < |moments| && moments[j] > clock.moment then
        r > clock.moment &&
        exists i :: 0 <= i < |moments| && moments[i] == r &&
          forall j :: 0 <= j < i ==> moments[j] <= clock.moment
      else
        r == clock.totalMoment + moments[0]
  {
  }

  /** A chunk may be evicted from devices of `target`'s kind when it lives on
      such a device, is neither being computed on nor released, and is not
      pinned. */
  predicate Admissible(chunk: Chunk, target: Device) {
    && chunk.device.Some?
    && chunk.device.value.kind == target.kind
    && chunk.state != Compute
    && chunk.state != Released
    && !chunk.pinned
  }

  /** The queue entry of chunk `chunkId` when evicting towards `target`. */
  function EntryOf(trace: Trace, clock: Clock, chunkId: nat, target: Device): Entry
    requires TraceValid(trace)
  {
    Entry(-(NextUse(trace, clock, chunkId, target) as int), chunkId)
  }

  /** The priority queue after the first `n` chunks have been enumerated:
      one entry per admissible chunk, in queue order. */
  function Ranked(chunks: seq<Chunk>, trace: Trace, clock: Clock, target: Device, n: nat): seq<Entry>
    requires TraceValid(trace) && n <= |chunks|
  {
    if n == 0 then []
    else
      var q := Ranked(chunks, trace, clock, target, n - 1);
      if Admissible(chunks[n - 1], target) then Insert(q, EntryOf(trace, clock, n - 1, target)) else q
  }

  /** The queue holds exactly the entries of the admissible chunks among the
      first `n`, each once, strictly ordered. */
  lemma {:induction false} RankedMembers(chunks: seq<Chunk>, trace: Trace, clock: Clock, target: Device, n: nat)
    requires TraceValid(trace) && n <= |chunks|
    ensures StrictlySorted(Ranked(chunks, trace, clock, target, n))
    ensures forall e :: e in Ranked(chunks, trace, clock, target, n) <==>
      e.chunkId < n && Admissible(chunks[e.chunkId], target) && e == EntryOf(trace, clock, e.chunkId, target)
  {
    if n > 0 {
      RankedMembers(chunks, trace, clock, target, n - 1);
      var q := Ranked(chunks, trace, clock, target, n - 1);
      if Admissible(chunks[n - 1], target) {
        var e := EntryOf(trace, clock, n - 1, target);
        assert e !in q;
        InsertStrictlySorted(q, e);
        InsertMembers(q, e);
      }
    }
  }

  /** Enumerating one more chunk puts its entry into the queue exactly when
      the chunk is admissible. */
  lemma RankedStep(chunks: seq<Chunk>, trace: Trace, clock: Clock, target: Device, n: nat)
    requires TraceValid(trace) && n < |chunks|
    ensures Ranked(chunks, trace, clock, target, n + 1) ==
      if Admissible(chunks[n], target) then Insert(Ranked(chunks, trace, clock, target, n), EntryOf(trace, clock, n, target))
      else Ranked(chunks, trace, clock, target, n)
  {
  }

  /** The full ranking of the admissible chunks: the order in which the
      queue hands them out. */
  function Ranking(chunks: seq<Chunk>, trace: Trace, clock: Clock, target: Device): seq<Entry>
    requires TraceValid(trace)
  {
    Ranked(chunks, trace, clock, target, |chunks|)
  }

  /** The chunk ids of a sequence of queue entries. */
  function Ids(q: seq<Entry>): seq<nat>
  {
    seq(|q|, i requires 0 <= i < |q| => q[i].chunkId)
  }

  /** `chunks[id].get_payload_space()`. Every id the policy ever looks up
      names a chunk of the registry (`EvictionProperties.PlanAdmissible`);
      the value for any other id only keeps the byte sums total. */
  function Payload(chunks: seq<Chunk>, id: nat): nat {
    if id < |chunks| then chunks[id].payloadSpace else 0
  }

  /** Bytes freed by evicting `ids`, summed in order. */
  function Freed(chunks: seq<Chunk>, ids: seq<nat>): nat
  {
    if ids == [] then 0 else Freed(chunks, ids[..|ids| - 1]) + Payload(chunks, ids[|ids| - 1])
  }

  /** The greedy walk over the queue contents `q` when `moved` bytes are
      already accounted for: take the next chunk, add its payload, and stop
      as soon as the total reaches `needBytes`, or when the queue runs dry. */
  function Greedy(chunks: seq<Chunk>, q: seq<Entry>, needBytes: int, moved: int): seq<nat>
  {
    if q == [] then []
    else
      var total := moved + Payload(chunks, q[0].chunkId);
      if total >= needBytes then [q[0].chunkId]
      else [q[0].chunkId] + Greedy(chunks, q[1..], needBytes, total)
  }

  /** One step of the greedy walk, seen from the list taken so far: the head
      of the queue is always appended, its payload is added to the bytes
      freed, and the walk goes on with the rest only while the total stays
      short. */
  lemma GreedyAdvance(chunks: seq<Chunk>, taken: seq<nat>, q: seq<Entry>, needBytes: int, moved: int)
    requires q != [] && moved == Freed(chunks, taken)
    ensures var id := q[0].chunkId;
      var total := moved + Payload(chunks, id);
      && total == Freed(chunks, taken + [id])
      && taken + Greedy(chunks, q, needBytes, moved) ==
           if total >= needBytes then taken + [id]
           else (taken + [id]) + Greedy(chunks, q[1..], needBytes, total)
  {
  }

  /** The eviction plan: what the greedy walk takes from the full ranking. */
  function EvictionPlan(chunks: seq<Chunk>, trace: Trace, clock: Clock, needBytes: int, target: Device): seq<nat>
    requires TraceValid(trace)
  {
    Greedy(chunks, Ranking(chunks, trace, clock, target), needBytes, 0)
  }

  /** The policy object: the access trace it records and the metronome it
      reads. */
  class LruEvictionPolicy {
    var chunkAccessDict: Trace
    const metronome: Metronome

    ghost predicate Valid()
      reads this
    {
      TraceValid(chunkAccessDict)
    }

    constructor (metronome: Metronome)
      ensures Valid()
      ensures this.metronome == metronome && chunkAccessDict == map[]
    {
      this.metronome := metronome;
      chunkAccessDict := map[];
    }

    /** Records that `chunkId` is used on `dev` at the current moment. */
    method TraceAccess(chunkId: nat, dev: Device)
      requires Valid()
      modifies this
      ensures Valid()
      ensures chunkAccessDict.Keys == old(chunkAccessDict.Keys) + {(chunkId, dev)}
      ensures chunkAccessDict[(chunkId, dev)] ==
        (if (chunkId, dev) in old(chunkAccessDict) then old(chunkAccessDict)[(chunkId, dev)] else []) + [metronome.moment]
      ensures forall key :: key in old(chunkAccessDict) && key != (chunkId, dev) ==>
        chunkAccessDict[key] == old(chunkAccessDict)[key]
    {
      var curMom := metronome.moment;
      if (chunkId, dev) !in chunkAccessDict {
        chunkAccessDict := chunkAccessDict[(chunkId, dev) := []];
      }
      chunkAccessDict := chunkAccessDict[(chunkId, dev) := chunkAccessDict[(chunkId, dev)] + [curMom]];
    }

    /** The next moment at which `chunkId` will be needed on `dev`. */
    method ChunkNextUsedMoment(chunkId: nat, dev: Device) returns (mom: nat)
      requires Valid()
      ensures mom == NextUse(chunkAccessDict, metronome.Now(), chunkId, dev)
    {
      if metronome.isWarmup {
        return 0;
      }
      var curMom := metronome.moment;
      var totalMom := metronome.totalMoment;
      if (chunkId, dev) !in chunkAccessDict {
        return 2 * totalMom;
      }
      var accessMomList := chunkAccessDict[(chunkId, dev)];
      for i := 0 to |accessMomList|
        invariant forall j :: 0 <= j < i ==> accessMomList[j] <= curMom
      {
        if accessMomList[i] > curMom {
          return accessMomList[i];
        }
      }
      return totalMom + accessMomList[0];
    }

    /** The first phase of `DeriveEvictionList`: enumerate the chunks and
        queue `(-next_mom, chunk_id)` for every admissible one. */
    method RankCandidates(chunks: seq<Chunk>, targetDevice: Device) returns (q: PriorityQueue)
      requires Valid()
      ensures fresh(q) && q.Valid()
      ensures q.items == Ranking(chunks, chunkAccessDict, metronome.Now(), targetDevice)
    {
      ghost var clock := metronome.Now();
      q := new PriorityQueue();
      for chunkId := 0 to |chunks|
        invariant q.Valid()
        invariant q.items == Ranked(chunks, chunkAccessDict, clock, targetDevice, chunkId)
      {
        RankedStep(chunks, chunkAccessDict, clock, targetDevice, chunkId);
        var chunk := chunks[chunkId];
        if Admissible(chunk, targetDevice) {
          var nextMom := ChunkNextUsedMoment(chunkId, targetDevice);
          var entry := Entry(-(nextMom as int), chunkId);
          assert entry == EntryOf(chunkAccessDict, clock, chunkId, targetDevice);
          q.Put(entry);
        }
      }
    }

    /** The second phase of `DeriveEvictionList`: pop the queue, adding
        each chunk's payload, until `needBytes` are covered or the queue is
        empty. */
    method PopUntilCovered(chunks: seq<Chunk>, q: PriorityQueue, needBytes: int)
      returns (movedList: seq<nat>, movedBytes: int)
      requires q.Valid()
      modifies q
      ensures movedList == Greedy(chunks, old(q.items), needBytes, 0)
      ensures movedBytes == Freed(chunks, movedList)
      ensures q.Valid() && |movedList| <= |old(q.items)| && q.items == old(q.items)[|movedList|..]
    {
      movedList := [];
      movedBytes := 0;
      while !q.IsEmpty()
        invariant q.Valid()
        invariant movedList + Greedy(chunks, q.items, needBytes, movedBytes) == Greedy(chunks, old(q.items), needBytes, 0)
        invariant movedBytes == Freed(chunks, movedList)
        invariant |movedList| <= |old(q.items)| && q.items == old(q.items)[|movedList|..]
        decreases |q.items|
      {
        GreedyAdvance(chunks, movedList, q.items, needBytes, movedBytes);
        var entry := q.Get();
        var chunkId := entry.chunkId;
        movedBytes := movedBytes + Payload(chunks, chunkId);
        movedList := movedList + [chunkId];
        if movedBytes >= needBytes {
          break;
        }
      }
    }

    /** The chunks to evict from devices of `targetDevice`'s kind so that at
        least `needBytes` are freed, in eviction order; `underfilled` is the
        condition under which the source logs that the plan falls short. */
    method DeriveEvictionList(chunks: seq<Chunk>, needBytes: int, targetDevice: Device)
      returns (movedList: seq<nat>, underfilled: bool)
      requires Valid()
      ensures movedList == EvictionPlan(chunks, chunkAccessDict, metronome.Now(), needBytes, targetDevice)
      ensures underfilled <==> Freed(chunks, movedList) < needBytes
    {
      var q := RankCandidates(chunks, targetDevice);
      var movedBytes;
      movedList, movedBytes := PopUntilCovered(chunks, q, needBytes);
      underfilled := movedBytes < needBytes;
    }
  }
}
