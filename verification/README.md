# PatrickStar predictive chunk eviction, in Dafny

PatrickStar stores model parameters in fixed-size chunks that move between
GPU and CPU memory. When a device runs short of room, the eviction policy
in `patrickstar/core/eviction_policy.py` picks the chunks to move out. This
project models that policy and proves what it promises.

The policy has three parts:

- **Access tracing.** `trace_access` records, per `(chunk id, device)` pair,
  the metronome moments at which the chunk was used on that device. This is
  the class `EvictionPolicy.LruEvictionPolicy` with its `chunkAccessDict`
  field.
- **Next-use prediction.** `_chunk_next_used_moment` replays that trace
  cyclically over one iteration of `totalMoment` moments:
  - 0 during warm-up;
  - twice the period for a pair never traced;
  - otherwise the first recorded moment after the current one;
  - otherwise the first recorded moment shifted into the next period.

  The specification is the function `NextUse`. The method that mirrors the
  source's scan is `ChunkNextUsedMoment`.
- **Plan derivation.** `derive_eviction_list` keeps the movable chunks:
  - on a device of the target's type;
  - not being computed on;
  - not released;
  - not pinned.

  It queues them as `(-next_mom, chunk_id)` in a priority queue. It then pops
  chunks, farthest next use first, until their payload covers `need_bytes`.
  The specification is `EvictionPlan` (the greedy walk `Greedy` over the
  full `Ranking`). The method is `DeriveEvictionList`, in two phases:
  `RankCandidates` and `PopUntilCovered`.

Modules:

- `ChunkView`: the chunk metadata the policy reads (device, state, pin
  flag, payload size), with only the chunk states the policy tells apart.
- `Clocks`: the three metronome fields the policy reads, and a `Clock`
  snapshot of them.
- `PriorityQueues`: the queue of `(-next_mom, chunk_id)` entries, kept as a
  sequence sorted in tuple order.
- `EvictionPolicy`: the specification functions and the policy class.
- `EvictionProperties`: lemmas about predictions, byte sums, the greedy
  walk and the plan, plus a worked three-chunk scenario.

Notes on the code as written:

- The docstring of `trace_access` says it only works during warm-up, but the
  code records every access whatever the warm-up flag says. The model
  follows the code. So a recorded list is not assumed to be sorted, and the
  prediction is the first later moment *in recorded order*, not the smallest
  later moment.
- The stopping test `moved_bytes >= need_bytes` comes after a chunk is
  appended. So a non-positive need still evicts one chunk when any chunk is
  movable (`EvictionProperties.PlanNonPositiveNeed`).

## Model

| member | source | states |
|---|---|---|
| EvictionPolicy.LruEvictionPolicy.constructor | patrickstar/core/eviction_policy.py:39-41 | a new policy has an empty access trace and reads the metronome it was given |
| EvictionPolicy.LruEvictionPolicy.TraceAccess | patrickstar/core/eviction_policy.py:43-54 | the key `(chunkId, dev)` is present afterwards; its list is the old list (or empty when absent) with the current moment appended; every other key keeps its list; every list stays non-empty |
| EvictionPolicy.FirstAfter | patrickstar/core/eviction_policy.py:69-71 | the returned position is the first whose moment exceeds the current one: every earlier moment is at most the current one, and it equals the length when no moment is later |
| EvictionPolicy.NextUseCases | patrickstar/core/eviction_policy.py:56-72 | warm-up predicts 0; an untraced pair predicts twice the period; a traced pair with a later moment predicts a moment after the current one that is the first such in recorded order; otherwise the period plus the first recorded moment |
| EvictionPolicy.LruEvictionPolicy.ChunkNextUsedMoment | patrickstar/core/eviction_policy.py:56-72 | the scanning method returns exactly the specified prediction `NextUse` for the current metronome reading |
| EvictionPolicy.RankedMembers | patrickstar/core/eviction_policy.py:86-98 | after enumerating the first `n` chunks the queue is strictly ordered and holds exactly one entry `(-next use, id)` for each admissible chunk among them, and nothing else |
| EvictionPolicy.LruEvictionPolicy.RankCandidates | patrickstar/core/eviction_policy.py:84-98 | the enumeration loop leaves a fresh, sorted queue whose contents are the full ranking of the admissible chunks |
| EvictionPolicy.LruEvictionPolicy.PopUntilCovered | patrickstar/core/eviction_policy.py:102-109 | the pop loop returns the greedy walk over the queue's contents and the number of bytes that list frees; the queue is left ordered and holding exactly the entries not popped |
| EvictionPolicy.LruEvictionPolicy.DeriveEvictionList | patrickstar/core/eviction_policy.py:80-120 | the returned list is the eviction plan for the current trace and metronome reading; the shortfall warning is raised exactly when the plan frees fewer than `need_bytes` |
| PriorityQueues.Insert | patrickstar/core/eviction_policy.py:98 | putting an entry adds exactly that entry to the multiset of queued entries |
| PriorityQueues.InsertMembers | patrickstar/core/eviction_policy.py:98 | after a put, an entry is queued iff it is the new one or was queued before |
| PriorityQueues.InsertSorted | patrickstar/core/eviction_policy.py:98 | a put keeps the queue ordered by tuple order |
| PriorityQueues.InsertStrictlySorted | patrickstar/core/eviction_policy.py:96-98 | putting an entry not already queued keeps the queue strictly ordered, so entries never tie |
| PriorityQueues.SortedHeadMin | patrickstar/core/eviction_policy.py:105 | in a queue kept in tuple order no entry is smaller than the head, so the head is what `get` must hand out |
| PriorityQueues.PriorityQueue.constructor | patrickstar/core/eviction_policy.py:85 | a new queue is empty and ordered |
| PriorityQueues.PriorityQueue.Put | patrickstar/core/eviction_policy.py:98 | the contents become the sorted insertion of the entry and stay ordered |
| PriorityQueues.PriorityQueue.Get | patrickstar/core/eviction_policy.py:104-105 | a get on a non-empty queue returns an entry no queued entry is smaller than, and removes exactly it |
| EvictionProperties.PredictionIsAhead | patrickstar/core/eviction_policy.py:56-72 | after warm-up, while the clock is inside the period, every prediction lies strictly after the current moment |
| EvictionProperties.UnseenOutranksTraced | patrickstar/core/eviction_policy.py:66-72 | a pair never traced is predicted later than any traced pair whose moments lie inside the period, so it is evicted first |
| EvictionProperties.CyclicPredictionExample | patrickstar/core/eviction_policy.py:60-72 | with moments 2 and 7 in a 10-moment period: 7 at moment 5, 12 at moments 8 and 9 (wrap into the next period), 20 for an untraced chunk, 0 in warm-up |
| EvictionProperties.FreedCons | patrickstar/core/eviction_policy.py:106 | evicting `x` and then `s` frees the payload of `x` plus what `s` frees |
| EvictionProperties.FreedPrefix | patrickstar/core/eviction_policy.py:106 | a prefix of an eviction list never frees more than the whole list |
| EvictionProperties.FreedInsert | patrickstar/core/eviction_policy.py:98 | putting a chunk's entry into the queue adds its payload to the bytes the queued chunks hold |
| EvictionProperties.RankedBytes | patrickstar/core/eviction_policy.py:86-98 | the queued chunks hold exactly the bytes of the admissible chunks, summed independently in registry order |
| EvictionProperties.GreedyPrefix | patrickstar/core/eviction_policy.py:104-109 | the walk returns the ids of a prefix of the queue, and at least one id when the queue is non-empty |
| EvictionProperties.GreedyStops | patrickstar/core/eviction_policy.py:104-109 | no shorter non-empty prefix of the walk reaches the need, and the walk ends before the queue is exhausted only when the bytes suffice |
| EvictionProperties.RankingOrdered | patrickstar/core/eviction_policy.py:86-98 | the ranking lists every admissible chunk and only those, ordered by later next use first and then by ascending id |
| EvictionProperties.PlanAdmissible | patrickstar/core/eviction_policy.py:86-93 | every planned id names a chunk of the registry on a device of the target's type that is not computing, not released and not pinned; no id is planned twice |
| EvictionProperties.PlanOrdered | patrickstar/core/eviction_policy.py:96-105 | the plan is a prefix of the ranking; planned chunks are ordered by later next use and then by ascending id; every admissible chunk left out comes after all planned ones |
| EvictionProperties.PlanSufficient | patrickstar/core/eviction_policy.py:104-109 | when the admissible chunks hold enough bytes, the plan frees at least `need_bytes`; for a positive need, dropping its last chunk or taking any shorter non-empty prefix frees too little |
| EvictionProperties.PlanShortfall | patrickstar/core/eviction_policy.py:104-112 | when the admissible chunks hold too few bytes, every admissible chunk is planned and the plan frees exactly their total |
| EvictionProperties.PlanNonPositiveNeed | patrickstar/core/eviction_policy.py:104-109 | with a need of zero or less and at least one admissible chunk, the plan is exactly one chunk |
| EvictionProperties.WarmupPlanById | patrickstar/core/eviction_policy.py:96-97 | during warm-up all predictions tie, so planned ids are strictly increasing |
| EvictionProperties.ScenarioEntries | patrickstar/core/eviction_policy.py:56-72 | in the three-chunk scenario at moment 1 of a 10-moment period the chunks are next needed at 3, 9 and 6 |
| EvictionProperties.ScenarioRankedTwo | patrickstar/core/eviction_policy.py:86-98 | after two chunks are enumerated the queue holds the one needed at 9 ahead of the one needed at 3 |
| EvictionProperties.ScenarioInsert | patrickstar/core/eviction_policy.py:98 | the entry needed at 6 is put between those needed at 9 and at 3 |
| EvictionProperties.ScenarioRanking | patrickstar/core/eviction_policy.py:86-98 | the scenario's ranking is chunk 1, chunk 2, chunk 0 |
| EvictionProperties.GreedyScenario | patrickstar/core/eviction_policy.py:80-120 | to free 400 bytes from chunks of 500, 300 and 200 bytes the plan is `[1, 2]` |

## Left out

- The shortfall warning (`log_dist`, lines 111-119) is I/O. It is modelled
  only as the boolean `underfilled` that `DeriveEvictionList` returns,
  together with the condition under which it is logged.
- `movable_chunk_info` (lines 84 and 99) builds strings that are only used
  in that log message, so it is not modelled.
- The metronome's implementation in `patrickstar.utils` is not modelled.
  `Clocks.Metronome` keeps only the three fields the policy reads:
  `moment`, `total_moment` and `is_warmup`. Advancing the metronome and
  ending warm-up belong to the training loop.
- The definition of `ChunkState` in `patrickstar/core/const.py` is not
  modelled. `ChunkView.ChunkState` keeps only what the policy needs: the
  states `COMPUTE` and `RELEASED`, plus other constructors that stand for
  "every other state".
- The priority queue's binary heap and its thread locking are not modelled.
  The queue is a sequence kept sorted in the same tuple order, so `get`
  returns the same entries in the same order.
- The abstract base class with its `NotImplementedError` stub (lines 38,
  74-76) is merged with its one concrete subclass into
  `LruEvictionPolicy`.
- Devices are a type name plus an optional index, compared structurally. The
  eviction filter compares only the type, while the trace is keyed by the
  whole device, as the source does.
- Chunk ids are naturals and `need_bytes` is an integer. Python's dynamic
  typing (such as a float need) is not modelled.
- EvictionPolicy.Payload: answers 0 for an id outside the chunk registry.
  Only keeps byte sums total. `PlanAdmissible` proves that the policy never
  looks up such an id.
- PriorityQueues.PriorityQueue.Get: requires a non-empty queue. An empty
  Python queue would block, and the source only calls `get` after checking
  `empty()`.
- The repository's tests are not modelled.
