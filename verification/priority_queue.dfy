/** The priority queue the eviction selector ranks candidates with. Entries
    are the pairs `(-next_mom, chunk_id)`, compared lexicographically as
    tuples are, and `Get` hands out the smallest entry first. The queue is
    kept as a sequence sorted by that order; heap layout and locking are not
    modelled. */
module PriorityQueues {

  /** The tuple `(-next_mom, chunk_id)` put into the queue. */
  datatype Entry = Entry(negNextMom: int, chunkId: nat)

  /** Lexicographic tuple order: first component, then chunk id. */
  predicate Less(a: Entry, b: Entry) {
    a.negNextMom < b.negNextMom || (a.negNextMom == b.negNextMom && a.chunkId < b.chunkId)
  }

  /** No entry is smaller than the one before it. */
  predicate Sorted(q: seq<Entry>) {
    forall i :: 0 < i < |q| ==> !Less(q[i], q[i - 1])
  }

  /** Every entry is strictly smaller than every later one. */
  predicate StrictlySorted(q: seq<Entry>) {
    forall i, j :: 0 <= i < j < |q| ==> Less(q[i], q[j])
  }

  /** `q` with `e` placed after every entry not larger than it: what `put`
      does to the sorted contents of the queue. */
  function Insert(q: seq<Entry>, e: Entry): (r: seq<Entry>)
    ensures multiset(r) == multiset(q) + multiset{e}
  {
    if q == [] || Less(e, q[0]) then
      [e] + q
    else
      assert q == [q[0]] + q[1..];
      [q[0]] + Insert(q[1..], e)
  }

  /** Inserting adds exactly the new entry. */
  lemma InsertMembers(q: seq<Entry>, e: Entry)
    ensures forall x :: x in Insert(q, e) <==> x == e || x in q
  {
  }

  /** Inserting into a sorted queue keeps it sorted. */
  lemma {:induction false} InsertSorted(q: seq<Entry>, e: Entry)
    requires Sorted(q)
    ensures Sorted(Insert(q, e))
  {
    if q != [] && !Less(e, q[0]) {
      InsertSorted(q[1..], e);
      var rest := Insert(q[1..], e);
      assert rest[0] == e || rest[0] == q[1];
    }
  }

  /** Inserting an entry not yet queued into a strictly sorted queue keeps
      it strictly sorted: distinct entries never tie. */
  lemma {:induction false} InsertStrictlySorted(q: seq<Entry>, e: Entry)
    requires StrictlySorted(q) && e !in q
    ensures StrictlySorted(Insert(q, e))
  {
    if q != [] && !Less(e, q[0]) {
      assert e != q[0];
      InsertStrictlySorted(q[1..], e);
      var rest := Insert(q[1..], e);
      forall x | x in rest
        ensures Less(q[0], x)
      {
        assert x in multiset(rest);
      }
    }
  }

  /** No entry of a sorted queue is smaller than its head. */
  lemma {:induction false} SortedHeadMin(q: seq<Entry>, k: nat)
    requires Sorted(q) && k < |q|
    ensures !Less(q[k], q[0])
  {
    if k > 0 {
      SortedHeadMin(q, k - 1);
    }
  }

  class PriorityQueue {
    var items: seq<Entry>

    ghost predicate Valid()
      reads this
    {
      Sorted(items)
    }

    constructor ()
      ensures Valid() && items == []
    {
      items := [];
    }

    predicate IsEmpty()
      reads this
    {
      items == []
    }

    /** `put`: the new entry takes its place in the order. */
    method Put(e: Entry)
      requires Valid()
      modifies this
      ensures Valid()
      ensures items == Insert(old(items), e)
    {
      InsertSorted(items, e);
      items := Insert(items, e);
    }

    /** `get`: removes and returns the smallest entry. The source only calls
        it on a non-empty queue (an empty one would block). */
    method Get() returns (e: Entry)
      requires Valid() && items != []
      modifies this
      ensures Valid()
      ensures e == old(items)[0] && items == old(items)[1..]
      ensures forall k :: 0 <= k < |old(items)| ==> !Less(old(items)[k], e)
    {
      forall k | 0 <= k < |items|
        ensures !Less(items[k], items[0])
      {
        SortedHeadMin(items, k);
      }
      e := items[0];
      items := items[1..];
    }
  }
}
