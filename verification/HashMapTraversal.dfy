/** Walking over a hash map: hashmap_iter/next, which survives the removal of the element it has
    just returned, and hashmap_pop_iter/next, which takes elements out as it returns them. */
module HashMapTraversal {
  import opened HashMap

  /** The chains from `i` on, one after another. */
  ghost function Flat(chains: seq<seq<Elem>>, i: nat): seq<Elem>
    decreases |chains| - i
  {
    if i < |chains| then chains[i] + Flat(chains, i + 1) else []
  }

  lemma {:induction false} FlatHas(m: Map, i: nat, e: Elem)
    requires m.Valid()
    ensures e in Flat(m.chains, i) <==> e in m.members && i <= Bucket(e.hash, m.buckets.Length)
    decreases |m.chains| - i
  {
    hide Bucket, PowerOfTwo, Map.Chained, Agree;
    if i < |m.chains| {
      FlatHas(m, i + 1, e);
    }
  }

  lemma {:induction false} FlatIsDistinct(m: Map, i: nat)
    requires m.Valid()
    ensures Distinct(Flat(m.chains, i))
    decreases |m.chains| - i
  {
    hide Bucket, PowerOfTwo, Map.Placed, Map.Chained, Agree, Distinct;
    if i < |m.chains| {
      FlatIsDistinct(m, i + 1);
      m.ChainLinksAll(i);
      forall e | e in m.chains[i]
        ensures e !in Flat(m.chains, i + 1)
      {
        FlatHas(m, i + 1, e);
      }
      JoinIsDistinct(m.chains[i], Flat(m.chains, i + 1));
    } else {
      assert Flat(m.chains, i) == [];
      NoneAreDistinct();
    }
  }

  lemma JoinIsDistinct(a: seq<Elem>, b: seq<Elem>)
    requires Distinct(a) && Distinct(b) && forall e :: e in a ==> e !in b
    ensures Distinct(a + b)
  {
    var c := a + b;
    forall k, l | 0 <= k < l < |c|
      ensures c[k] != c[l]
    {
      assert k < |a| ==> a[k] in a;
      assert l >= |a| ==> b[l - |a|] in b;
    }
  }

  lemma NoneAreDistinct()
    ensures Distinct([])
  {
  }

  /** A walk that starts at the first bucket has every member ahead of it exactly once. */
  lemma WalkMeetsEachOnce(m: Map)
    requires m.Valid()
    ensures Distinct(Flat(m.chains, 0)) && ElemsOf(Flat(m.chains, 0)) == m.members
    ensures forall e :: e in m.members ==> e in Flat(m.chains, 0)
  {
    hide Bucket, PowerOfTwo, Map.Placed, Map.Chained, Agree, Distinct;
    FlatIsDistinct(m, 0);
    var all := Flat(m.chains, 0);
    forall e | e in all
      ensures e in m.members
    {
      FlatHas(m, 0, e);
    }
    forall e | e in m.members
      ensures e in all
    {
      FlatHas(m, 0, e);
    }
  }

  /** A change of one chain below `i` does not show from `i` on. */
  lemma {:induction false} FlatIgnores(chains: seq<seq<Elem>>, j: nat, c: seq<Elem>, i: nat)
    requires j < i && j < |chains|
    ensures Flat(chains[j := c], i) == Flat(chains, i)
    decreases |chains| - i
  {
    if i < |chains| {
      FlatIgnores(chains, j, c, i + 1);
    }
  }

  /** next_nonempty_bucket; the number of buckets stands for SIZE_MAX. */
  method NextNonemptyBucket(m: Map, from: nat) returns (i: nat)
    requires m.Valid()
    ensures from <= |m.chains| ==> from <= i <= |m.chains|
    ensures i >= |m.chains| <==> Flat(m.chains, from) == []
    ensures i < |m.chains| ==> m.chains[i] != [] && Flat(m.chains, from) == m.chains[i] + Flat(m.chains, i + 1)
    ensures forall j :: from <= j < i && j < |m.chains| ==> m.chains[j] == []
  {
    hide Bucket, PowerOfTwo, Map.Placed, Map.Chained, Agree;
    i := from;
    while i < m.buckets.Length
      invariant from <= i && (from <= |m.chains| ==> i <= |m.chains|)
      invariant Flat(m.chains, from) == Flat(m.chains, i)
      invariant forall j :: from <= j < i && j < |m.chains| ==> m.chains[j] == []
    {
      m.ChainLinks(i, 0);
      if m.buckets[i] != m.sentinel {
        return;
      }
      assert m.chains[i] + Flat(m.chains, i + 1) == Flat(m.chains, i + 1);
      i := i + 1;
    }
  }

  /** A hashmap_trav_t. */
  class Traversal {
    const m: Map
    var bucketIdx: nat
    var current: Elem
    var next: Elem
    /** what is still to be returned, and how far into its chain the walk is */
    ghost var todo: seq<Elem>
    ghost var at: nat

    ghost predicate Valid()
      reads this, m, m.buckets, m.sentinel, m.members
    {
      && m.Valid()
      && if current == m.sentinel then todo == Flat(m.chains, bucketIdx) else InBucket()
    }

    /** The walk is inside of a bucket; its next stop does not depend on the current element. */
    ghost predicate InBucket()
      reads this, m
    {
      && bucketIdx < |m.chains| && at <= |m.chains[bucketIdx]|
      && next == Link(m.chains[bucketIdx], at, m.sentinel)
      && todo == m.chains[bucketIdx][at..] + Flat(m.chains, bucketIdx + 1)
      && (current in m.members ==> at > 0 && current == m.chains[bucketIdx][at - 1])
    }

    /** hashmap_iter, without the first call of hashmap_next */
    constructor (m: Map)
      requires m.Valid()
      ensures Valid() && this.m == m && todo == Flat(m.chains, 0)
    {
      this.m := m;
      current, next, bucketIdx := m.sentinel, m.sentinel, 0;
      todo, at := Flat(m.chains, 0), 0;
    }

    /** Stop at the element `k` of the chain `i`. */
    method StopAt(i: nat, ghost k: nat, e: Elem)
      requires m.Valid() && i < |m.chains| && k < |m.chains[i]| && e == m.chains[i][k]
      modifies this
      ensures Valid() && current == e && e in m.members
      ensures todo == m.chains[i][k + 1..] + Flat(m.chains, i + 1)
    {
      hide Bucket, PowerOfTwo, Map.Placed, Map.Chained, Agree, Map.Mapped, Flat;
      m.ChainLinks(i, k);
      bucketIdx, current, next := i, e, e.next;
      at, todo := k + 1, m.chains[i][k + 1..] + Flat(m.chains, i + 1);
    }

    /** The part of hashmap_next that looks for a bucket. */
    method NextBucket(from: nat) returns (e: Elem?)
      requires m.Valid() && todo == Flat(m.chains, from) && current == m.sentinel
      modifies this
      ensures Valid()
      ensures if old(todo) == [] then e == null && todo == []
              else e == old(todo)[0] && e == current && e in m.members && todo == old(todo)[1..]
    {
      hide Bucket, PowerOfTwo, Map.Placed, Map.Chained, Agree, Map.Mapped, Flat;
      bucketIdx := NextNonemptyBucket(m, from);
      if bucketIdx >= m.buckets.Length {
        EmptyFlat(bucketIdx);
        return null;
      }
      m.ChainLinks(bucketIdx, 0);
      StepInBucket(bucketIdx, 0);
      StopAt(bucketIdx, 0, m.buckets[bucketIdx]);
      return current;
    }

    /** hashmap_next */
    method Next() returns (e: Elem?)
      requires Valid()
      modifies this
      ensures Valid()
      ensures if old(todo) == [] then e == null && todo == []
              else e == old(todo)[0] && e == current && e in m.members && todo == old(todo)[1..]
    {
      hide Bucket, PowerOfTwo, Map.Placed, Map.Chained, Agree, Map.Mapped, Flat;
      if current != m.sentinel {
        current := next;
        if current != m.sentinel {
          StepInBucket(bucketIdx, at);
          StopAt(bucketIdx, at, current);
          return current;
        }
        LastOfBucket(bucketIdx, at);
        bucketIdx := bucketIdx + 1;
      }
      e := NextBucket(bucketIdx);
    }

    lemma StepInBucket(i: nat, at: nat)
      requires m.Valid() && i < |m.chains| && at < |m.chains[i]|
      ensures var rest := m.chains[i][at..] + Flat(m.chains, i + 1);
        rest != [] && rest[0] == m.chains[i][at] && rest[1..] == m.chains[i][at + 1..] + Flat(m.chains, i + 1)
      ensures m.chains[i][0..] == m.chains[i]
    {
    }

    lemma LastOfBucket(i: nat, at: nat)
      requires m.Valid() && i < |m.chains| && at <= |m.chains[i]| && Link(m.chains[i], at, m.sentinel) == m.sentinel
      ensures m.chains[i][at..] + Flat(m.chains, i + 1) == Flat(m.chains, i + 1)
    {
      hide Bucket, PowerOfTwo, Map.Placed, Map.Chained, Agree, Map.Mapped, Flat;
      m.ChainLinks(i, at);
      assert m.chains[i][at..] == [];
    }

    lemma EmptyFlat(i: nat)
      requires i >= |m.chains|
      ensures Flat(m.chains, i) == []
    {
    }

    /** hash_elem_remove of the element that was just returned. */
    method RemoveCurrent()
      requires Valid() && current in m.members
      modifies this`at, m`chains, m`members, m`M, m`numElems, m.buckets, m.members`next
      ensures Valid() && todo == old(todo) && current == old(current)
      ensures m.members == old(m.members) - {current} && m.M == old(m.M) - {current.key}
    {
      hide Bucket, PowerOfTwo, Map.Placed, Map.Chained, Agree, Map.Mapped, Flat;
      PlaceOfCurrent();
      ghost var before := m.chains;
      var k := Remove(current, m);
      at := at - 1;
      StillInBucket(before, k);
    }

    lemma MapIsValid()
      requires Valid()
      ensures m.Valid()
    {
    }

    lemma PlaceOfCurrent()
      requires Valid() && current in m.members
      ensures current.next != null && current != m.sentinel && InBucket()
      ensures Bucket(current.hash, m.buckets.Length) == bucketIdx
      ensures forall k :: 0 <= k < |m.chains[bucketIdx]| && m.chains[bucketIdx][k] == current ==> k == at - 1
    {
      hide Bucket, PowerOfTwo, Map.Placed, Map.Chained, Agree, Map.Mapped, Flat;
      m.MembersAreLinked();
      m.ChainLinks(bucketIdx, at - 1);
      m.ChainLinksAll(bucketIdx);
    }

    lemma StillInBucket(before: seq<seq<Elem>>, k: nat)
      requires bucketIdx < |before| && k < |before[bucketIdx]| && at == k
      requires next == Link(before[bucketIdx], k + 1, m.sentinel)
      requires todo == before[bucketIdx][k + 1..] + Flat(before, bucketIdx + 1)
      requires m.chains == before[bucketIdx := before[bucketIdx][..k] + before[bucketIdx][k + 1..]]
      requires current !in m.members
      ensures InBucket()
    {
      hide Flat;
      var c := before[bucketIdx];
      FlatIgnores(before, bucketIdx, c[..k] + c[k + 1..], bucketIdx + 1);
      assert m.chains[bucketIdx][k..] == c[k + 1..];
    }
  }

  /** Any caller that walks the map and removes some of the elements as they come meets every
      element exactly once, and takes out those and nothing else. */
  method VisitAll(m: Map, removing: set<Elem>) returns (seen: seq<Elem>)
    requires m.Valid()
    modifies m`chains, m`members, m`M, m`numElems, m.buckets, m.members`next
    ensures m.Valid() && m.members == old(m.members) - removing
    ensures Distinct(seen) && ElemsOf(seen) == old(m.members)
  {
    hide Bucket, PowerOfTwo, Map.Valid, Traversal.Valid, Flat, Distinct, ElemsOf, Underway, LeftBehind;
    WalkMeetsEachOnce(m);
    var trav := new Traversal(m);
    seen := [];
    ghost var all, left := trav.todo, m.members;
    assert forall e :: e in left ==> e in all;
    var e := trav.Next();
    FirstStop(all, e, trav.todo);
    NothingLeftBehind(left, removing);
    while e != null
      invariant trav.Valid() && trav.m == m && fresh(trav) && m.members == left
      invariant Underway(seen, e, trav.todo, all) && (e != null ==> trav.current == e && e in left)
      invariant LeftBehind(left, old(m.members), removing, seen) && left <= old(m.members)
      invariant e == null ==> trav.todo == []
      decreases |trav.todo|, if e == null then 0 else 1
    {
      ghost var was, before, todo := seen, left, trav.todo;
      seen := seen + [e];
      if e in removing {
        trav.RemoveCurrent();
        left := left - {e};
      }
      StillLeftBehind(before, left, old(m.members), removing, was, seen[|was|]);
      e := trav.Next();
      NextStop(was, seen[|was|], todo, all, e, trav.todo);
    }
    trav.MapIsValid();
    AllVisited(left, old(m.members), removing, seen, all);
  }

  /** A walk over `all` that has left `seen` behind, is at `e` and has `todo` ahead. */
  ghost predicate Underway(seen: seq<Elem>, e: Elem?, todo: seq<Elem>, all: seq<Elem>) {
    if e == null then seen == all && todo == [] else seen + [e] + todo == all
  }

  lemma FirstStop(all: seq<Elem>, e: Elem?, todo: seq<Elem>)
    requires if all == [] then e == null && todo == [] else e == all[0] && todo == all[1..]
    ensures Underway([], e, todo, all)
  {
  }

  lemma NextStop(seen: seq<Elem>, e: Elem, todo: seq<Elem>, all: seq<Elem>, e': Elem?, todo': seq<Elem>)
    requires Underway(seen, e, todo, all)
    requires if todo == [] then e' == null && todo' == [] else e' == todo[0] && todo' == todo[1..]
    ensures Underway(seen + [e], e', todo', all)
  {
    if todo != [] {
      assert seen + [e] + todo == seen + [e] + [todo[0]] + todo[1..];
    }
  }

  lemma NothingLeftBehind(all: set<Elem>, removing: set<Elem>)
    ensures LeftBehind(all, all, removing, [])
  {
  }

  lemma AllVisited(left: set<Elem>, all: set<Elem>, removing: set<Elem>, seen: seq<Elem>, walk: seq<Elem>)
    requires LeftBehind(left, all, removing, seen) && Underway(seen, null, [], walk)
    requires forall e :: e in all ==> e in walk
    ensures left == all - removing && seen == walk
  {
  }

  ghost predicate LeftBehind(left: set<Elem>, all: set<Elem>, removing: set<Elem>, seen: seq<Elem>) {
    left <= all && forall x :: x in all ==> (x in left <==> !(x in removing && x in seen))
  }

  lemma StillLeftBehind(was: set<Elem>, left: set<Elem>, all: set<Elem>, removing: set<Elem>, seen: seq<Elem>, e: Elem)
    requires LeftBehind(was, all, removing, seen) && left == if e in removing then was - {e} else was
    ensures LeftBehind(left, all, removing, seen + [e])
  {
  }

  /** hashmap_pop_next, from the bucket `from` on: everything before it is already empty. */
  method PopNext(m: Map, from: nat) returns (e: Elem?, i: nat)
    requires m.Valid() && forall j :: 0 <= j < from && j < |m.chains| ==> m.chains[j] == []
    modifies m`chains, m`members, m`M, m`numElems, m.buckets, m.members`next
    ensures m.Valid() && forall j :: 0 <= j < i && j < |m.chains| ==> m.chains[j] == []
    ensures e == null <==> old(m.members) == {}
    ensures e == null ==> m.M == old(m.M) && m.members == {}
    ensures e != null ==> e in old(m.members) && e.next == null
    ensures e != null ==> m.members == old(m.members) - {e} && m.M == old(m.M) - {e.key}
  {
    hide Bucket, PowerOfTwo, Map.Placed, Map.Chained, Agree, Map.Mapped, Flat;
    i := NextNonemptyBucket(m, from);
    if i >= m.buckets.Length {
      NothingLeft(m, from);
      return null, i;
    }
    m.ChainLinks(i, 0);
    e := m.buckets[i];
    m.Unlink(i, 0, null, e);
  }

  lemma NothingLeft(m: Map, from: nat)
    requires m.Valid() && Flat(m.chains, from) == []
    requires forall j :: 0 <= j < from && j < |m.chains| ==> m.chains[j] == []
    ensures m.members == {}
  {
    hide Bucket, PowerOfTwo, Map.Chained, Agree, Map.Mapped, Flat;
    forall e | e in m.members
      ensures false
    {
      FlatHas(m, from, e);
    }
  }

  /** Popping until nothing is returned meets every element exactly once and empties the map. */
  method PopAll(m: Map) returns (seen: seq<Elem>)
    requires m.Valid()
    modifies m`chains, m`members, m`M, m`numElems, m.buckets, m.members`next
    ensures m.Valid() && m.M == map[] && m.numElems == 0
    ensures Distinct(seen) && ElemsOf(seen) == old(m.members)
  {
    hide Bucket, PowerOfTwo, Map.Valid, Flat, Distinct, ElemsOf;
    seen := [];
    NoneSeen();
    var e: Elem?, i: nat := PopNext(m, 0);
    while e != null
      invariant m.Valid() && forall j :: 0 <= j < i && j < |m.chains| ==> m.chains[j] == []
      invariant Distinct(seen)
      invariant e == null ==> m.members == {} && ElemsOf(seen) == old(m.members)
      invariant e != null ==> PopState(seen, e, m.members, old(m.members))
      decreases |m.members|, if e == null then 0 else 1
    {
      ghost var was, rest := seen, m.members;
      seen := seen + [e];
      e, i := PopNext(m, i);
      OneMorePopped(was, seen[|was|], rest, e, m.members, old(m.members));
    }
    m.EmptyMap();
  }

  lemma NoneSeen()
    ensures Distinct([]) && ElemsOf([]) == {}
  {
  }

  /** What has been returned before `e`, `e`, and what is still in the map make up `all`. */
  ghost predicate PopState(seen: seq<Elem>, e: Elem, rest: set<Elem>, all: set<Elem>) {
    && e !in seen && e !in rest && (forall x :: x in rest ==> x !in seen)
    && ElemsOf(seen) + {e} + rest == all
  }

  lemma OneMorePopped(seen: seq<Elem>, e: Elem, rest: set<Elem>, e': Elem?, rest': set<Elem>, all: set<Elem>)
    requires Distinct(seen) && PopState(seen, e, rest, all)
    requires if e' == null then rest == rest' == {} else e' in rest && rest' == rest - {e'}
    ensures Distinct(seen + [e])
    ensures if e' == null then ElemsOf(seen + [e]) == all else PopState(seen + [e], e', rest', all)
  {
    assert forall x :: x in seen + [e] <==> x in seen || x == e;
    JoinIsDistinct(seen, [e]);
  }
}
