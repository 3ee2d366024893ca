/** The intrusive hash map of libdstr/hashmap.c: buckets of chained elements that all end in one
    shared sentinel, and that are split in place when the table doubles. */
module HashMap {
  import opened Bytes

  datatype Key = Str(s: dstr) | Uint(u: nat)

  /** A hash_elem_t.  `next` is null exactly while the element is in no map; only the sentinel of
      a map, which is never in it, knows the map it belongs to (CONTAINER_OF). */
  class Elem {
    var key: Key
    var hash: nat
    var next: Elem?
    var home: Map?

    constructor ()
      ensures home == null && next == null
    {
      home, key, hash, next := null, Uint(0), 0, null;
    }
  }

  /** `hash & mask`, where the mask is one less than a number of buckets that is a power of two. */
  function Bucket(hash: nat, n: nat): (i: nat)
    requires n > 0
    ensures i < n
  {
    hash % n
  }

  function Pow2(k: nat): (n: nat)
    ensures n > 0
  {
    if k == 0 then 1 else 2 * Pow2(k - 1)
  }

  ghost predicate PowerOfTwo(n: nat) {
    exists k: nat :: n == Pow2(k)
  }

  lemma TwiceIsPowerOfTwo(n: nat)
    requires PowerOfTwo(n)
    ensures PowerOfTwo(2 * n)
  {
    var k: nat :| n == Pow2(k);
    assert 2 * n == Pow2(k + 1);
  }

  /** Whether the bit that doubling adds to the mask is set. */
  predicate Upper(hash: nat, n: nat)
    requires n > 0
  {
    hash / n % 2 == 1
  }

  /** Doubling moves an element by the old number of buckets, or not at all. */
  lemma BucketAfterDoubling(hash: nat, n: nat)
    requires n > 0
    ensures Bucket(hash, 2 * n) == Bucket(hash, n) + if Upper(hash, n) then n else 0
  {
    var q, r := hash / n, hash % n;
    var half, odd := q / 2, q % 2;
    var low := r + odd * n;
    assert hash == half * (2 * n) + low by {
      assert hash == q * n + r;
      assert q * n == (2 * half + odd) * n == half * (2 * n) + odd * n;
    }
    assert 0 <= low < 2 * n;
    RemainderIs(hash, 2 * n, half, low);
  }

  lemma RemainderIs(x: nat, m: nat, k: nat, low: nat)
    requires low < m && x == k * m + low
    ensures x % m == low
  {
    var q, r := x / m, x % m;
    var d := k - q;
    assert d * m == r - low by { assert x == q * m + r; }
    assert d >= 1 ==> d * m >= m;
    assert d <= -1 ==> d * m + m <= 0;
  }

  /** The machine's `a & b`. */
  function BitAnd(a: nat, b: nat): nat {
    if a == 0 || b == 0 then 0 else 2 * BitAnd(a / 2, b / 2) + if a % 2 == 1 && b % 2 == 1 then 1 else 0
  }

  /** With a power of two of buckets, `hash & mask` is the remainder. */
  lemma {:induction false} MaskIsRemainder(hash: nat, k: nat)
    ensures BitAnd(hash, Pow2(k) - 1) == Bucket(hash, Pow2(k))
  {
    hide BitAnd;
    if k == 0 {
      AndWithZero(hash);
    } else {
      var half := Pow2(k - 1);
      MaskIsRemainder(hash / 2, k - 1);
      AndWithOnes(hash, half);
      RemainderByTwice(hash, half);
    }
  }

  lemma AndWithZero(hash: nat)
    ensures BitAnd(hash, 0) == 0 && hash % 1 == 0
  {
    RemainderIs(hash, 1, hash, 0);
  }

  lemma AndWithOnes(hash: nat, half: nat)
    requires half > 0
    ensures BitAnd(hash, 2 * half - 1) == 2 * BitAnd(hash / 2, half - 1) + hash % 2
  {
    assert (2 * half - 1) / 2 == half - 1 && (2 * half - 1) % 2 == 1;
  }

  lemma RemainderByTwice(h: nat, n: nat)
    requires n > 0
    ensures h % (2 * n) == 2 * (h / 2 % n) + h % 2
  {
    var q, r := h / 2 / n, h / 2 % n;
    assert h == q * (2 * n) + (2 * r + h % 2) by {
      assert h / 2 == q * n + r;
      assert 2 * (q * n) == q * (2 * n);
    }
    RemainderIs(h, 2 * n, q, 2 * r + h % 2);
  }

  /** `hash & upper_bit` tests the bit that doubling adds. */
  lemma {:induction false} UpperBitIsUpper(hash: nat, k: nat)
    ensures BitAnd(hash, Pow2(k)) != 0 <==> Upper(hash, Pow2(k))
  {
    if k > 0 {
      var half := Pow2(k - 1);
      UpperBitIsUpper(hash / 2, k - 1);
      QuotientByTwice(hash, half);
    }
  }

  lemma QuotientByTwice(h: nat, n: nat)
    requires n > 0
    ensures h / (2 * n) == h / 2 / n
  {
    var q, r := h / 2 / n, h / 2 % n;
    var low := 2 * r + h % 2;
    assert h == q * (2 * n) + low by {
      assert h / 2 == q * n + r;
      assert 2 * (q * n) == q * (2 * n);
    }
    RemainderIs(h, 2 * n, q, low);
    assert h / (2 * n) * (2 * n) == q * (2 * n);
    SameQuotient(h / (2 * n), q, 2 * n);
  }

  lemma SameQuotient(x: nat, y: nat, m: nat)
    requires m > 0 && x * m == y * m
    ensures x == y
  {
    assert (x - y) * m == 0;
    assert x > y ==> (x - y) * m >= m;
    assert x < y ==> (y - x) * m >= m;
  }

  /* ---------- chains ---------- */

  function Link(c: seq<Elem>, k: nat, s: Elem): (e: Elem) {
    if k < |c| then c[k] else s
  }

  ghost function ElemsOf(c: seq<Elem>): (s: set<Elem>) {
    set e | e in c
  }

  lemma InElems(c: seq<Elem>, e: Elem)
    ensures e in ElemsOf(c) <==> e in c
  {
  }

  ghost predicate Distinct(c: seq<Elem>) {
    forall k, l :: 0 <= k < l < |c| ==> c[k] != c[l]
  }

  /** The elements of `c`, linked from `head` to the sentinel `s`. */
  ghost predicate Linked(head: Elem, c: seq<Elem>, s: Elem)
    reads c`next
  {
    && head == Link(c, 0, s) && s !in c && Distinct(c)
    && forall k {:trigger c[k]} :: 0 <= k < |c| ==> c[k].next == Link(c, k + 1, s)
  }

  /** The elements of `front`, linked to each other; the last one may point anywhere. */
  ghost predicate Path(head: Elem, front: seq<Elem>)
    reads front`next
  {
    && (front != [] ==> head == front[0])
    && forall k {:trigger front[k]} :: 0 <= k < |front| - 1 ==> front[k].next == front[k + 1]
  }

  lemma FrontOfChain(head: Elem, c: seq<Elem>, s: Elem, k: nat)
    requires Linked(head, c, s) && k <= |c|
    ensures Path(head, c[..k]) && Linked(Link(c, k, s), c[k..], s)
  {
    assert forall l {:trigger c[k..][l]} :: 0 <= l < |c[k..]| ==> c[k..][l] == c[k + l];
    assert forall l {:trigger c[..k][l]} :: 0 <= l < k ==> c[..k][l] == c[l];
  }

  ghost function Only(e: Elem?): (s: set<Elem>) {
    if e == null then {} else {e}
  }

  /** Point `prev`, or the bucket itself, to `x`: what precedes it is now followed by `tail`. */
  method SetLink(buckets: array<Elem>, idx: nat, prev: Elem?, x: Elem, s: Elem,
                 ghost front: seq<Elem>, ghost tail: seq<Elem>)
    requires idx < buckets.Length && Path(buckets[idx], front)
    requires prev == if front == [] then null else front[|front| - 1]
    requires Linked(x, tail, s) && s !in front
    requires Distinct(front + tail)
    modifies buckets, Only(prev)`next
    ensures Linked(buckets[idx], front + tail, s)
    ensures forall j :: 0 <= j < buckets.Length && j != idx ==> buckets[j] == old(buckets[j])
  {
    ghost var c := front + tail;
    assert forall k {:trigger c[k]} :: 0 <= k < |c| ==> c[k] == if k < |front| then front[k] else tail[k - |front|];
    forall k, l | 0 <= k < |tail| && 0 <= l < |front|
      ensures front[l] != tail[k]
    {
      assert c[l] != c[|front| + k];
    }
    if prev == null {
      buckets[idx] := x;
    } else {
      prev.next := x;
    }
    forall k | 0 <= k < |c|
      ensures c[k].next == Link(c, k + 1, s)
    {
      if k < |front| - 1 {
        assert front[k] == c[k] && c[k] != c[|front| - 1];
      }
    }
  }

  /* ---------- splitting buckets ---------- */

  /** Where doubling keeps an element while the first `i` of `n` buckets are split. */
  ghost function Where(h: nat, n: nat, i: nat): (j: nat)
    requires n > 0
  {
    if Bucket(h, n) < i then Bucket(h, 2 * n) else Bucket(h, n)
  }

  lemma WhereNext(h: nat, n: nat, i: nat)
    requires n > 0 && i < n
    ensures if Bucket(h, n) == i
      then Where(h, n, i) == i && Where(h, n, i + 1) == if Upper(h, n) then i + n else i
      else Where(h, n, i) == Where(h, n, i + 1) && Where(h, n, i) != i && Where(h, n, i) != i + n
    ensures Where(h, n, i) < 2 * n && Where(h, n, i + 1) < 2 * n
  {
    hide Bucket, Upper;
    BucketAfterDoubling(h, n);
  }

  ghost predicate Filed(nc: seq<seq<Elem>>, es: set<Elem>, n: nat, i: nat)
    requires |nc| == 2 * n > 0
    reads es`hash
  {
    && (forall j, e :: 0 <= j < |nc| && e in nc[j] ==> e in es && Where(e.hash, n, i) == j)
    && (forall e :: e in es ==> Where(e.hash, n, i) < 2 * n && e in nc[Where(e.hash, n, i)])
  }

  ghost predicate SplitUpTo(nb: array<Elem>, nc: seq<seq<Elem>>, es: set<Elem>, n: nat, i: nat, s: Elem)
    requires |nc| == nb.Length == 2 * n > 0
    reads nb, es`hash, es`next
  {
    Filed(nc, es, n, i) && forall j :: 0 <= j < |nc| ==> Linked(nb[j], nc[j], s)
  }

  /** Split one chain by the bit that doubling adds. */
  method SplitChain(head: Elem, ghost c: seq<Elem>, s: Elem, n: nat)
    returns (lo: Elem, hi: Elem, ghost cl: seq<Elem>, ghost ch: seq<Elem>)
    requires Linked(head, c, s) && n > 0
    modifies ElemsOf(c)`next
    ensures Linked(lo, cl, s) && Linked(hi, ch, s)
    ensures forall e :: e in cl <==> e in c && !Upper(e.hash, n)
    ensures forall e :: e in ch <==> e in c && Upper(e.hash, n)
  {
    hide Upper, Linked;
    ghost var rest := c;
    var e: Elem := head;
    lo, hi, cl, ch := s, s, [], [];
    EmptyChain(s);
    while e != s
      invariant Linked(e, rest, s) && Linked(lo, cl, s) && Linked(hi, ch, s)
      invariant forall x :: x in c <==> x in rest || x in cl || x in ch
      invariant forall x :: x in cl ==> x !in rest && !Upper(x.hash, n)
      invariant forall x :: x in ch ==> x !in rest && Upper(x.hash, n)
      decreases |rest|
    {
      HeadOfChain(e, rest, s);
      var next: Elem := e.next;
      rest := rest[1..];
      if Upper(e.hash, n) {
        e.next := hi;
        Prepend(e, ch, s);
        hi, ch := e, [e] + ch;
      } else {
        e.next := lo;
        Prepend(e, cl, s);
        lo, cl := e, [e] + cl;
      }
      e := next;
    }
    HeadOfChain(e, rest, s);
  }

  lemma LinksOf(head: Elem, c: seq<Elem>, s: Elem, k: nat)
    requires Linked(head, c, s)
    ensures head == Link(c, 0, s) && s !in c
    ensures k < |c| ==> c[k].next == Link(c, k + 1, s) && c[k] != s
  {
  }

  lemma HasDistinct(head: Elem, c: seq<Elem>, s: Elem)
    requires Linked(head, c, s)
    ensures Distinct(c) && s !in c
  {
  }

  lemma EmptyChain(s: Elem)
    ensures Linked(s, [], s)
  {
  }

  lemma HeadOfChain(e: Elem, c: seq<Elem>, s: Elem)
    requires Linked(e, c, s)
    ensures e == s <==> c == []
    ensures e != s ==>
              && c[0] == e && e.next != null && Linked(e.next, c[1..], s) && e !in c[1..]
              && (forall x :: x in c <==> x == e || x in c[1..])
  {
    if c != [] {
      FrontOfChain(e, c, s, 1);
      assert c == [c[0]] + c[1..];
    }
  }

  lemma Prepend(e: Elem, c: seq<Elem>, s: Elem)
    requires e != s && e !in c && e.next != null && Linked(e.next, c, s)
    ensures Linked(e, [e] + c, s)
  {
  }

  method SplitInto(nb: array<Elem>, ghost c: seq<Elem>, n: nat, i: nat, s: Elem)
    returns (ghost cl: seq<Elem>, ghost ch: seq<Elem>)
    requires nb.Length == 2 * n && i < n && Linked(nb[i], c, s)
    modifies nb, ElemsOf(c)`next
    ensures Linked(nb[i], cl, s) && Linked(nb[i + n], ch, s)
    ensures forall e :: e in cl <==> e in c && !Upper(e.hash, n)
    ensures forall e :: e in ch <==> e in c && Upper(e.hash, n)
    ensures forall j :: 0 <= j < 2 * n && j != i && j != i + n ==> nb[j] == old(nb[j])
  {
    hide Upper, Linked, ElemsOf;
    var lo: Elem, hi: Elem;
    lo, hi, cl, ch := SplitChain(nb[i], c, s, n);
    nb[i], nb[i + n] := lo, hi;
  }

  /** The body of the loop of check_rehash. */
  method SplitBucket(nb: array<Elem>, ghost nc: seq<seq<Elem>>, ghost es: set<Elem>, n: nat, i: nat, s: Elem)
    returns (ghost nc': seq<seq<Elem>>)
    requires |nc| == nb.Length == 2 * n && i < n && s !in es
    requires SplitUpTo(nb, nc, es, n, i, s)
    modifies nb, es`next
    ensures |nc'| == nb.Length && SplitUpTo(nb, nc', es, n, i + 1, s)
  {
    hide Bucket, Upper, Where, Linked, Filed, ElemsOf, SplitUpTo;
    ghost var c := nc[i];
    ApartFrom(nb, nc, es, n, i, s);
    var cl, ch := SplitInto(nb, c, n, i, s);
    nc' := nc[i := cl][i + n := ch];
    FiledNext(nc, cl, ch, es, n, i);
    forall j | 0 <= j < 2 * n
      ensures Linked(nb[j], nc'[j], s)
    {
      if j != i && j != i + n {
        ghost var es' := ElemsOf(nc[j]);
        assert forall x :: x in es' ==> x in es && x !in ElemsOf(c);
        assert forall x :: x in es' ==> x.next == old(x.next);
        SameChain((nb[j], nc[j], s));
      }
    }
    LinksMakeAll(nb, nc', es, n, i + 1, s);
  }

  lemma LinksMakeAll(nb: array<Elem>, nc: seq<seq<Elem>>, es: set<Elem>, n: nat, i: nat, s: Elem)
    requires |nc| == nb.Length == 2 * n > 0 && Filed(nc, es, n, i)
    requires forall j :: 0 <= j < 2 * n ==> Linked(nb[j], nc[j], s)
    ensures SplitUpTo(nb, nc, es, n, i, s)
  {
    hide Filed, Linked;
  }

  /** A chain (its head, its elements, its sentinel) lasts while its links do. */
  twostate lemma SameChain(chain: (Elem, seq<Elem>, Elem))
    requires old(Linked(chain.0, chain.1, chain.2)) && forall x :: x in ElemsOf(chain.1) ==> x.next == old(x.next)
    ensures Linked(chain.0, chain.1, chain.2)
  {
  }

  /** The chains in a table, and that the chain `i` shares nothing with the others. */
  lemma ApartFrom(nb: array<Elem>, nc: seq<seq<Elem>>, es: set<Elem>, n: nat, i: nat, s: Elem)
    requires |nc| == nb.Length == 2 * n && i < n && SplitUpTo(nb, nc, es, n, i, s)
    ensures Filed(nc, es, n, i) && ElemsOf(nc[i]) <= es && Linked(nb[i], nc[i], s)
    ensures forall j :: 0 <= j < 2 * n ==> Linked(nb[j], nc[j], s)
    ensures forall j, x :: 0 <= j < 2 * n && j != i && x in ElemsOf(nc[j]) ==> x in es && x !in ElemsOf(nc[i])
  {
    hide Where, Linked;
  }

  lemma FiledNext(nc: seq<seq<Elem>>, cl: seq<Elem>, ch: seq<Elem>, es: set<Elem>, n: nat, i: nat)
    requires |nc| == 2 * n && i < n && Filed(nc, es, n, i)
    requires forall e :: e in cl <==> e in nc[i] && !Upper(e.hash, n)
    requires forall e :: e in ch <==> e in nc[i] && Upper(e.hash, n)
    ensures Filed(nc[i := cl][i + n := ch], es, n, i + 1)
  {
    hide Bucket, Upper, Where;
    var d := nc[i := cl][i + n := ch];
    forall j, e | 0 <= j < |d| && e in d[j]
      ensures e in es && Where(e.hash, n, i + 1) == j
    {
      WhereNext(e.hash, n, i);
    }
    forall e | e in es
      ensures Where(e.hash, n, i + 1) < 2 * n && e in d[Where(e.hash, n, i + 1)]
    {
      WhereNext(e.hash, n, i);
    }
  }

  /** The elements `es` are exactly the values of `m`, under their own keys; there are `n`. */
  ghost predicate Agree(es: set<Elem>, m: map<Key, Elem>, n: nat)
    reads es`key
  {
    && (forall e :: e in es ==> e.key in m && m[e.key] == e)
    && (forall k :: k in m ==> m[k] in es && m[k].key == k)
    && n == |m|
  }

  lemma InAgreement(es: set<Elem>, m: map<Key, Elem>, n: nat, e: Elem)
    requires Agree(es, m, n) && e in es
    ensures e.key in m && m[e.key] == e
  {
  }

  class Map {
    const hash: Key -> nat
    const sentinel: Elem
    var buckets: array<Elem>
    var numElems: nat
    ghost var chains: seq<seq<Elem>>
    ghost var members: set<Elem>
    ghost var M: map<Key, Elem>

    ghost predicate Valid()
      reads this, buckets, sentinel, members
    {
      Shaped() && Placed() && Chained() && Mapped()
    }

    ghost predicate Shaped()
      reads this`chains, this`buckets, this`members, sentinel`home, sentinel`next
    {
      && sentinel.home == this && sentinel.next == null && sentinel !in members
      && |chains| == buckets.Length > 0 && PowerOfTwo(buckets.Length)
    }

    /** Every element is in the bucket of its hash, and nowhere else. */
    ghost predicate Placed()
      reads this`chains, this`buckets, this`members, members`key, members`hash, members`home
      requires |chains| == buckets.Length > 0
    {
      && (forall i, e :: 0 <= i < |chains| && e in chains[i] ==>
            e in members && Bucket(e.hash, buckets.Length) == i)
      && (forall e :: e in members ==>
            e.hash == hash(e.key) && e.home == null && e in chains[Bucket(e.hash, buckets.Length)])
    }

    ghost predicate Chained()
      reads this`chains, this`buckets, this`members, buckets, members
      requires |chains| == buckets.Length > 0 && Placed()
    {
      forall i :: 0 <= i < |chains| ==> Linked(buckets[i], chains[i], sentinel)
    }

    /** The elements are the values of a plain map. */
    ghost predicate Mapped()
      reads this`members, this`M, this`numElems, members`key
    {
      Agree(members, M, numElems)
    }

    /** hashmap_init */
    constructor (hash: Key -> nat)
      ensures Valid() && M == map[] && this.hash == hash
      ensures numElems == 0 && buckets.Length == 32
      ensures fresh(buckets) && fresh(sentinel)
    {
      this.hash := hash;
      numElems, members, M := 0, {}, map[];
      chains := seq(32, i => []);
      var s := new Elem();
      sentinel := s;
      buckets := new Elem[32](i => s);
      new;
      sentinel.home := this;
      assert buckets.Length == Pow2(5);
    }

    /** The chain in which a key belongs. */
    ghost function ChainOf(key: Key): (c: seq<Elem>)
      reads this, buckets
      requires |chains| == buckets.Length > 0
    {
      chains[Bucket(hash(key), buckets.Length)]
    }

    /** The links of one chain. */
    lemma ChainLinks(i: nat, k: nat)
      requires Valid() && i < |chains|
      ensures buckets[i] == Link(chains[i], 0, sentinel) && sentinel !in chains[i]
      ensures k < |chains[i]| ==>
                && chains[i][k] in members && chains[i][k].next == Link(chains[i], k + 1, sentinel)
                && chains[i][k] != sentinel && Bucket(chains[i][k].hash, buckets.Length) == i
                && chains[i][k].key in M && M[chains[i][k].key] == chains[i][k]
                && chains[i][k].hash == hash(chains[i][k].key)
    {
      hide Bucket, PowerOfTwo, Linked, Agree;
      LinksOf(buckets[i], chains[i], sentinel, k);
      if k < |chains[i]| {
        var e := chains[i][k];
        assert e in chains[i] && e in members;
        InAgreement(members, M, numElems, e);
      }
    }

    lemma KeyInItsChain(key: Key) returns (k: nat)
      requires Valid()
      ensures key in M ==> k < |ChainOf(key)| && ChainOf(key)[k].key == key && ChainOf(key)[k] == M[key]
    {
      hide Bucket, PowerOfTwo, Linked;
      k := 0;
      if key in M {
        assert M[key] in ChainOf(key);
        k :| 0 <= k < |ChainOf(key)| && ChainOf(key)[k] == M[key];
      }
    }

    /** The bucket walk that all operations share: it finds the element with the key, if there is
        one, and what points to it (null for the bucket itself). */
    method FindIn(key: Key) returns (prev: Elem?, e: Elem, ghost k: nat)
      requires Valid()
      ensures k <= |ChainOf(key)| && e == Link(ChainOf(key), k, sentinel)
      ensures prev == if k == 0 then null else ChainOf(key)[k - 1]
      ensures e == if key in M then M[key] else sentinel
      ensures key in M <==> k < |ChainOf(key)| && e in members
    {
      hide Bucket, PowerOfTwo, Placed, Chained, Mapped;
      var idx := Bucket(hash(key), buckets.Length);
      ghost var c := chains[idx];
      ChainLinks(idx, 0);
      ghost var l := KeyInItsChain(key);
      prev, e, k := null, buckets[idx], 0;
      while e != sentinel
        invariant k <= |c| && e == Link(c, k, sentinel)
        invariant prev == if k == 0 then null else c[k - 1]
        invariant key in M ==> k <= l
        decreases |c| - k
      {
        ChainLinks(idx, k);
        if e.key == key {
          return;
        }
        prev, e, k := e, e.next, k + 1;
      }
    }

    /** hashmap_get */
    method Get(key: Key) returns (e: Elem?)
      requires Valid()
      ensures e == if key in M then M[key] else null
    {
      hide Bucket, PowerOfTwo, Placed, Chained, Mapped;
      var prev, found, k := FindIn(key);
      e := if found == sentinel then null else found;
    }

    /** What one operation does to the bucket `idx`: the elements `gone` leave its chain and
        `added` join it; the other chains and the sentinel stay what they were. */
    twostate predicate Rechained(new idx: nat, new gone: set<Elem>, new added: set<Elem>)
      reads this, buckets, sentinel
    {
      && buckets == old(buckets) && |chains| == |old(chains)| == buckets.Length
      && idx < |chains| && sentinel.home == old(sentinel.home) && sentinel.next == old(sentinel.next)
      && sentinel !in added
      && (forall j :: 0 <= j < |chains| && j != idx ==>
            chains[j] == old(chains)[j] && buckets[j] == old(buckets[j]))
      && gone <= ElemsOf(old(chains)[idx])
      && ElemsOf(chains[idx]) == ElemsOf(old(chains)[idx]) - gone + added
      && members == old(members) - gone + added
    }

    /** The fields of an element that fix its place. */
    twostate predicate SameKey(e: Elem)
      reads e
    {
      e.key == old(e.key) && e.hash == old(e.hash) && e.home == old(e.home)
    }

    ghost predicate BelongsIn(e: Elem, idx: nat)
      reads this`buckets, e
      requires buckets.Length > 0
    {
      e.hash == hash(e.key) && e.home == null && Bucket(e.hash, buckets.Length) == idx
    }

    twostate lemma StaysPlaced(new idx: nat, new gone: set<Elem>, new added: set<Elem>)
      requires old(Valid()) && Rechained(idx, gone, added)
      requires forall e :: e in old(members) ==> SameKey(e)
      requires forall e :: e in added ==> BelongsIn(e, idx)
      ensures Shaped() && Placed()
    {
      hide Bucket, PowerOfTwo, Linked, Chained, Agree, ElemsOf;
      forall e | e in gone
        ensures e in old(chains)[idx] && old(Bucket(e.hash, buckets.Length)) == idx
      {
        InElems(old(chains)[idx], e);
      }
      forall i, e | 0 <= i < |chains| && e in chains[i]
        ensures e in members && Bucket(e.hash, buckets.Length) == i
      {
        InElems(chains[i], e);
        InElems(old(chains)[i], e);
      }
      forall e | e in members
        ensures e.hash == hash(e.key) && e.home == null && e in chains[Bucket(e.hash, buckets.Length)]
      {
        InElems(chains[Bucket(e.hash, buckets.Length)], e);
        InElems(old(chains)[Bucket(e.hash, buckets.Length)], e);
      }
    }

    twostate lemma StaysChained(new idx: nat, new gone: set<Elem>, new added: set<Elem>)
      requires old(Valid()) && Rechained(idx, gone, added) && Placed()
      requires Linked(buckets[idx], chains[idx], sentinel)
      requires forall e :: e in old(members) && e.next != old(e.next) ==>
                 Bucket(old(e.hash), buckets.Length) == idx
      ensures Chained()
    {
      hide Bucket, PowerOfTwo, Linked, Placed, Agree, ElemsOf;
      forall j | 0 <= j < |chains| && j != idx
        ensures Linked(buckets[j], chains[j], sentinel)
      {
        OtherLinks(idx, gone, added, j);
        assert old(Linked(buckets[j], chains[j], sentinel));
        SameChain((buckets[j], chains[j], sentinel));
      }
    }

    twostate lemma OtherLinks(new idx: nat, new gone: set<Elem>, new added: set<Elem>, new j: nat)
      requires old(Valid()) && Rechained(idx, gone, added) && j != idx && j < |chains|
      requires forall e :: e in old(members) && e.next != old(e.next) ==>
                 Bucket(old(e.hash), buckets.Length) == idx
      ensures chains[j] == old(chains[j]) && forall e :: e in ElemsOf(chains[j]) ==> e.next == old(e.next)
    {
      hide Bucket, PowerOfTwo, Linked, Chained, Agree;
      forall e | e in ElemsOf(chains[j])
        ensures e.next == old(e.next)
      {
        assert e in old(chains)[j];
      }
    }

    /** Point `prev`, or the bucket itself, to `x`, so that the chain becomes `front + tail`. */
    method Relink(idx: nat, prev: Elem?, x: Elem, ghost front: seq<Elem>, ghost tail: seq<Elem>,
                  ghost gone: set<Elem>, ghost added: set<Elem>)
      requires Valid() && idx < buckets.Length && Path(buckets[idx], front)
      requires prev == if front == [] then null else front[|front| - 1]
      requires Linked(x, tail, sentinel) && Distinct(front + tail)
      requires ElemsOf(front) <= ElemsOf(chains[idx]) && gone <= ElemsOf(chains[idx])
      requires ElemsOf(front + tail) == ElemsOf(chains[idx]) - gone + added
      requires sentinel !in added && forall e :: e in added ==> BelongsIn(e, idx)
      modifies this`chains, this`members, buckets, members`next
      ensures chains == old(chains)[idx := front + tail]
      ensures members == old(members) - gone + added
      ensures Shaped() && Placed() && Chained()
    {
      hide Bucket, PowerOfTwo, Placed, Chained, Mapped, Linked, Path, ElemsOf, Distinct;
      InFront(idx, front);
      SetLink(buckets, idx, prev, x, sentinel, front, tail);
      chains := chains[idx := front + tail];
      members := members - gone + added;
      StaysPlaced(idx, gone, added);
      StaysChained(idx, gone, added);
    }

    lemma InFront(idx: nat, front: seq<Elem>)
      requires Valid() && idx < |chains| && ElemsOf(front) <= ElemsOf(chains[idx])
      ensures sentinel !in front
      ensures forall e :: e in front ==> e in members && Bucket(e.hash, buckets.Length) == idx
    {
      hide Bucket, PowerOfTwo, Linked, Agree, Placed, Chained;
      ChainLinksAll(idx);
      HasDistinct(buckets[idx], chains[idx], sentinel);
      forall e | e in front
        ensures e in chains[idx]
      {
        assert e in ElemsOf(front);
      }
    }

    /** An element that has left its chain is no longer counted, and says that it is in no map. */
    method Forget(e: Elem)
      requires Shaped() && Placed() && Chained()
      requires e !in members && e != sentinel && numElems > 0
      requires Agree(members, M - {e.key}, numElems - 1)
      modifies this`M, this`numElems, e`next
      ensures Valid() && M == old(M) - {e.key} && e.next == null
    {
      hide Bucket, PowerOfTwo, Placed, Chained, Agree;
      e.next := null;
      numElems := numElems - 1;
      M := M - {e.key};
    }

    /** Take the element `k` of the chain `idx` out of it. */
    method Unlink(idx: nat, ghost k: nat, prev: Elem?, e: Elem)
      requires Valid() && idx < buckets.Length && k < |chains[idx]| && e == chains[idx][k]
      requires prev == if k == 0 then null else chains[idx][k - 1]
      modifies this`chains, this`members, this`M, this`numElems, buckets, members`next
      ensures Valid()
      ensures M == old(M) - {e.key} && members == old(members) - {e} && e.next == null
      ensures chains == old(chains)[idx := old(chains)[idx][..k] + old(chains)[idx][k + 1..]]
    {
      hide Bucket, PowerOfTwo, Placed, Chained, Agree, Mapped, Linked, Path, ElemsOf, Distinct;
      ghost var c := chains[idx];
      ChainLinks(idx, k);
      CutsOfChain(idx, k);
      MappedWithout(e);
      NoneAdded(members - {e});
      Relink(idx, prev, e.next, c[..k], c[k + 1..], {e}, {});
      Forget(e);
    }

    /** The chain `idx` around its element `k`. */
    lemma CutsOfChain(idx: nat, k: nat)
      requires Valid() && idx < |chains| && k < |chains[idx]|
      ensures var c := chains[idx];
        && Path(buckets[idx], c[..k])
        && c[k].next != null && Linked(c[k].next, c[k + 1..], sentinel)
        && (k > 0 ==> c[..k] != [] && c[..k][|c[..k]| - 1] == c[k - 1])
        && Distinct(c[..k] + c[k + 1..])
        && ElemsOf(c[..k]) <= ElemsOf(c) && {c[k]} <= ElemsOf(c)
        && ElemsOf(c[..k] + c[k + 1..]) == ElemsOf(c) - {c[k]} + {}
    {
      hide Bucket, PowerOfTwo, Linked, Path, Distinct, Placed, Chained, Agree;
      var c := chains[idx];
      ChainLinks(idx, k);
      ChainLinksAll(idx);
      FrontOfChain(buckets[idx], c, sentinel, k);
      FrontOfChain(buckets[idx], c, sentinel, k + 1);
      WithoutOne(c, k);
      assert forall e :: e in c[..k] ==> e in c;
    }

    /** The plain map without one of its elements. */
    lemma MappedWithout(e: Elem)
      requires Mapped() && e in members
      ensures numElems > 0 && Agree(members - {e}, M - {e.key}, numElems - 1)
    {
      assert (M - {e.key}).Keys == M.Keys - {e.key};
    }

    lemma ChainLinksAll(i: nat)
      requires Valid() && i < |chains|
      ensures Linked(buckets[i], chains[i], sentinel) && Distinct(chains[i])
      ensures forall e :: e in chains[i] ==> e in members && Bucket(e.hash, buckets.Length) == i
    {
      hide Bucket, PowerOfTwo, Agree, Linked;
      HasDistinct(buckets[i], chains[i], sentinel);
    }

    /** hashmap_del */
    method Del(key: Key) returns (deleted: Elem?)
      requires Valid()
      modifies this`chains, this`members, this`M, this`numElems, buckets, members`next
      ensures Valid()
      ensures deleted == if key in old(M) then old(M)[key] else null
      ensures M == old(M) - {key}
      ensures deleted != null ==> deleted.next == null && members == old(members) - {deleted}
    {
      hide Bucket, PowerOfTwo, Placed, Chained, Mapped, Linked;
      var prev, e, k := FindIn(key);
      if e == sentinel {
        assert M - {key} == M;
        return null;
      }
      var idx := Bucket(hash(key), buckets.Length);
      ChainLinks(idx, k);
      MappedKeys();
      Unlink(idx, k, prev, e);
      deleted := e;
    }

    lemma EmptyMap()
      requires Valid() && members == {}
      ensures M == map[] && numElems == 0
    {
      hide Bucket, PowerOfTwo, Placed, Chained;
      assert M.Keys == {};
    }

    lemma MappedKeys()
      requires Valid()
      ensures forall key :: key in M ==> M[key].key == key && M[key] in members
    {
      hide Bucket, PowerOfTwo, Placed, Chained;
    }

    /* ---------- insertion ---------- */

    /** A new element after the whole chain `idx`. */
    lemma AppendToChain(idx: nat, elem: Elem)
      requires Valid() && idx < |chains| && elem !in members && elem != sentinel && elem.next == sentinel
      ensures var c := chains[idx];
        && Path(buckets[idx], c) && Linked(elem, [elem], sentinel) && Distinct(c + [elem])
        && ElemsOf(c) <= ElemsOf(c) && {} <= ElemsOf(c)
        && ElemsOf(c + [elem]) == ElemsOf(c) - {} + {elem}
    {
      hide Bucket, PowerOfTwo, Placed, Chained, Agree;
      var c := chains[idx];
      ChainLinksAll(idx);
      FrontOfChain(buckets[idx], c, sentinel, |c|);
      assert c[..|c|] == c;
      assert forall e :: e in c + [elem] <==> e in c || e == elem;
    }

    /** A new element in the place of element `k` of the chain `idx`. */
    lemma ReplaceInChain(idx: nat, k: nat, elem: Elem)
      requires Valid() && idx < |chains| && k < |chains[idx]|
      requires elem !in members && elem != sentinel && elem.next == chains[idx][k].next
      ensures var c := chains[idx];
        && Linked(elem, [elem] + c[k + 1..], sentinel)
        && Distinct(c[..k] + ([elem] + c[k + 1..]))
        && ElemsOf(c[..k] + ([elem] + c[k + 1..])) == ElemsOf(c) - {c[k]} + {elem}
    {
      hide Bucket, PowerOfTwo, Placed, Chained, Agree, Path;
      var c := chains[idx];
      ChainLinks(idx, k);
      ChainLinksAll(idx);
      FrontOfChain(buckets[idx], c, sentinel, k + 1);
      WithoutOne(c, k);
      WithOther(c, k, elem);
    }

    lemma MappedWith(e: Elem)
      requires Mapped() && e !in members && e.key !in M
      ensures Agree(members + {e}, M[e.key := e], numElems + 1)
    {
      assert M[e.key := e].Keys == M.Keys + {e.key};
    }

    lemma MappedInstead(e: Elem, elem: Elem)
      requires Mapped() && e in members && elem !in members && elem.key == e.key
      ensures Agree(members - {e} + {elem}, M[elem.key := elem], numElems)
    {
      assert M[elem.key := elem].Keys == M.Keys;
    }

    method Count(elem: Elem)
      requires Shaped() && Placed() && Chained()
      requires Agree(members, M[elem.key := elem], numElems + 1)
      modifies this`M, this`numElems
      ensures Valid() && M == old(M)[elem.key := elem] && numElems == old(numElems) + 1
    {
      hide Bucket, PowerOfTwo, Placed, Chained, Agree;
      M := M[elem.key := elem];
      numElems := numElems + 1;
    }

    method Displace(e: Elem, elem: Elem)
      requires Shaped() && Placed() && Chained()
      requires e !in members && e != sentinel
      requires Agree(members, M[elem.key := elem], numElems)
      modifies this`M, e`next
      ensures Valid() && M == old(M)[elem.key := elem] && e.next == null
    {
      hide Bucket, PowerOfTwo, Placed, Chained, Agree;
      e.next := null;
      M := M[elem.key := elem];
    }

    lemma NotInMap(elem: Elem)
      requires Valid() && elem.next == null && elem.home == null
      ensures elem !in members && elem != sentinel
    {
      hide Bucket, PowerOfTwo, Placed, Chained, Agree;
      MembersAreLinked();
    }

    lemma MembersAreLinked()
      requires Valid()
      ensures forall e :: e in members ==> e.next != null && e.home == null && Bucket(e.hash, buckets.Length) < |chains|
    {
      hide Bucket, PowerOfTwo;
      forall e | e in members
        ensures e.next != null
      {
        var i := Bucket(e.hash, buckets.Length);
        assert Linked(buckets[i], chains[i], sentinel);
        var k :| 0 <= k < |chains[i]| && chains[i][k] == e;
        assert chains[i][k].next == Link(chains[i], k + 1, sentinel);
      }
    }

    lemma PlaceOf(e: Elem) returns (k: nat)
      requires Valid() && e in members
      ensures var i := Bucket(e.hash, buckets.Length); k < |chains[i]| && chains[i][k] == e
    {
      hide Bucket, PowerOfTwo, Linked, Agree;
      var i := Bucket(e.hash, buckets.Length);
      assert e in chains[i];
      k :| 0 <= k < |chains[i]| && chains[i][k] == e;
    }

    /** hashmap_elem_init */
    method Rekey(elem: Elem, key: Key)
      requires Valid() && elem !in members && elem != sentinel
      modifies elem`key, elem`hash
      ensures Valid() && elem.key == key && elem.hash == hash(key)
    {
      hide Bucket, PowerOfTwo, Placed, Chained, Agree;
      elem.key := key;
      elem.hash := hash(key);
    }

    /* ---------- doubling ---------- */

    /** check_rehash */
    method CheckRehash(reallocOk: bool)
      requires Valid()
      modifies this`buckets, this`chains, members`next
      ensures Valid()
      ensures buckets.Length == old(buckets.Length) * if reallocOk && numElems >= old(buckets.Length) then 2 else 1
      ensures buckets == old(buckets) || fresh(buckets)
    {
      hide Bucket, PowerOfTwo, Placed, Chained, Agree, Linked, Filed, SplitUpTo;
      var n := buckets.Length;
      FullLoad(numElems, n);
      if numElems / n < 1 || !reallocOk {
        return;
      }
      var s, ob := sentinel, buckets;
      var nb := new Elem[2 * n](_ => s);
      var k := 0;
      while k < n
        modifies nb
        invariant 0 <= k <= n
        invariant forall j :: 0 <= j < 2 * n ==> nb[j] == if j < k then ob[j] else s
      {
        nb[k] := ob[k];
        k := k + 1;
      }
      ghost var nc := chains + seq(n, _ => []);
      BeforeSplit(nb, nc, n);
      var i := 0;
      while i < n
        modifies nb, members`next
        invariant 0 <= i <= n && |nc| == nb.Length == 2 * n
        invariant SplitUpTo(nb, nc, members, n, i, s)
        invariant s !in members
      {
        nc := SplitBucket(nb, nc, members, n, i, s);
        i := i + 1;
      }
      Adopt(nb, nc);
    }

    lemma BeforeSplit(nb: array<Elem>, nc: seq<seq<Elem>>, n: nat)
      requires Valid() && n == buckets.Length && nb.Length == 2 * n && nc == chains + seq(n, _ => [])
      requires forall j :: 0 <= j < 2 * n ==> nb[j] == if j < n then buckets[j] else sentinel
      ensures SplitUpTo(nb, nc, members, n, 0, sentinel)
    {
      hide Bucket, PowerOfTwo, Linked;
      EmptyChain(sentinel);
    }

    /** The split table replaces the old one. */
    method Adopt(nb: array<Elem>, ghost nc: seq<seq<Elem>>)
      requires Shaped() && Placed() && Mapped()
      requires |nc| == nb.Length == 2 * buckets.Length
      requires SplitUpTo(nb, nc, members, buckets.Length, buckets.Length, sentinel)
      modifies this`buckets, this`chains
      ensures Valid() && buckets == nb
    {
      hide Bucket, PowerOfTwo, Linked, Agree;
      TwiceIsPowerOfTwo(buckets.Length);
      buckets, chains := nb, nc;
    }

    /** A new key goes to the end of its chain. */
    method Append(idx: nat, ghost k: nat, prev: Elem?, elem: Elem)
      requires Valid() && idx < buckets.Length && k == |chains[idx]|
      requires prev == if k == 0 then null else chains[idx][k - 1]
      requires elem !in members && elem != sentinel && elem.key !in M && BelongsIn(elem, idx)
      modifies this`chains, this`members, this`M, this`numElems, buckets, members`next, elem`next
      ensures Valid() && M == old(M)[elem.key := elem] && members == old(members) + {elem}
      ensures numElems == old(numElems) + 1
      ensures chains == old(chains)[idx := old(chains)[idx] + [elem]]
    {
      hide Bucket, PowerOfTwo, Placed, Chained, Agree, Linked, Path, ElemsOf, Distinct;
      elem.next := sentinel;
      AppendToChain(idx, elem);
      MappedWith(elem);
      ghost var all := members + {elem};
      assert members - {} + {elem} == all;
      Relink(idx, prev, elem, chains[idx], [elem], {}, {elem});
      Count(elem);
    }

    /** A key that is there already gets a new element in the place of the old one. */
    method Replace(idx: nat, ghost k: nat, prev: Elem?, e: Elem, elem: Elem)
      requires Valid() && idx < buckets.Length && k < |chains[idx]| && e == chains[idx][k]
      requires prev == if k == 0 then null else chains[idx][k - 1]
      requires elem !in members && elem != sentinel && elem.key == e.key && BelongsIn(elem, idx)
      modifies this`chains, this`members, this`M, buckets, members`next, elem`next
      ensures Valid() && M == old(M)[elem.key := elem]
      ensures members == old(members) - {e} + {elem} && e.next == null
      ensures var c := old(chains)[idx]; chains == old(chains)[idx := c[..k] + ([elem] + c[k + 1..])]
    {
      hide Bucket, PowerOfTwo, Placed, Chained, Agree, Linked, Path, ElemsOf, Distinct;
      ghost var c := chains[idx];
      ChainLinks(idx, k);
      elem.next := e.next;
      CutsOfChain(idx, k);
      ReplaceInChain(idx, k, elem);
      MappedInstead(e, elem);
      Relink(idx, prev, elem, c[..k], [elem] + c[k + 1..], {e}, {elem});
      Displace(e, elem);
    }

    /** hashmap_set: with `unique` (a null `old`), a key that is already there is an error. */
    method Set(key: Key, elem: Elem, unique: bool, reallocOk: bool)
      returns (ok: bool, replaced: Elem?, inserted: bool)
      requires Valid() && elem.next == null && elem.home == null
      modifies this`buckets, this`chains, this`members, this`M, this`numElems, buckets, members`next
      modifies elem`key, elem`hash, elem`next
      ensures Valid()
      ensures ok <==> !(unique && key in old(M))
      ensures inserted <==> key !in old(M)
      ensures replaced == if key in old(M) && !unique then old(M)[key] else null
      ensures replaced != null ==> replaced.next == null
      ensures if ok then M == old(M)[key := elem] else M == old(M) && members == old(members) && elem.next == null
      ensures ok ==> members == old(members) - (if replaced == null then {} else {replaced}) + {elem}
      ensures numElems == old(numElems) + if inserted then 1 else 0
      ensures reallocOk && old(numElems < buckets.Length) ==> numElems < buckets.Length
      ensures buckets.Length ==
                old(buckets.Length) * if inserted && reallocOk && numElems >= old(buckets.Length) then 2 else 1
    {
      hide Bucket, PowerOfTwo, Placed, Chained, Agree, Linked, Path, ElemsOf, Distinct;
      NotInMap(elem);
      Rekey(elem, key);
      var prev, e, k := FindIn(key);
      var idx := Bucket(hash(key), buckets.Length);
      inserted := e == sentinel;
      ChainLinks(idx, k);
      MappedKeys();
      if !inserted && unique {
        return false, null, false;
      }
      ok := true;
      if inserted {
        replaced := null;
        Append(idx, k, prev, elem);
        CheckRehash(reallocOk);
      } else {
        replaced := e;
        Replace(idx, k, prev, e, elem);
      }
    }
  }

  /** hash_elem_remove: the map is found from the element alone. */
  method Remove(elem: Elem, ghost m: Map) returns (ghost k: nat)
    requires m.Valid() && (elem.next == null || elem in m.members)
    modifies m`chains, m`members, m`M, m`numElems, m.buckets, m.members`next
    ensures m.Valid() && elem.next == null
    ensures m.M == old(m.M) - (if elem in old(m.members) then {elem.key} else {})
    ensures m.members == old(m.members) - {elem}
    ensures elem !in old(m.members) ==> m.chains == old(m.chains)
    ensures elem in old(m.members) ==>
              var i := Bucket(elem.hash, m.buckets.Length);
              var c := old(m.chains)[i];
              k < |c| && c[k] == elem && m.chains == old(m.chains)[i := c[..k] + c[k + 1..]]
  {
    hide Bucket, PowerOfTwo, Map.Placed, Map.Chained, Agree, Map.Mapped;
    k := 0;
    if elem.next == null {
      m.MembersAreLinked();
      return;
    }
    var sentinel := SentinelAfter(elem, m);
    var h := sentinel.home;
    var idx := Bucket(elem.hash, h.buckets.Length);
    m.MembersAreLinked();
    m.ChainLinks(idx, 0);
    ghost var at := m.PlaceOf(elem);
    var prev: Elem?, e: Elem := null, h.buckets[idx];
    while e != sentinel && e != elem
      modifies {}
      invariant k <= at && e == Link(m.chains[idx], k, sentinel)
      invariant prev == if k == 0 then null else m.chains[idx][k - 1]
      decreases at - k
    {
      m.ChainLinks(idx, k);
      prev, e, k := e, e.next, k + 1;
    }
    m.ChainLinks(idx, k);
    assert e == elem;
    m.MappedKeys();
    h.Unlink(idx, k, prev, e);
  }

  /** Follow the links from an element to the end of its chain. */
  method SentinelAfter(elem: Elem, ghost m: Map) returns (s: Elem)
    requires m.Valid() && elem in m.members && elem.next != null
    ensures s == m.sentinel
  {
    hide Bucket, PowerOfTwo, Map.Placed, Map.Chained, Agree, Map.Mapped;
    ghost var k := m.PlaceOf(elem);
    ghost var idx: nat := Bucket(elem.hash, m.buckets.Length);
    m.ChainLinks(idx, k);
    s := elem.next;
    k := k + 1;
    while s.next != null
      invariant k <= |m.chains[idx]| && s == Link(m.chains[idx], k, m.sentinel)
      decreases |m.chains[idx]| - k
    {
      m.ChainLinks(idx, k);
      s, k := s.next, k + 1;
    }
    m.ChainLinks(idx, k);
  }

  lemma FullLoad(elems: nat, n: nat)
    requires n > 0
    ensures elems / n < 1 <==> elems < n
  {
    if elems < n {
      RemainderIs(elems, n, 0, elems);
    }
  }

  lemma NoneAdded(es: set<Elem>)
    ensures es + {} == es
  {
  }

  lemma WithoutOne(c: seq<Elem>, k: nat)
    requires Distinct(c) && k < |c|
    ensures Distinct(c[..k] + c[k + 1..])
    ensures forall e :: e in c[..k] + c[k + 1..] <==> e in c && e != c[k]
    ensures c[k] !in c[..k] && c[k] !in c[k + 1..]
  {
    var d := c[..k] + c[k + 1..];
    assert forall l {:trigger d[l]} :: 0 <= l < |d| ==> d[l] == c[if l < k then l else l + 1];
    forall e | e in c && e != c[k]
      ensures e in d
    {
      var l :| 0 <= l < |c| && c[l] == e;
      assert d[if l < k then l else l - 1] == e;
    }
  }

  lemma WithOther(c: seq<Elem>, k: nat, x: Elem)
    requires Distinct(c) && k < |c| && x !in c
    ensures Distinct(c[..k] + ([x] + c[k + 1..]))
    ensures ElemsOf(c[..k] + ([x] + c[k + 1..])) == ElemsOf(c) - {c[k]} + {x}
  {
    var d := c[..k] + ([x] + c[k + 1..]);
    assert forall l {:trigger d[l]} :: 0 <= l < |d| ==> d[l] == if l == k then x else c[l];
    forall e | e in c && e != c[k]
      ensures e in d
    {
      var l :| 0 <= l < |c| && c[l] == e;
      assert d[l] == e;
    }
    assert d[k] == x;
  }
}
