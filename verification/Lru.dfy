/** The LRU cache of both cache tiers: `LRUCache` in caches/l1_cache.py and caches/l2_cache.py. */
module Lru {
  import opened Text

  /** An OrderedDict: its keys from least to most recently used, and their values. */
  datatype Cache = Cache(order: seq<string>, vals: map<string, string>)

  const EMPTY := Cache([], map[])

  datatype Op = Get(key: string) | Set(key: string, value: string)

  function Without(s: seq<string>, k: string): seq<string> {
    if s == [] then []
    else Without(s[..|s| - 1], k) + (if s[|s| - 1] == k then [] else [s[|s| - 1]])
  }

  function Lookup(c: Cache, k: string): Option<string> {
    if k in c.vals then Some(c.vals[k]) else None
  }

  /** The cache after `get(k)`: a hit becomes most recent, a miss changes nothing. */
  function Touch(c: Cache, k: string): Cache {
    if k in c.vals then c.(order := Without(c.order, k) + [k]) else c
  }

  /** The cache after `set(k, v)`: stored as most recent, then the oldest goes if there are too many. */
  function Store(c: Cache, capacity: nat, k: string, v: string): Cache {
    Evict(Without(c.order, k) + [k], c.vals[k := v], capacity)
  }

  function Evict(order: seq<string>, vals: map<string, string>, capacity: nat): Cache
    requires order != []
  {
    if |order| > capacity then Cache(order[1..], vals - {order[0]}) else Cache(order, vals)
  }

  function Apply(c: Cache, capacity: nat, op: Op): Cache {
    match op
    case Get(k) => Touch(c, k)
    case Set(k, v) => Store(c, capacity, k, v)
  }

  function Run(capacity: nat, ops: seq<Op>): Cache {
    if ops == [] then EMPTY else Apply(Run(capacity, ops[..|ops| - 1]), capacity, ops[|ops| - 1])
  }

  class LRUCache {
    const capacity: nat
    var order: seq<string>
    var vals: map<string, string>

    ghost predicate Valid()
      reads this
    {
      Consistent(Viewed()) && |order| <= capacity
    }

    function Viewed(): Cache
      reads this
    {
      Cache(order, vals)
    }

    constructor (capacity: nat)
      ensures Valid() && Viewed() == EMPTY && this.capacity == capacity
    {
      this.capacity := capacity;
      order, vals := [], map[];
    }

    method Get(key: string) returns (value: Option<string>)
      requires Valid()
      modifies this`order
      ensures Valid() && Viewed() == Touch(old(Viewed()), key) && value == Lookup(old(Viewed()), key)
    {
      ApplyConsistent(Viewed(), capacity, Op.Get(key));
      if key !in vals { return None; }
      order := Without(order, key) + [key];
      value := Some(vals[key]);
    }

    method Set(key: string, value: string)
      requires Valid()
      modifies this`order, this`vals
      ensures Valid() && Viewed() == Store(old(Viewed()), capacity, key, value)
    {
      ApplyConsistent(Viewed(), capacity, Op.Set(key, value));
      // move_to_end on an existing key, or a new entry at the end
      order := Without(order, key) + [key];
      vals := vals[key := value];
      if |order| > capacity {
        vals := vals - {order[0]};
        order := order[1..];
      }
    }
  }

  // ---------------------------------------------------------------- sequences of distinct keys

  predicate Distinct(s: seq<string>) {
    forall i, j :: 0 <= i < j < |s| ==> s[i] != s[j]
  }

  lemma {:induction false} WithoutKeeps(s: seq<string>, k: string, x: string)
    ensures x in Without(s, k) <==> x in s && x != k
    ensures k !in s ==> Without(s, k) == s
  {
    if s != [] {
      WithoutKeeps(s[..|s| - 1], k, x);
      assert s == s[..|s| - 1] + [s[|s| - 1]];
    }
  }

  lemma WithoutSnoc(s: seq<string>, x: string, k: string)
    ensures Without(s + [x], k) == Without(s, k) + (if x == k then [] else [x])
  {
    assert (s + [x])[..|s|] == s;
  }

  lemma {:induction false} WithoutConcat(a: seq<string>, b: seq<string>, k: string)
    ensures Without(a + b, k) == Without(a, k) + Without(b, k)
  {
    if b == [] {
      assert a + b == a;
    } else {
      var init := b[..|b| - 1];
      assert (a + b)[..|a + b| - 1] == a + init;
      WithoutConcat(a, init, k);
    }
  }

  lemma {:induction false} WithoutDistinct(s: seq<string>, k: string)
    requires Distinct(s)
    ensures Distinct(Without(s, k))
    ensures |Without(s, k)| == |s| - (if k in s then 1 else 0)
  {
    if s != [] {
      var init, last := s[..|s| - 1], s[|s| - 1];
      assert s == init + [last];
      WithoutDistinct(init, k);
      WithoutKeeps(init, k, last);
    }
  }

  /** The dictionary's order and its values cover the same keys, each once. */
  ghost predicate Consistent(c: Cache) {
    && Distinct(c.order)
    && (forall k :: k in c.order <==> k in c.vals)
  }

  lemma MoveDistinct(s: seq<string>, k: string)
    requires Distinct(s)
    ensures Distinct(Without(s, k) + [k])
    ensures |Without(s, k) + [k]| == |s| + (if k in s then 0 else 1)
    ensures forall x :: x in Without(s, k) + [k] <==> x in s || x == k
  {
    WithoutDistinct(s, k);
    forall x ensures x in Without(s, k) + [k] <==> x in s || x == k { WithoutKeeps(s, k, x); }
    WithoutKeeps(s, k, k);
  }

  lemma ApplyConsistent(c: Cache, capacity: nat, op: Op)
    requires Consistent(c) && |c.order| <= capacity
    ensures Consistent(Apply(c, capacity, op)) && |Apply(c, capacity, op).order| <= capacity
  {
    hide Without, Distinct;
    MoveDistinct(c.order, op.key);
    if op.Set? {
      EvictConsistent(Without(c.order, op.key) + [op.key], c.vals[op.key := op.value], capacity);
    }
  }

  lemma EvictConsistent(order: seq<string>, vals: map<string, string>, capacity: nat)
    requires order != [] && |order| <= capacity + 1 && Consistent(Cache(order, vals))
    ensures Consistent(Evict(order, vals, capacity)) && |Evict(order, vals, capacity).order| <= capacity
  {
    assert order == [order[0]] + order[1..];
  }

  lemma {:induction false} RunConsistent(capacity: nat, ops: seq<Op>)
    ensures Consistent(Run(capacity, ops)) && |Run(capacity, ops).order| <= capacity
  {
    if ops != [] {
      RunConsistent(capacity, ops[..|ops| - 1]);
      ApplyConsistent(Run(capacity, ops[..|ops| - 1]), capacity, ops[|ops| - 1]);
    }
  }

  // ---------------------------------------------------------------- residency

  /** The keys set or hit, in order. */
  function Touched(capacity: nat, ops: seq<Op>): seq<string> {
    if ops == [] then []
    else
      var init, op := ops[..|ops| - 1], ops[|ops| - 1];
      Touched(capacity, init)
      + (if op.Set? || op.key in Run(capacity, init).vals then [op.key] else [])
  }

  /** Distinct keys by last use. */
  function Recency(t: seq<string>): seq<string> {
    if t == [] then [] else Without(Recency(t[..|t| - 1]), t[|t| - 1]) + [t[|t| - 1]]
  }

  function Newest(s: seq<string>, n: nat): seq<string> {
    if |s| <= n then s else s[|s| - n..]
  }

  lemma {:induction false} RecencyKeys(t: seq<string>)
    ensures Distinct(Recency(t))
    ensures forall x :: x in Recency(t) <==> x in t
  {
    if t != [] {
      var init, last := t[..|t| - 1], t[|t| - 1];
      assert t == init + [last];
      RecencyKeys(init);
      MoveDistinct(Recency(init), last);
    }
  }

  lemma NewestOf(prefix: seq<string>, suffix: seq<string>, n: nat)
    requires |suffix| == n || (prefix == [] && |suffix| <= n)
    ensures Newest(prefix + suffix, n) == suffix
  {
  }

  lemma NewestSplit(r: seq<string>, n: nat) returns (prefix: seq<string>)
    ensures r == prefix + Newest(r, n)
    ensures |Newest(r, n)| == n || (prefix == [] && |Newest(r, n)| <= n)
  {
    prefix := r[..|r| - |Newest(r, n)|];
  }

  /** Using a key that is among the newest keeps the same company. */
  lemma NewestHit(r: seq<string>, n: nat, k: string)
    requires Distinct(r) && k in Newest(r, n)
    ensures Newest(Without(r, k) + [k], n) == Without(Newest(r, n), k) + [k]
  {
    var prefix := NewestSplit(r, n);
    hide Newest, Without;
    var suffix := Newest(r, n);
    WithoutConcat(prefix, suffix, k);
    assert k !in prefix by {
      var j :| 0 <= j < |suffix| && suffix[j] == k;
      assert forall i :: 0 <= i < |prefix| ==> prefix[i] == r[i] && r[|prefix| + j] == k;
    }
    WithoutKeeps(prefix, k, k);
    SuffixDistinct(prefix, suffix);
    WithoutDistinct(suffix, k);
    var w := Without(suffix, k);
    assert prefix + w + [k] == prefix + (w + [k]);
    NewestOf(prefix, w + [k], n);
  }

  lemma SuffixDistinct(a: seq<string>, b: seq<string>)
    requires Distinct(a + b)
    ensures Distinct(b)
  {
    assert forall i :: 0 <= i < |b| ==> b[i] == (a + b)[|a| + i];
  }

  /** Using any other key pushes out the oldest once there are n. */
  lemma NewestMiss(r: seq<string>, n: nat, k: string)
    requires k !in Newest(r, n)
    ensures Newest(Without(r, k) + [k], n)
         == if |Newest(r, n)| + 1 > n then (Newest(r, n) + [k])[1..] else Newest(r, n) + [k]
  {
    var prefix := NewestSplit(r, n);
    hide Newest, Without;
    var suffix := Newest(r, n);
    WithoutConcat(prefix, suffix, k);
    WithoutKeeps(suffix, k, k);
    WithoutKeeps(prefix, k, k);
    var p, all := Without(prefix, k), suffix + [k];
    assert p + suffix + [k] == p + all;
    if |suffix| + 1 > n {
      assert p + all == (p + all[..1]) + all[1..];
      NewestOf(p + all[..1], all[1..], n);
    } else {
      NewestOf(p, all, n);
    }
  }

  /** The cache always holds the `capacity` most recently used keys, in order of use. */
  lemma {:induction false} HoldsNewest(capacity: nat, ops: seq<Op>)
    ensures Run(capacity, ops).order == Newest(Recency(Touched(capacity, ops)), capacity)
  {
    if ops != [] {
      var init, op := ops[..|ops| - 1], ops[|ops| - 1];
      HoldsNewest(capacity, init);
      RunConsistent(capacity, init);
      NewestStep(capacity, Run(capacity, init), Touched(capacity, init), op);
    }
  }

  lemma NewestStep(capacity: nat, c: Cache, t: seq<string>, op: Op)
    requires c.order == Newest(Recency(t), capacity)
    requires Consistent(c)
    ensures Apply(c, capacity, op).order
         == Newest(Recency(t + (if op.Set? || op.key in c.vals then [op.key] else [])), capacity)
  {
    hide Newest;
    var k, r := op.key, Recency(t);
    RecencyKeys(t);
    if op.Set? || k in c.vals {
      assert (t + [k])[..|t|] == t;
      assert Recency(t + [k]) == Without(r, k) + [k];
      NewestSize(r, capacity);
      if k in c.order {
        NewestHit(r, capacity, k);
        WithoutDistinct(c.order, k);
      } else {
        NewestMiss(r, capacity, k);
        WithoutKeeps(c.order, k, k);
      }
    } else {
      assert t + [] == t;
    }
  }

  lemma NewestSize(s: seq<string>, n: nat)
    ensures |Newest(s, n)| <= n
  {
  }

  /** What was touched after the last touch of k. */
  function Since(t: seq<string>, k: string): seq<string> {
    if t == [] || t[|t| - 1] == k then [] else Since(t[..|t| - 1], k) + [t[|t| - 1]]
  }

  function Keys(t: seq<string>): set<string> {
    set x | x in t
  }

  lemma RecencySnoc(t: seq<string>, x: string)
    ensures Recency(t + [x]) == Without(Recency(t), x) + [x]
  {
    assert (t + [x])[..|t|] == t;
  }

  lemma WithoutMiddle(a: seq<string>, k: string, b: seq<string>, x: string)
    requires x != k
    ensures Without(a + [k] + b, x) == Without(a, x) + [k] + Without(b, x)
  {
    WithoutConcat(a + [k], b, x);
    WithoutSnoc(a, k, x);
  }

  /** In order of use, exactly the keys touched since its last touch come after k. */
  lemma {:induction false} RecencySplit(t: seq<string>, k: string) returns (older: seq<string>)
    requires k in t
    ensures Recency(t) == older + [k] + Recency(Since(t, k))
  {
    hide Without;
    var init, x := t[..|t| - 1], t[|t| - 1];
    assert t == init + [x];
    if x == k {
      older := Without(Recency(init), x);
      assert older + [k] + [] == older + [k];
    } else {
      var a := RecencySplit(init, k);
      var b := Since(init, k);
      older := Without(a, x);
      WithoutMiddle(a, k, Recency(b), x);
      RecencySnoc(b, x);
      var w := Without(Recency(b), x);
      assert older + [k] + w + [x] == older + [k] + (w + [x]);
    }
  }

  lemma {:induction false} CountDistinct(s: seq<string>, keys: set<string>)
    requires Distinct(s) && forall x :: x in s <==> x in keys
    ensures |s| == |keys|
  {
    if s == [] {
      assert keys == {};
    } else {
      var x := s[|s| - 1];
      assert s == s[..|s| - 1] + [x];
      CountDistinct(s[..|s| - 1], keys - {x});
    }
  }

  lemma MidPosition(a: seq<string>, k: string, b: seq<string>, n: nat)
    requires Distinct(a + [k] + b)
    ensures k in Newest(a + [k] + b, n) <==> |b| < n
  {
    var s := a + [k] + b;
    var w := Newest(s, n);
    assert s[|a|] == k;
    if |b| < n {
      assert w[|w| - |b| - 1] == k;
    } else {
      forall i | 0 <= i < |w| ensures w[i] != k {
        assert w[i] == s[|s| - |w| + i];
      }
    }
  }

  /** After any trace, a key is present exactly when fewer than `capacity` distinct other keys were set
      or hit since its own last set or hit. */
  lemma Residency(capacity: nat, ops: seq<Op>, k: string)
    ensures var t := Touched(capacity, ops);
            k in Run(capacity, ops).vals <==> k in t && |Keys(Since(t, k))| < capacity
  {
    var t := Touched(capacity, ops);
    HoldsNewest(capacity, ops);
    RunConsistent(capacity, ops);
    RecencyKeys(t);
    hide Run, Touched, Recency, Since;
    if k in t {
      var older := RecencySplit(t, k);
      var b := Since(t, k);
      RecencyKeys(b);
      CountDistinct(Recency(b), Keys(b));
      MidPosition(older, k, Recency(b), capacity);
    } else {
      NewestWithin(Recency(t), capacity, k);
    }
  }

  lemma NewestWithin(s: seq<string>, n: nat, k: string)
    requires k !in s
    ensures k !in Newest(s, n)
  {
  }

  /** The value of the last `set` of k. */
  function LastSet(ops: seq<Op>, k: string): Option<string> {
    if ops == [] then None
    else
      var op := ops[|ops| - 1];
      if op.Set? && op.key == k then Some(op.value) else LastSet(ops[..|ops| - 1], k)
  }

  /** A present key returns the value it was last set to. */
  lemma {:induction false} ReturnsLastSet(capacity: nat, ops: seq<Op>, k: string)
    requires k in Run(capacity, ops).vals
    ensures Lookup(Run(capacity, ops), k) == LastSet(ops, k)
  {
    if ops != [] {
      var init, op := ops[..|ops| - 1], ops[|ops| - 1];
      if !(op.Set? && op.key == k) {
        ReturnsLastSet(capacity, init, k);
      }
    }
  }

  // ---------------------------------------------------------------- inclusion

  /** The keys of `s` that lie in `keep`, in order. */
  function Restrict(s: seq<string>, keep: set<string>): seq<string> {
    if s == [] then []
    else Restrict(s[..|s| - 1], keep) + (if s[|s| - 1] in keep then [s[|s| - 1]] else [])
  }

  lemma {:induction false} RestrictConcat(a: seq<string>, b: seq<string>, keep: set<string>)
    ensures Restrict(a + b, keep) == Restrict(a, keep) + Restrict(b, keep)
  {
    if b == [] {
      assert a + b == a;
    } else {
      assert (a + b)[..|a + b| - 1] == a + b[..|b| - 1];
      RestrictConcat(a, b[..|b| - 1], keep);
    }
  }

  lemma RestrictSnoc(s: seq<string>, x: string, keep: set<string>)
    ensures Restrict(s + [x], keep) == Restrict(s, keep) + (if x in keep then [x] else [])
  {
    assert (s + [x])[..|s|] == s;
  }

  lemma {:induction false} RestrictWithout(s: seq<string>, k: string, keep: set<string>)
    ensures Restrict(Without(s, k), keep) == Without(Restrict(s, keep), k)
  {
    if s == [] {
    } else {
      var init, x := s[..|s| - 1], s[|s| - 1];
      assert s == init + [x];
      hide Restrict, Without;
      RestrictWithout(init, k, keep);
      WithoutSnoc(init, x, k);
      RestrictSnoc(init, x, keep);
      var w, r := Without(init, k), Restrict(init, keep);
      assert w + [] == w && r + [] == r;
      RestrictSnoc(w, x, keep);
      WithoutSnoc(r, x, k);
    }
  }

  lemma {:induction false} RestrictIgnores(s: seq<string>, keep: set<string>, more: set<string>)
    requires forall x :: x in s ==> (x in keep <==> x in more)
    ensures Restrict(s, keep) == Restrict(s, more)
  {
    if s != [] { RestrictIgnores(s[..|s| - 1], keep, more); }
  }

  /** The smaller cache is the larger one seen through the keys it still has: same order, same values;
      and it is full unless the two are equal. */
  predicate Included(small: Cache, large: Cache, capacity: nat) {
    && small.order == Restrict(large.order, small.vals.Keys)
    && (forall k :: k in small.vals ==> k in large.vals && small.vals[k] == large.vals[k])
    && (|small.order| == capacity || small == large)
  }

  lemma IncludedGet(small: Cache, large: Cache, capacity: nat, k: string)
    requires Consistent(small) && Consistent(large) && Included(small, large, capacity)
    ensures Included(Touch(small, k), Touch(large, k), capacity)
  {
    var keep := small.vals.Keys;
    if k in large.vals {
      RestrictWithout(large.order, k, keep);
      RestrictSnoc(Without(large.order, k), k, keep);
      WithoutKeeps(small.order, k, k);
      WithoutDistinct(small.order, k);
    }
  }

  /** Before eviction, storing k keeps the small order a restriction of the large one. */
  lemma IncludedMove(small: Cache, large: Cache, capacity: nat, k: string)
    requires Included(small, large, capacity)
    ensures Without(small.order, k) + [k] == Restrict(Without(large.order, k) + [k], small.vals.Keys + {k})
  {
    var keep := small.vals.Keys;
    var rest := Without(large.order, k);
    RestrictWithout(large.order, k, keep);
    forall x | x in rest ensures x in keep <==> x in keep + {k} { WithoutKeeps(large.order, k, x); }
    RestrictIgnores(rest, keep, keep + {k});
    RestrictSnoc(rest, k, keep + {k});
  }

  /** Dropping the first key of a restriction drops it from the keys kept. */
  lemma RestrictTail(s: seq<string>, keep: set<string>, small: seq<string>)
    requires Distinct(s) && small == Restrict(s, keep) && small != []
    ensures Distinct(small) && small[1..] == Restrict(s, keep - {small[0]})
  {
    RestrictDistinct(s, keep);
    RestrictHead(s, keep);
  }

  lemma {:induction false} RestrictDistinct(s: seq<string>, keep: set<string>)
    requires Distinct(s)
    ensures Distinct(Restrict(s, keep))
    ensures forall x :: x in Restrict(s, keep) <==> x in s && x in keep
  {
    if s != [] {
      var init := s[..|s| - 1];
      assert s == init + [s[|s| - 1]];
      RestrictDistinct(init, keep);
    }
  }

  lemma {:induction false} RestrictHead(s: seq<string>, keep: set<string>)
    requires Distinct(s) && Restrict(s, keep) != []
    ensures Restrict(s, keep - {Restrict(s, keep)[0]}) == Restrict(s, keep)[1..]
  {
    var init, x := s[..|s| - 1], s[|s| - 1];
    assert s == init + [x];
    var r := Restrict(init, keep);
    if r == [] {
      RestrictNothing(init, keep, x);
    } else {
      RestrictHead(init, keep);
      RestrictDistinct(init, keep);
      assert r[0] in r;
    }
  }

  lemma {:induction false} RestrictNothing(s: seq<string>, keep: set<string>, x: string)
    requires Restrict(s, keep) == []
    ensures Restrict(s, keep - {x}) == []
  {
    if s != [] { RestrictNothing(s[..|s| - 1], keep, x); }
  }

  /** Evicting the oldest of both: the larger cache loses nothing the smaller one keeps. */
  lemma RestrictEvict(large: seq<string>, keep: set<string>, small: seq<string>)
    requires Distinct(large) && small == Restrict(large, keep) && small != [] && large != []
    ensures large[0] !in keep - {small[0]}
    ensures small[1..] == Restrict(large[1..], keep - {small[0]})
  {
    RestrictTail(large, keep, small);
    RestrictCons(large[0], large[1..], keep);
    RestrictCons(large[0], large[1..], keep - {small[0]});
    assert large == [large[0]] + large[1..];
  }

  lemma RestrictCons(x: string, s: seq<string>, keep: set<string>)
    ensures Restrict([x] + s, keep) == (if x in keep then [x] else []) + Restrict(s, keep)
  {
    RestrictConcat([x], s, keep);
    RestrictSnoc([], x, keep);
    assert [] + [x] == [x];
  }

  lemma IncludedEvict(so: seq<string>, sv: map<string, string>, lo: seq<string>, lv: map<string, string>, c1: nat, c2: nat)
    requires so != [] && Distinct(lo) && so == Restrict(lo, sv.Keys)
    requires forall k :: k in lo <==> k in lv
    requires forall k :: k in sv ==> k in lv && sv[k] == lv[k]
    requires |so| <= c1 + 1 && |lo| <= c2 + 1 && c1 <= c2
    requires |so| >= c1 || (so == lo && sv == lv)
    requires |so| == c1 && c1 > 0 && |lo| > c2 ==> so == lo
    ensures lo != [] && Included(Evict(so, sv, c1), Evict(lo, lv, c2), c1)
  {
    hide Restrict, Distinct;
    RestrictEmpty(sv.Keys);
    if |so| > c1 {
      RestrictTail(lo, sv.Keys, so);
      RestrictEvict(lo, sv.Keys, so);
      assert (sv - {so[0]}).Keys == sv.Keys - {so[0]};
    }
  }

  lemma RestrictEmpty(keep: set<string>)
    ensures Restrict([], keep) == []
  {
  }

  lemma IncludedSet(small: Cache, large: Cache, c1: nat, c2: nat, k: string, v: string)
    requires Consistent(small) && Consistent(large) && Included(small, large, c1)
    requires |small.order| <= c1 <= c2 && |large.order| <= c2
    ensures Included(Store(small, c1, k, v), Store(large, c2, k, v), c1)
  {
    hide Without, Restrict, Distinct;
    var so, lo := Without(small.order, k) + [k], Without(large.order, k) + [k];
    var sv, lv := small.vals[k := v], large.vals[k := v];
    IncludedMove(small, large, c1, k);
    MoveDistinct(small.order, k);
    MoveDistinct(large.order, k);
    assert sv.Keys == small.vals.Keys + {k};
    IncludedEvict(so, sv, lo, lv, c1, c2);
  }

  /** For any trace of gets and sets, the smaller of two caches is always the larger one restricted to
      the keys it still has, with equal values: the larger never misses where the smaller hits. */
  lemma {:induction false} Inclusion(c1: nat, c2: nat, ops: seq<Op>)
    requires c1 <= c2
    ensures Included(Run(c1, ops), Run(c2, ops), c1)
  {
    hide Included;
    if ops == [] {
      EmptyIncluded(c1);
    } else {
      var init, op := ops[..|ops| - 1], ops[|ops| - 1];
      Inclusion(c1, c2, init);
      RunConsistent(c1, init);
      RunConsistent(c2, init);
      match op
      case Get(k) => IncludedGet(Run(c1, init), Run(c2, init), c1, k);
      case Set(k, v) => IncludedSet(Run(c1, init), Run(c2, init), c1, c2, k, v);
    }
  }

  lemma EmptyIncluded(capacity: nat)
    ensures Included(EMPTY, EMPTY, capacity)
  {
  }
}
