/** The slice of the alphabet a node owns: `States.updateRecordSet` in data_plane/state.py. */
module Shards {

  const TOTAL_LETTERS := 26

  const ALPHABET: string := "abcdefghijklmnopqrstuvwxyz"

  lemma AlphabetDistinct()
    ensures |ALPHABET| == TOTAL_LETTERS
    ensures forall i :: 0 <= i < TOTAL_LETTERS ==> ALPHABET[i] as int == 'a' as int + i
  {
  }

  /** Python's `//`, which rounds towards minus infinity. */
  function FloorDiv(a: int, b: int): int
    requires b != 0
  {
    if b > 0 then a / b else (-a) / (-b)
  }

  /** Python's `%`, which takes the divisor's sign. */
  function FloorMod(a: int, b: int): int
    requires b != 0
  {
    a - b * FloorDiv(a, b)
  }

  function Min(a: int, b: int): int {
    if a < b then a else b
  }

  function SliceStart(total: nat, rank: int, lastRank: int): int
    requires lastRank != 0
  {
    FloorDiv(total, lastRank) * (rank - 1) + Min(rank - 1, FloorMod(total, lastRank))
  }

  function SliceSize(total: nat, rank: int, lastRank: int): int
    requires lastRank != 0
  {
    FloorDiv(total, lastRank) + (if rank <= FloorMod(total, lastRank) then 1 else 0)
  }

  /** A slice bound as Python reads it: negative counts from the end, and out of range is clamped. */
  function Bound(i: int, n: nat): (b: nat)
    ensures b <= n
    ensures 0 <= i <= n ==> b == i
  {
    if i < 0 then (if i + n < 0 then 0 else i + n) else if i > n then n else i
  }

  /** `s[i:j]` */
  function Slice(s: string, i: int, j: int): string {
    var a, b := Bound(i, |s|), Bound(j, |s|);
    if a <= b then s[a..b] else ""
  }

  function Letters(s: string): set<char> {
    set i | 0 <= i < |s| :: s[i]
  }

  /** `updateRecordSet`: the shards of a node, for any rank a heartbeat may carry. */
  function ShardsOf(nodeCount: int, rank: int, lastRank: int): set<char> {
    if nodeCount == 1 then Letters(ALPHABET)
    else if lastRank == 0 || rank == 0 then {}
    else
      var start := SliceStart(TOTAL_LETTERS, rank, lastRank);
      Letters(Slice(ALPHABET, start, start + SliceSize(TOTAL_LETTERS, rank, lastRank)))
  }

  /** Division by a negative count rounds down, and the remainder takes the divisor's sign. */
  lemma PythonDivision(a: int, b: int)
    requires b != 0
    ensures a == b * FloorDiv(a, b) + FloorMod(a, b)
    ensures b > 0 ==> 0 <= FloorMod(a, b) < b
    ensures b < 0 ==> b < FloorMod(a, b) <= 0
  {
    if b < 0 {
      var q, m := (-a) / (-b), (-a) % (-b);
      assert -a == (-b) * q + m;
      assert b * q == -((-b) * q);
    }
  }

  /** Negative bounds of a slice count from the end, and bounds outside the text are cut off. */
  lemma PythonSlices(s: string, i: int, j: int)
    ensures -|s| <= i < 0 ==> Slice(s, i, j) == Slice(s, |s| + i, j)
    ensures -|s| <= j < 0 ==> Slice(s, i, j) == Slice(s, i, |s| + j)
    ensures i < -|s| ==> Slice(s, i, j) == Slice(s, 0, j)
    ensures j > |s| ==> Slice(s, i, j) == Slice(s, i, |s|)
    ensures i >= |s| || j < -|s| ==> Slice(s, i, j) == ""
    ensures 0 <= i <= j <= |s| ==> Slice(s, i, j) == s[i..j]
  {
  }

  // ---------------------------------------------------------------- the slices tile the alphabet

  /** Position p lies in the slice of `rank`. */
  predicate InSlice(total: nat, rank: int, lastRank: int, p: int)
    requires lastRank != 0
  {
    SliceStart(total, rank, lastRank) <= p < SliceStart(total, rank, lastRank) + SliceSize(total, rank, lastRank)
  }

  lemma SliceEnds(total: nat, rank: int, lastRank: int)
    requires 1 <= rank <= lastRank
    ensures SliceStart(total, 1, lastRank) == 0
    ensures SliceStart(total, rank + 1, lastRank) == SliceStart(total, rank, lastRank) + SliceSize(total, rank, lastRank)
    ensures SliceStart(total, lastRank + 1, lastRank) == total
    ensures SliceSize(total, rank, lastRank) >= 0
  {
    var per := total / lastRank;
    assert per * (rank + 1 - 1) == per * (rank - 1) + per;
    assert per * lastRank + total % lastRank == total;
    assert FloorMod(total, lastRank) == total % lastRank;
  }

  lemma {:induction false} StartsMonotone(total: nat, r: int, r': int, lastRank: int)
    requires lastRank >= 1 && 1 <= r <= r' <= lastRank + 1
    ensures SliceStart(total, r, lastRank) <= SliceStart(total, r', lastRank)
    decreases r' - r
  {
    hide SliceStart, SliceSize;
    if r < r' {
      SliceEnds(total, r, lastRank);
      StartsMonotone(total, r + 1, r', lastRank);
    }
  }

  /** The slices of ranks 1..lastRank are consecutive and cover 0..total, so every position lies in
      exactly one of them; their sizes differ by at most one. */
  lemma {:induction false} Tiling(total: nat, lastRank: int, p: int) returns (rank: int)
    requires lastRank >= 1 && 0 <= p < total
    ensures 1 <= rank <= lastRank && InSlice(total, rank, lastRank, p)
    ensures forall r :: 1 <= r <= lastRank && InSlice(total, r, lastRank, p) ==> r == rank
    ensures forall r, r' :: 1 <= r <= lastRank && 1 <= r' <= lastRank ==>
              SliceSize(total, r, lastRank) <= SliceSize(total, r', lastRank) + 1
  {
    assert forall r, r' :: 1 <= r <= lastRank && 1 <= r' <= lastRank ==>
              SliceSize(total, r, lastRank) <= SliceSize(total, r', lastRank) + 1;
    hide SliceStart, SliceSize;
    rank := 1;
    SliceEnds(total, 1, lastRank);
    while !InSlice(total, rank, lastRank, p)
      invariant 1 <= rank <= lastRank
      invariant SliceStart(total, rank, lastRank) <= p
      decreases lastRank - rank
    {
      SliceEnds(total, rank, lastRank);
      rank := rank + 1;
    }
    forall r | 1 <= r <= lastRank && InSlice(total, r, lastRank, p) ensures r == rank {
      SliceEnds(total, r, lastRank);
      SliceEnds(total, rank, lastRank);
      if r < rank {
        StartsMonotone(total, r + 1, rank, lastRank);
      } else if rank < r {
        StartsMonotone(total, rank + 1, r, lastRank);
      }
    }
  }

  /** For the positive divisors of a real cluster, Python's operators are Euclid's. */
  lemma FloorsAt(total: nat, n: int)
    requires n >= 1
    ensures FloorDiv(total, n) == total / n && FloorMod(total, n) == total % n
    ensures total == total / n * n + total % n && 0 <= total % n < n && 0 <= total / n
  {
  }

  lemma Quotients(total: nat, n: int)
    requires n >= 1
    ensures n <= total ==> total / n >= 1
    ensures n > total ==> total / n == 0 && total % n == total
  {
    FloorsAt(total, n);
    BelowDivisor(total / n, total % n, total, n);
  }

  lemma BelowDivisor(q: int, r: int, total: nat, n: int)
    requires total == q * n + r && 0 <= r < n && q >= 0
    ensures n <= total ==> q >= 1
    ensures n > total ==> q == 0 && r == total
  {
    if q >= 1 { assert q * n == (q - 1) * n + n; }
  }

  /** Which ranks own anything: the first min(total, lastRank) of them. */
  lemma NonEmptySlice(total: nat, rank: int, lastRank: int)
    requires 1 <= rank <= lastRank
    ensures SliceSize(total, rank, lastRank) > 0 <==> rank <= total
  {
    FloorsAt(total, lastRank);
    Quotients(total, lastRank);
  }

  // ---------------------------------------------------------------- one node fewer

  /** The rank of a node after the leader has left the list and the others have been renumbered. */
  function RankWithout(rank: int, leaderRank: int): int {
    if leaderRank < rank then rank - 1 else rank
  }

  /** Whether a node keeps its slice when the leader of n nodes leaves the list. With the leader behind
      it, it must have one of the larger slices, whose size must not change; with the leader before it,
      one of the smaller slices. A node without letters must stay without. */
  predicate KeepsSlice(total: nat, rank: int, leaderRank: int, n: int) {
    n >= 2 &&
    if leaderRank > rank
    then rank > total || (rank <= total % n && total / n + 1 == SliceSize(total, 1, n - 1))
    else total / n == total / (n - 1) && rank - 1 > total % (n - 1)
  }

  predicate SameSlice(total: nat, rank: int, n: int, rank': int, n': int)
    requires n >= 1 && n' >= 1
  {
    || (SliceSize(total, rank, n) == 0 && SliceSize(total, rank', n') == 0)
    || (SliceStart(total, rank, n) == SliceStart(total, rank', n')
        && SliceSize(total, rank, n) == SliceSize(total, rank', n'))
  }

  lemma SliceInside(total: nat, rank: int, n: int)
    requires 1 <= rank <= n
    ensures 0 <= SliceStart(total, rank, n)
    ensures 0 <= SliceSize(total, rank, n) && SliceStart(total, rank, n) + SliceSize(total, rank, n) <= total
  {
    hide SliceStart, SliceSize;
    SliceEnds(total, rank, n);
    StartsMonotone(total, 1, rank, n);
    StartsMonotone(total, rank + 1, n + 1, n);
  }

  /** Two slices hold the same positions exactly when both are empty or both bounds agree. */
  lemma SlicesEqual(total: nat, rank: int, n: int, rank': int, n': int)
    requires 1 <= rank <= n && 1 <= rank' <= n'
    ensures SameSlice(total, rank, n, rank', n')
       <==> forall p :: 0 <= p < total ==> (InSlice(total, rank, n, p) <==> InSlice(total, rank', n', p))
  {
    hide SliceStart, SliceSize;
    SliceInside(total, rank, n);
    SliceInside(total, rank', n');
    var a, z := SliceStart(total, rank, n), SliceSize(total, rank, n);
    var a', z' := SliceStart(total, rank', n'), SliceSize(total, rank', n');
    if forall p :: 0 <= p < total ==> (InSlice(total, rank, n, p) <==> InSlice(total, rank', n', p)) {
      if z > 0 {
        assert InSlice(total, rank, n, a) && InSlice(total, rank, n, a + z - 1);
      }
      if z' > 0 {
        assert InSlice(total, rank', n', a') && InSlice(total, rank', n', a' + z' - 1);
      }
    }
  }

  /** Dividing by one less: the quotient does not fall, and if it stays the remainder takes it up. */
  lemma OneFewer(total: nat, n: int, q: int, r: int, q': int, r': int)
    requires n >= 2 && total == q * n + r && 0 <= r < n && q >= 0
    requires total == q' * (n - 1) + r' && 0 <= r' < n - 1 && q' >= 0
    ensures q' >= q
    ensures q' == q ==> r' == r + q
  {
    assert q * n == q * (n - 1) + q;
    SmallerProduct(q', q, n - 1);
  }

  lemma {:induction false} SmallerProduct(a: int, b: int, m: int)
    requires m >= 0
    ensures a < b ==> a * m + m <= b * m
    decreases b - a
  {
    assert b * m == (b - 1) * m + m;
    if a < b - 1 { SmallerProduct(a, b - 1, m); }
  }

  lemma LeaderBehind(total: nat, k: int, n: int, q: int, r: int, q': int, r': int)
    requires n >= 2 && total == q * n + r && 0 <= r < n && q >= 0
    requires total == q' * (n - 1) + r' && 0 <= r' < n - 1 && q' >= 0
    requires 1 <= k <= n - 1 && k <= total
    ensures (q * (k - 1) + Min(k - 1, r) == q' * (k - 1) + Min(k - 1, r')
             && q + (if k <= r then 1 else 0) == q' + (if k <= r' then 1 else 0))
       <==> k <= r && q + 1 == q' + (if 1 <= r' then 1 else 0)
  {
    OneFewer(total, n, q, r, q', r');
    assert (q + 1) * (k - 1) == q * (k - 1) + (k - 1);
    if q == 0 { assert q * n == 0; }
  }

  lemma LeaderBefore(total: nat, k: int, n: int, q: int, r: int, q': int, r': int)
    requires n >= 2 && total == q * n + r && 0 <= r < n && q >= 0
    requires total == q' * (n - 1) + r' && 0 <= r' < n - 1 && q' >= 0
    requires 2 <= k <= n
    ensures (q * (k - 1) + Min(k - 1, r) == q' * (k - 2) + Min(k - 2, r')
             && q + (if k <= r then 1 else 0) == q' + (if k - 1 <= r' then 1 else 0))
       <==> q == q' && k - 1 > r'
  {
    OneFewer(total, n, q, r, q', r');
    assert q * (k - 1) == q * (k - 2) + q;
    assert (q + 1) * (k - 1) == q * (k - 1) + (k - 1);
    assert (q + 1) * (k - 2) == q * (k - 2) + (k - 2);
    assert (q + 1) * (n - 1) + (q + 1) == q * n + n;
  }

  /** The condition is exact: the slice of n nodes and the slice after the leader has left hold the same
      positions if and only if it is met. */
  lemma KeepsExactly(total: nat, rank: int, leaderRank: int, n: int)
    requires n >= 2 && 1 <= rank <= n && 1 <= leaderRank <= n && rank != leaderRank
    ensures SameSlice(total, rank, n, RankWithout(rank, leaderRank), n - 1) <==> KeepsSlice(total, rank, leaderRank, n)
  {
    var q, r, q', r' := total / n, total % n, total / (n - 1), total % (n - 1);
    FloorsAt(total, n);
    FloorsAt(total, n - 1);
    NonEmptySlice(total, rank, n);
    NonEmptySlice(total, RankWithout(rank, leaderRank), n - 1);
    if leaderRank > rank {
      if rank <= total { LeaderBehind(total, rank, n, q, r, q', r'); }
    } else {
      LeaderBefore(total, rank, n, q, r, q', r');
      Quotients(total, n);
      Quotients(total, n - 1);
    }
  }

  lemma SliceHolds(all: string, a: nat, b: nat, p: nat)
    requires a <= b <= |all| && p < |all|
    requires forall i, j :: 0 <= i < j < |all| ==> all[i] != all[j]
    ensures all[p] in Letters(Slice(all, a, b)) <==> a <= p < b
  {
    var s := all[a..b];
    if a <= p < b {
      assert s[p - a] == all[p];
    }
    forall i | 0 <= i < |s| && s[i] == all[p] ensures i + a == p {
      assert s[i] == all[i + a];
    }
  }

  lemma SliceLetters(a: nat, b: nat, p: nat)
    requires a <= b <= TOTAL_LETTERS && p < TOTAL_LETTERS
    ensures ALPHABET[p] in Letters(Slice(ALPHABET, a, b)) <==> a <= p < b
  {
    hide Letters, Slice;
    AlphabetDistinct();
    SliceHolds(ALPHABET, a, b, p);
  }

  /** A node of a real cluster owns a letter exactly when the letter's position lies in its slice. */
  lemma OwnsLetter(nodeCount: int, rank: int, lastRank: int, p: int)
    requires (nodeCount != 1 || lastRank == 1) && 1 <= rank <= lastRank && 0 <= p < TOTAL_LETTERS
    ensures ALPHABET[p] in ShardsOf(nodeCount, rank, lastRank) <==> InSlice(TOTAL_LETTERS, rank, lastRank, p)
  {
    assert ALPHABET[p] in Letters(ALPHABET);
    hide SliceStart, SliceSize, Slice, Letters;
    SliceEnds(TOTAL_LETTERS, rank, lastRank);
    SliceEnds(TOTAL_LETTERS, 1, lastRank);
    StartsMonotone(TOTAL_LETTERS, 1, rank, lastRank);
    StartsMonotone(TOTAL_LETTERS, rank + 1, lastRank + 1, lastRank);
    var start := SliceStart(TOTAL_LETTERS, rank, lastRank);
    SliceLetters(start, start + SliceSize(TOTAL_LETTERS, rank, lastRank), p);
  }

  lemma OnlyLetters(nodeCount: int, rank: int, lastRank: int, c: char)
    requires c in ShardsOf(nodeCount, rank, lastRank)
    ensures 'a' <= c <= 'z' && ALPHABET[c as int - 'a' as int] == c
  {
    AlphabetDistinct();
  }

  /** In a cluster of several nodes, rank 0, a last rank of 0 and a rank behind the last own nothing. */
  lemma NoShards(nodeCount: int, rank: int, lastRank: int)
    requires nodeCount != 1 && (rank == 0 || lastRank == 0 || rank > lastRank >= 1)
    ensures ShardsOf(nodeCount, rank, lastRank) == {}
  {
    if rank > lastRank >= 1 {
      BehindLast(TOTAL_LETTERS, rank, lastRank);
      var start := SliceStart(TOTAL_LETTERS, rank, lastRank);
      PythonSlices(ALPHABET, start, start + SliceSize(TOTAL_LETTERS, rank, lastRank));
      assert Letters("") == {};
    }
  }

  lemma BehindLast(total: nat, rank: int, lastRank: int)
    requires rank > lastRank >= 1
    ensures SliceStart(total, rank, lastRank) >= total
  {
    FloorsAt(total, lastRank);
    SmallerProduct(lastRank - 1, rank - 1, total / lastRank);
  }

  /** Two nodes' shards are equal exactly when their slices hold the same positions. */
  lemma ShardsEqual(count: int, rank: int, n: int, count': int, rank': int, n': int)
    requires (count != 1 || n == 1) && 1 <= rank <= n
    requires (count' != 1 || n' == 1) && 1 <= rank' <= n'
    ensures ShardsOf(count, rank, n) == ShardsOf(count', rank', n')
       <==> SameSlice(TOTAL_LETTERS, rank, n, rank', n')
  {
    hide ShardsOf, InSlice, SameSlice;
    var a, b := ShardsOf(count, rank, n), ShardsOf(count', rank', n');
    SlicesEqual(TOTAL_LETTERS, rank, n, rank', n');
    forall p | 0 <= p < TOTAL_LETTERS
      ensures ALPHABET[p] in a <==> InSlice(TOTAL_LETTERS, rank, n, p)
      ensures ALPHABET[p] in b <==> InSlice(TOTAL_LETTERS, rank', n', p)
    {
      OwnsLetter(count, rank, n, p);
      OwnsLetter(count', rank', n', p);
    }
    if SameSlice(TOTAL_LETTERS, rank, n, rank', n') {
      forall c ensures c in a <==> c in b {
        if c in a { OnlyLetters(count, rank, n, c); }
        if c in b { OnlyLetters(count', rank', n', c); }
      }
    }
  }

  /** With more nodes than letters the first 26 ranks own one letter each, however many nodes there are. */
  lemma CrowdedSlice(rank: int, n: int, rank': int, n': int)
    requires TOTAL_LETTERS < n && TOTAL_LETTERS < n' && 1 <= rank <= n && 1 <= rank' <= n'
    requires rank == rank' || (rank > TOTAL_LETTERS && rank' > TOTAL_LETTERS)
    ensures SameSlice(TOTAL_LETTERS, rank, n, rank', n')
  {
    FloorsAt(TOTAL_LETTERS, n);
    FloorsAt(TOTAL_LETTERS, n');
    Quotients(TOTAL_LETTERS, n);
    Quotients(TOTAL_LETTERS, n');
  }
}
