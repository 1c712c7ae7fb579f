/** The sliding-window rate limiter of dns-control-plane/src/main/java/com/dns/dns/RateLimiter.java.
    Instants and the window length are in one unit (nanoseconds in the source). The timestamp is taken
    before the per-client lock, so in lock order timestamps may step back a little. */
module RateLimiter {

  /** Polling the front while it lies before the cutoff. */
  function Evict(q: seq<int>, cutoff: int): seq<int> {
    if q != [] && q[0] < cutoff then Evict(q[1..], cutoff) else q
  }

  /** One client's deque and whether the request is refused. */
  function Decide(q: seq<int>, now: int, window: int, maxQueries: int): (seq<int>, bool) {
    var live := Evict(q, now - window);
    if |live| >= maxQueries then (live, true) else (live + [now], false)
  }

  class RateLimiter {
    const maxQueries: int
    const window: int
    var windowMap: map<string, seq<int>>

    constructor (maxQueries: int, window: int)
      ensures this.maxQueries == maxQueries && this.window == window && windowMap == map[]
    {
      this.maxQueries, this.window := maxQueries, window;
      windowMap := map[];
    }

    method IsRateLimited(clientIp: string, now: int) returns (limited: bool)
      modifies this
      ensures windowMap == Handle(old(windowMap), Request(clientIp, now), window, maxQueries)
      ensures limited == Decide(DequeOf(old(windowMap), clientIp), now, window, maxQueries).1
    {
      var timestamps := if clientIp in windowMap then windowMap[clientIp] else [];
      ghost var all := timestamps;
      var cutoff := now - window;
      while timestamps != [] && timestamps[0] < cutoff
        invariant Evict(timestamps, cutoff) == Evict(all, cutoff)
        decreases |timestamps|
      {
        timestamps := timestamps[1..];
      }
      limited := |timestamps| >= maxQueries;
      if !limited { timestamps := timestamps + [now]; }
      windowMap := windowMap[clientIp := timestamps];
    }

    method Reset()
      modifies this
      ensures windowMap == map[]
    {
      windowMap := map[];
    }
  }

  // ---------------------------------------------------------------- all clients, one client

  datatype Request = Request(ip: string, now: int)

  function DequeOf(m: map<string, seq<int>>, ip: string): seq<int> {
    if ip in m then m[ip] else []
  }

  function Handle(m: map<string, seq<int>>, r: Request, window: int, maxQueries: int): map<string, seq<int>> {
    m[r.ip := Decide(DequeOf(m, r.ip), r.now, window, maxQueries).0]
  }

  /** The limiter after the requests, in lock order. */
  function RunAll(requests: seq<Request>, window: int, maxQueries: int): map<string, seq<int>> {
    if requests == [] then map[]
    else Handle(RunAll(requests[..|requests| - 1], window, maxQueries), requests[|requests| - 1], window, maxQueries)
  }

  /** The timestamps of one client's requests. */
  function TimesOf(requests: seq<Request>, ip: string): seq<int> {
    if requests == [] then []
    else
      var last := requests[|requests| - 1];
      TimesOf(requests[..|requests| - 1], ip) + (if last.ip == ip then [last.now] else [])
  }

  /** One client's deque after its own requests. */
  function Deque(times: seq<int>, window: int, maxQueries: int): seq<int> {
    if times == [] then []
    else Decide(Deque(times[..|times| - 1], window, maxQueries), times[|times| - 1], window, maxQueries).0
  }

  /** Whether the next request at `now` is refused. */
  predicate Refused(times: seq<int>, now: int, window: int, maxQueries: int) {
    Decide(Deque(times, window, maxQueries), now, window, maxQueries).1
  }

  /** The timestamps of the admitted requests, in order. */
  function Admitted(times: seq<int>, window: int, maxQueries: int): seq<int> {
    if times == [] then []
    else
      var init, now := times[..|times| - 1], times[|times| - 1];
      Admitted(init, window, maxQueries) + (if Refused(init, now, window, maxQueries) then [] else [now])
  }

  /** A client's deque depends on its own requests only. */
  lemma {:induction false} ClientsIndependent(requests: seq<Request>, ip: string, window: int, maxQueries: int)
    ensures DequeOf(RunAll(requests, window, maxQueries), ip) == Deque(TimesOf(requests, ip), window, maxQueries)
  {
    hide Decide;
    if requests != [] {
      var init, last := requests[..|requests| - 1], requests[|requests| - 1];
      ClientsIndependent(init, ip, window, maxQueries);
      if last.ip == ip {
        var t := TimesOf(init, ip);
        assert (t + [last.now])[..|t|] == t;
      } else {
        assert TimesOf(requests, ip) == TimesOf(init, ip);
      }
    }
  }

  // ---------------------------------------------------------------- counting

  /** The timestamps in the closed interval [lo, hi], in order. */
  function Within(times: seq<int>, lo: int, hi: int): seq<int> {
    if times == [] then []
    else Within(times[..|times| - 1], lo, hi) + (if lo <= times[|times| - 1] <= hi then [times[|times| - 1]] else [])
  }

  lemma {:induction false} WithinConcat(a: seq<int>, b: seq<int>, lo: int, hi: int)
    ensures Within(a + b, lo, hi) == Within(a, lo, hi) + Within(b, lo, hi)
  {
    if b == [] {
      assert a + b == a;
    } else {
      assert (a + b)[..|a + b| - 1] == a + b[..|b| - 1];
      WithinConcat(a, b[..|b| - 1], lo, hi);
    }
  }

  lemma WithinSnoc(a: seq<int>, t: int, lo: int, hi: int)
    ensures Within(a + [t], lo, hi) == Within(a, lo, hi) + (if lo <= t <= hi then [t] else [])
  {
    assert (a + [t])[..|a|] == a;
  }

  lemma {:induction false} WithinAtMost(s: seq<int>, lo: int, hi: int)
    ensures |Within(s, lo, hi)| <= |s|
  {
    if s != [] { WithinAtMost(s[..|s| - 1], lo, hi); }
  }

  lemma {:induction false} WithinNone(s: seq<int>, lo: int, hi: int)
    requires forall i :: 0 <= i < |s| ==> !(lo <= s[i] <= hi)
    ensures Within(s, lo, hi) == []
  {
    if s != [] { WithinNone(s[..|s| - 1], lo, hi); }
  }

  lemma {:induction false} WithinAll(s: seq<int>, lo: int, hi: int)
    requires forall i :: 0 <= i < |s| ==> lo <= s[i] <= hi
    ensures Within(s, lo, hi) == s
  {
    if s != [] { WithinAll(s[..|s| - 1], lo, hi); }
  }

  /** Entries outside the interval in front of the rest do not count. */
  lemma WithinSkips(gone: seq<int>, s: seq<int>, lo: int, hi: int)
    requires forall i :: 0 <= i < |gone| ==> !(lo <= gone[i] <= hi)
    ensures Within(gone + s, lo, hi) == Within(s, lo, hi)
  {
    WithinConcat(gone, s, lo, hi);
    WithinNone(gone, lo, hi);
  }

  // ---------------------------------------------------------------- what the deque has forgotten

  /** Eviction drops a prefix of entries before the cutoff. */
  lemma {:induction false} EvictDrops(q: seq<int>, cutoff: int) returns (gone: seq<int>)
    ensures q == gone + Evict(q, cutoff)
    ensures forall i :: 0 <= i < |gone| ==> gone[i] < cutoff
    ensures Evict(q, cutoff) == [] || Evict(q, cutoff)[0] >= cutoff
  {
    if q != [] && q[0] < cutoff {
      var rest := EvictDrops(q[1..], cutoff);
      gone := [q[0]] + rest;
      assert q == [q[0]] + q[1..];
    } else {
      gone := [];
    }
  }

  /** Timestamp t is more than a window before some request. */
  predicate Expired(t: int, times: seq<int>, window: int) {
    exists m :: 0 <= m < |times| && t < times[m] - window
  }

  lemma ExpiredSnoc(t: int, times: seq<int>, now: int, window: int)
    requires Expired(t, times, window) || t < now - window
    ensures Expired(t, times + [now], window)
  {
    if Expired(t, times, window) {
      var m :| 0 <= m < |times| && t < times[m] - window;
      assert (times + [now])[m] == times[m];
    } else {
      assert (times + [now])[|times|] == now;
    }
  }

  lemma AdmittedSnoc(times: seq<int>, now: int, window: int, maxQueries: int)
    ensures Admitted(times + [now], window, maxQueries)
         == Admitted(times, window, maxQueries) + (if Refused(times, now, window, maxQueries) then [] else [now])
    ensures Deque(times + [now], window, maxQueries)
         == Decide(Deque(times, window, maxQueries), now, window, maxQueries).0
  {
    assert (times + [now])[..|times|] == times;
  }

  lemma NothingYet(window: int, maxQueries: int)
    ensures Admitted([], window, maxQueries) == [] && Deque([], window, maxQueries) == []
  {
  }

  /** One more request on a deque that is the admitted history without `before`. */
  lemma SuffixStep(a: seq<int>, q: seq<int>, before: seq<int>, now: int, window: int, maxQueries: int)
      returns (more: seq<int>)
    requires a == before + q
    ensures var (q', refused) := Decide(q, now, window, maxQueries);
            a + (if refused then [] else [now]) == before + more + q'
    ensures forall i :: 0 <= i < |more| ==> more[i] < now - window
  {
    hide Evict;
    more := EvictDrops(q, now - window);
  }

  /** The deque is the admitted history without a prefix of expired entries, however the timestamps ran. */
  lemma {:induction false} DequeIsSuffix(times: seq<int>, window: int, maxQueries: int) returns (gone: seq<int>)
    ensures Admitted(times, window, maxQueries) == gone + Deque(times, window, maxQueries)
    ensures forall i :: 0 <= i < |gone| ==> Expired(gone[i], times, window)
  {
    hide Admitted, Deque, Decide, Expired;
    if times == [] {
      NothingYet(window, maxQueries);
      gone := [];
    } else {
      var init, now := times[..|times| - 1], times[|times| - 1];
      assert times == init + [now];
      var before := DequeIsSuffix(init, window, maxQueries);
      var a, q := Admitted(init, window, maxQueries), Deque(init, window, maxQueries);
      var more := SuffixStep(a, q, before, now, window, maxQueries);
      gone := before + more;
      AdmittedSnoc(init, now, window, maxQueries);
      forall i | 0 <= i < |gone| ensures Expired(gone[i], times, window) {
        ExpiredSnoc(gone[i], init, now, window);
      }
    }
  }

  // ---------------------------------------------------------------- the bound under skew

  /** In lock order no timestamp falls more than d behind an earlier one. */
  predicate Skewed(times: seq<int>, d: nat) {
    forall i, j :: 0 <= i < j < |times| ==> times[i] - d <= times[j]
  }

  lemma SkewedAt(times: seq<int>, now: int, d: nat, m: nat)
    requires Skewed(times + [now], d) && m < |times|
    ensures times[m] - d <= now
  {
    var all := times + [now];
    assert all[m] == times[m] && all[|times|] == now;
  }

  lemma SkewedPrefix(times: seq<int>, now: int, d: nat)
    requires Skewed(times + [now], d)
    ensures Skewed(times, d)
  {
    var all := times + [now];
    assert forall i :: 0 <= i < |times| ==> all[i] == times[i];
  }

  /** The admitted requests of an interval that ends by `now` are all still remembered at `now`. */
  lemma StillRemembered(times: seq<int>, now: int, window: int, maxQueries: int, d: nat, lo: int)
    requires Skewed(times + [now], d) && lo <= now <= lo + window - d
    ensures |Within(Admitted(times, window, maxQueries), lo, lo + window - d)|
         <= |Evict(Deque(times, window, maxQueries), now - window)|
  {
    hide Within, Admitted, Deque, Skewed, Evict;
    var hi := lo + window - d;
    var q := Deque(times, window, maxQueries);
    var before := DequeIsSuffix(times, window, maxQueries);
    var more := EvictDrops(q, now - window);
    forall i | 0 <= i < |before| ensures before[i] < lo {
      var m :| 0 <= m < |times| && before[i] < times[m] - window;
      SkewedAt(times, now, d, m);
    }
    WithinSkips(before, q, lo, hi);
    WithinSkips(more, Evict(q, now - window), lo, hi);
    WithinAtMost(Evict(q, now - window), lo, hi);
  }

  /** When timestamps in lock order never fall more than d behind, every closed interval of length
      window - d holds at most maxQueries admitted requests of a client. */
  lemma {:induction false} BoundUnderSkew(times: seq<int>, window: int, maxQueries: nat, d: nat, lo: int)
    requires Skewed(times, d)
    ensures |Within(Admitted(times, window, maxQueries), lo, lo + window - d)| <= maxQueries
  {
    if times != [] {
      var init, now := times[..|times| - 1], times[|times| - 1];
      assert times == init + [now];
      hide Admitted, Deque, Skewed, Evict, Within;
      SkewedPrefix(init, now, d);
      BoundUnderSkew(init, window, maxQueries, d, lo);
      AdmittedSnoc(init, now, window, maxQueries);
      var a := Admitted(init, window, maxQueries);
      WithinSnoc(a, now, lo, lo + window - d);
      if Refused(init, now, window, maxQueries) {
        assert a + [] == a;
      } else if lo <= now <= lo + window - d {
        StillRemembered(init, now, window, maxQueries, d, lo);
      }
    }
  }

  /** The same bound for every client of the shared limiter. */
  lemma LimiterBound(requests: seq<Request>, ip: string, window: int, maxQueries: nat, d: nat, lo: int)
    requires Skewed(TimesOf(requests, ip), d)
    ensures DequeOf(RunAll(requests, window, maxQueries), ip) == Deque(TimesOf(requests, ip), window, maxQueries)
    ensures |Within(Admitted(TimesOf(requests, ip), window, maxQueries), lo, lo + window - d)| <= maxQueries
  {
    ClientsIndependent(requests, ip, window, maxQueries);
    BoundUnderSkew(TimesOf(requests, ip), window, maxQueries, d, lo);
  }

  function Zeros(n: nat): (s: seq<int>)
    ensures |s| == n
  {
    seq(n, _ => 0)
  }

  lemma {:induction false} EvictAll(q: seq<int>, cutoff: int)
    requires forall i :: 0 <= i < |q| ==> q[i] < cutoff
    ensures Evict(q, cutoff) == []
  {
    if q != [] { EvictAll(q[1..], cutoff); }
  }

  lemma {:induction false} ZerosAdmitted(n: nat, window: nat, maxQueries: nat)
    requires n <= maxQueries
    ensures Deque(Zeros(n), window, maxQueries) == Zeros(n) && Admitted(Zeros(n), window, maxQueries) == Zeros(n)
  {
    if n > 0 {
      assert Zeros(n) == Zeros(n - 1) + [0];
      ZerosAdmitted(n - 1, window, maxQueries);
      AdmittedSnoc(Zeros(n - 1), 0, window, maxQueries);
      assert Evict(Zeros(n - 1), 0 - window) == Zeros(n - 1);
    }
  }

  lemma TightSkew(zeros: seq<int>, late: int, back: int, d: nat)
    requires 0 <= back <= late <= back + d && forall i :: 0 <= i < |zeros| ==> zeros[i] == 0
    ensures Skewed(zeros + [late] + [back], d)
  {
  }

  /** The bound is tight for every limit from two and every skew from one: an interval one longer, or a
      single instant where the skew exceeds the window, can hold one request too many. */
  lemma SkewBoundTight(window: nat, maxQueries: nat, d: nat)
    requires maxQueries >= 2 && d >= 1
    ensures var length := if d <= window then window - d + 1 else 0;
            var times := Zeros(maxQueries) + [window + 1] + [length];
            && Skewed(times, d)
            && |Within(Admitted(times, window, maxQueries), 0, length)| == maxQueries + 1
  {
    hide Admitted, Deque, Skewed, Within;
    var zeros := Zeros(maxQueries);
    var late, back := window + 1, if d <= window then window - d + 1 else 0;
    TightSkew(zeros, late, back, d);
    ZerosAdmitted(maxQueries, window, maxQueries);
    AdmittedSnoc(zeros, late, window, maxQueries);
    EvictAll(zeros, late - window);
    assert [] + [late] == [late];
    AdmittedSnoc(zeros + [late], back, window, maxQueries);
    TightCount(zeros, late, back);
  }

  lemma TightCount(zeros: seq<int>, late: int, back: nat)
    requires back < late && forall i :: 0 <= i < |zeros| ==> zeros[i] == 0
    ensures |Within(zeros + [late] + [back], 0, back)| == |zeros| + 1
  {
    hide Within;
    WithinSnoc(zeros + [late], back, 0, back);
    WithinSnoc(zeros, late, 0, back);
    WithinAll(zeros, 0, back);
  }

  // ---------------------------------------------------------------- a limit of one

  /** Any two entries, in order, are more than a window apart. */
  predicate Sparse(a: seq<int>, window: int) {
    forall i, j :: 0 <= i < j < |a| ==> a[j] - a[i] > window
  }

  lemma SparseSnoc(a: seq<int>, now: int, window: nat)
    requires Sparse(a, window) && (a == [] || now - a[|a| - 1] > window)
    ensures Sparse(a + [now], window)
  {
    forall i | 0 <= i < |a| ensures now - a[i] > window {
      if i < |a| - 1 { assert a[|a| - 1] - a[i] > window; }
    }
  }

  /** With a limit of one the deque is the last admitted request, or nothing. */
  function LastOf(a: seq<int>): seq<int> {
    if a == [] then [] else [a[|a| - 1]]
  }

  lemma SingleStep(a: seq<int>, now: int, window: nat)
    requires Sparse(a, window)
    ensures var (q, refused) := Decide(LastOf(a), now, window, 1);
            var a' := a + (if refused then [] else [now]);
            Sparse(a', window) && q == LastOf(a')
  {
    var q := LastOf(a);
    if a == [] || a[|a| - 1] < now - window {
      assert q != [] ==> q[1..] == [];
      assert Evict(q, now - window) == [];
      SparseSnoc(a, now, window);
    } else {
      assert a + [] == a;
    }
  }

  /** So the next request is admitted only more than a window later, however the timestamps run. */
  lemma {:induction false} SingleSparse(times: seq<int>, window: nat)
    ensures Sparse(Admitted(times, window, 1), window)
    ensures Deque(times, window, 1) == LastOf(Admitted(times, window, 1))
  {
    hide Admitted, Deque, Decide, Sparse, LastOf;
    if times == [] {
      NothingYet(window, 1);
      SparseNothing(window);
    } else {
      var init, now := times[..|times| - 1], times[|times| - 1];
      assert times == init + [now];
      SingleSparse(init, window);
      AdmittedSnoc(init, now, window, 1);
      SingleStep(Admitted(init, window, 1), now, window);
    }
  }

  lemma SparseNothing(window: nat)
    ensures Sparse([], window) && LastOf([]) == []
  {
  }

  lemma {:induction false} SparseWithin(a: seq<int>, window: nat, lo: int)
    requires Sparse(a, window)
    ensures |Within(a, lo, lo + window)| <= 1
  {
    if a != [] {
      var init, now := a[..|a| - 1], a[|a| - 1];
      assert forall i :: 0 <= i < |init| ==> init[i] == a[i] && now - a[i] > window;
      SparseWithin(init, window, lo);
      if lo <= now <= lo + window { WithinNone(init, lo, lo + window); }
    }
  }

  /** A limit of one needs no allowance for skew: every closed window of full length holds at most one
      admitted request, whatever the timestamps do. */
  lemma SingleQueryBound(times: seq<int>, window: nat, lo: int)
    ensures |Within(Admitted(times, window, 1), lo, lo + window)| <= 1
  {
    SingleSparse(times, window);
    SparseWithin(Admitted(times, window, 1), window, lo);
  }

  // ---------------------------------------------------------------- exactness without skew

  predicate Ordered(times: seq<int>) {
    forall i, j :: 0 <= i < j < |times| ==> times[i] <= times[j]
  }

  lemma OrderedSnoc(a: seq<int>, now: int)
    requires Ordered(a) && UpTo(a, now)
    ensures Ordered(a + [now])
  {
  }

  /** No entry is later than t. */
  predicate UpTo(a: seq<int>, t: int) {
    forall i :: 0 <= i < |a| ==> a[i] <= t
  }

  lemma OrderedInit(times: seq<int>, now: int)
    requires Ordered(times + [now])
    ensures Ordered(times) && UpTo(times, now)
  {
    var all := times + [now];
    assert forall i :: 0 <= i < |times| ==> all[i] == times[i];
    assert all[|times|] == now;
  }

  /** Admitted entries are in order, and none is later than the latest request. */
  lemma {:induction false} AdmittedOrdered(times: seq<int>, window: int, maxQueries: int, t: int)
    requires Ordered(times) && UpTo(times, t)
    ensures Ordered(Admitted(times, window, maxQueries)) && UpTo(Admitted(times, window, maxQueries), t)
  {
    if times != [] {
      var init, now := times[..|times| - 1], times[|times| - 1];
      assert times == init + [now];
      OrderedInit(init, now);
      AdmittedOrdered(init, window, maxQueries, now);
      AdmittedSnoc(init, now, window, maxQueries);
      OrderedSnoc(Admitted(init, window, maxQueries), now);
    }
  }

  /** Eviction at a time no earlier than any entry leaves exactly the entries of the last window. */
  lemma EvictIsWindow(gone: seq<int>, q: seq<int>, now: int, window: int)
    requires Ordered(gone + q)
    requires forall i :: 0 <= i < |gone| ==> gone[i] < now - window
    requires UpTo(gone + q, now)
    ensures Evict(q, now - window) == Within(gone + q, now - window, now)
  {
    var more := EvictDrops(q, now - window);
    hide Evict, Within;
    var live := Evict(q, now - window);
    var all := gone + q;
    assert forall i :: 0 <= i < |live| ==> live[i] == all[|gone| + |more| + i];
    WithinSkips(gone, q, now - window, now);
    WithinSkips(more, live, now - window, now);
    forall i | 0 <= i < |live| ensures now - window <= live[i] <= now {
      assert live[0] <= live[i];
    }
    WithinAll(live, now - window, now);
  }

  /** When timestamps never decrease, the deque a request is checked against is the admitted history of
      the closed window that ends at it, so the request is refused exactly when at least maxQueries
      requests were admitted in that window. */
  lemma ExactWithoutSkew(times: seq<int>, now: int, window: int, maxQueries: int)
    requires Ordered(times + [now])
    ensures Evict(Deque(times, window, maxQueries), now - window)
         == Within(Admitted(times, window, maxQueries), now - window, now)
    ensures Refused(times, now, window, maxQueries)
       <==> |Within(Admitted(times, window, maxQueries), now - window, now)| >= maxQueries
  {
    OrderedInit(times, now);
    AdmittedOrdered(times, window, maxQueries, now);
    hide Evict, Within, Admitted, Deque, Ordered;
    var gone := DequeIsSuffix(times, window, maxQueries);
    forall i | 0 <= i < |gone| ensures gone[i] < now - window {
      var m :| 0 <= m < |times| && gone[i] < times[m] - window;
    }
    EvictIsWindow(gone, Deque(times, window, maxQueries), now, window);
  }
}
