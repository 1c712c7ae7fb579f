/** What a whole run of resolve calls over the cache servers owes its callers: where every result comes from,
    when it may be empty, that a grant leads to a fetch and a fetch to warm caches, and that the leases keep
    granted fetches of one key apart. */
module CacheRuns {
  import opened Text
  import L = Lru
  import opened CacheTiers
  import opened CacheClient

  // ---------------------------------------------------------------- where a result comes from

  /** The value a call has in hand once it is done asking. */
  function InHand(pc: Pc): Option<string> {
    match pc
    case PutL2(v) => Some(v)
    case PutL1(v) => Some(v)
    case Done(v) => Some(v)
    case _ => None
  }

  /** Event i is a step of the call. */
  predicate StepOf(k: Config, w: World, events: seq<Event>, i: nat, id: nat) {
    i < |events| && events[i].Act? && events[i].id == id && id in Run(k, w, events[..i]).calls
  }

  function CallBefore(k: Config, w: World, events: seq<Event>, i: nat, id: nat): Call
    requires StepOf(k, w, events, i, id)
  {
    Run(k, w, events[..i]).calls[id]
  }

  /** The data plane's reply as `fetchFromDataPlane` passes it on. */
  function Passed(reply: string): string {
    if Blank(reply) || reply == "N/A" then "" else reply
  }

  /** At event i the call got this value: as a hit from a cache, or from its fetch. */
  predicate GotAt(k: Config, w: World, events: seq<Event>, i: nat, id: nat, fetches: nat, value: string)
    requires StepOf(k, w, events, i, id)
  {
    var t, c, e := Run(k, w, events[..i]), CallBefore(k, w, events, i, id), events[i];
    if fetches == 0 then
      && (c.pc.AskL1? || c.pc.AskL2? || c.pc.Poll?)
      && e.fate.Completed? && Serve(k, t, c, e.now).1 == Got(value) && IsHit(value)
    else
      c.pc.Fetch? && value == if e.fate.Completed? then Passed(k.plane(c.domain)) else ""
  }

  lemma StepKept(k: Config, w: World, events: seq<Event>, i: nat, id: nat)
    requires events != [] && StepOf(k, w, events[..|events| - 1], i, id)
    ensures StepOf(k, w, events, i, id)
    ensures events[i] == events[..|events| - 1][i] && events[..i] == events[..|events| - 1][..i]
  {
    assert events[..|events| - 1][..i] == events[..i];
  }

  /** The one step that puts a value in a call's hand. */
  lemma HandStep(k: Config, w: World, c: Call, e: Event)
    requires e.Act? && InHand(c.pc).None? && Counted(c)
    ensures var o := if e.fate.Completed? then Serve(k, w, c, e.now).1 else if e.fate.Interrupt? then Interrupted else Failed;
            var c' := Advance(c, o);
            InHand(c'.pc).Some? ==>
              if c'.fetches == 0 then
                && (c.pc.AskL1? || c.pc.AskL2? || c.pc.Poll?)
                && e.fate.Completed? && Serve(k, w, c, e.now).1 == Got(InHand(c'.pc).value) && IsHit(InHand(c'.pc).value)
              else
                c.pc.Fetch? && InHand(c'.pc).value == if e.fate.Completed? then Passed(k.plane(c.domain)) else ""
  {
    hide ServeL1, ServeL2, IsHit, Blank;
  }

  lemma HandKept(c: Call, o: Outcome)
    requires InHand(c.pc).Some?
    ensures InHand(Advance(c, o).pc) == InHand(c.pc) && Advance(c, o).fetches == c.fetches
  {
  }

  lemma DomainKept(c: Call, o: Outcome)
    ensures Advance(c, o).domain == c.domain
  {
    hide IsHit, Fetched;
  }

  lemma RunLast(k: Config, w: World, events: seq<Event>)
    requires events != []
    ensures Run(k, w, events) == Apply(k, Run(k, w, events[..|events| - 1]), events[|events| - 1])
  {
  }

  /** The outcome that a step of a call gives it. */
  function OutcomeOf(k: Config, w: World, c: Call, e: Event): Outcome
    requires e.Act?
  {
    if e.fate.Completed? then Serve(k, w, c, e.now).1 else if e.fate.Interrupt? then Interrupted else Failed
  }

  /** An event advances the call it belongs to and leaves the others alone. */
  lemma ApplyCall(k: Config, w: World, e: Event, id: nat)
    requires id in w.calls
    ensures id in Apply(k, w, e).calls
    ensures Apply(k, w, e).calls[id]
         == if e.Act? && e.id == id then Advance(w.calls[id], OutcomeOf(k, w, w.calls[id], e)) else w.calls[id]
  {
    hide Serve, Advance;
    if e.Act? && e.id in w.calls { ServeLeavesCalls(k, w, w.calls[e.id], e.now); }
  }

  lemma ApplyNew(k: Config, w: World, e: Event, id: nat)
    requires id !in w.calls && id in Apply(k, w, e).calls
    ensures e.Begin? && Apply(k, w, e).calls[id] == Fresh(e.domain)
  {
    hide Serve, Advance;
    if e.Act? && e.id in w.calls { ServeLeavesCalls(k, w, w.calls[e.id], e.now); }
  }

  /** In every run, whatever a call has in hand it got at one of its own steps: without a fetch, as a hit that a
      cache server sent it, and otherwise from its one fetch, which passes the data plane's reply on and is
      empty only when it was lost or the reply was blank or `N/A`. */
  lemma {:induction false} ResultOrigin(k: Config, w: World, events: seq<Event>, id: nat) returns (i: nat)
    requires w.calls == map[] && id in Run(k, w, events).calls && InHand(Run(k, w, events).calls[id].pc).Some?
    ensures var c := Run(k, w, events).calls[id];
            && StepOf(k, w, events, i, id) && CallBefore(k, w, events, i, id).domain == c.domain
            && c.fetches <= 1 && GotAt(k, w, events, i, id, c.fetches, InHand(c.pc).value)
  {
    hide Run, Apply, Advance, Serve, Counted, IsHit, Passed;
    if events == [] {
      CacheClient.RunNothing(k, w);
      assert false;
    }
    var init, e := events[..|events| - 1], events[|events| - 1];
    var t := Run(k, w, init);
    RunLast(k, w, events);
    CallsCounted(k, w, events, id);
    FetchesCounted(Run(k, w, events).calls[id]);
    if id !in t.calls {
      ApplyNew(k, t, e, id);
      assert false;
    }
    ApplyCall(k, t, e, id);
    var c := t.calls[id];
    if InHand(c.pc).Some? {
      i := ResultOrigin(k, w, init, id);
      StepKept(k, w, events, i, id);
      if e.Act? && e.id == id {
        HandKept(c, OutcomeOf(k, t, c, e));
        DomainKept(c, OutcomeOf(k, t, c, e));
      }
    } else {
      i := |init|;
      CallsCounted(k, w, init, id);
      HandStep(k, t, c, e);
      DomainKept(c, OutcomeOf(k, t, c, e));
    }
  }

  lemma FetchesCounted(c: Call)
    requires Counted(c)
    ensures c.fetches <= 1
  {
  }

  /** The call's fetch was lost, or lost its reply. */
  ghost predicate FetchLost(k: Config, w: World, events: seq<Event>, id: nat) {
    exists i: nat :: StepOf(k, w, events, i, id) && CallBefore(k, w, events, i, id).pc.Fetch? && !events[i].fate.Completed?
  }

  /** A finished call returned the empty string only if its fetch was lost or the data plane's reply for its
      name was blank or `N/A`. */
  lemma EmptyAnswer(k: Config, w: World, events: seq<Event>, id: nat)
    requires w.calls == map[] && id in Run(k, w, events).calls && Run(k, w, events).calls[id].pc == Done("")
    ensures var reply := k.plane(Run(k, w, events).calls[id].domain);
            FetchLost(k, w, events, id) || Blank(reply) || reply == "N/A"
  {
    hide Run, Serve, StepOf;
    var i := ResultOrigin(k, w, events, id);
    NoHitEmpty();
    assert CallBefore(k, w, events, i, id).pc.Fetch?;
  }

  lemma NoHitEmpty()
    ensures !IsHit("")
  {
  }

  /** A finished call whose fetch, if it made one, was not lost returned exactly the data plane's answer. */
  lemma CompleteAnswer(k: Config, w: World, names: set<string>, events: seq<Event>, id: nat)
    requires Initial(w) && ClashFree(k, names) && Over(names, events)
    requires id in Run(k, w, events).calls && Run(k, w, events).calls[id].pc.Done?
    requires !FetchLost(k, w, events, id)
    ensures var c := Run(k, w, events).calls[id]; c.pc.result == Passed(k.plane(c.domain))
  {
    hide Run, ClashFree, Over, FetchLost;
    ResolveAnswers(k, w, names, events, id);
    if Run(k, w, events).calls[id].pc.result == "" { EmptyAnswer(k, w, events, id); }
  }

  // ---------------------------------------------------------------- what the caches hold afterwards

  lemma StoredStays(c: L.Cache, size: nat, key: string, value: string)
    requires size >= 1
    ensures var c' := L.Store(c, size, key, value); key in c'.vals && c'.vals[key] == value
  {
    var order := L.Without(c.order, key) + [key];
    if |order| > size { OthersFirst(c.order, key); }
  }

  lemma {:induction false} OthersFirst(s: seq<string>, key: string)
    ensures key !in L.Without(s, key)
  {
    if s != [] { OthersFirst(s[..|s| - 1], key); }
  }

  /** A SET that reaches its server leaves the entry there, whatever the server held and whoever else is at work:
      first on L2, then on L1. */
  lemma PutTakesEffect(k: Config, w: World, e: Event)
    requires e.Act? && e.id in w.calls && (e.fate.Completed? || e.fate.ReplyLost?)
    requires k.l1Size >= 1 && k.l2Size >= 1
    ensures var c, w' := w.calls[e.id], Apply(k, w, e);
            && (c.pc.PutL2? && k.l2Of(c.domain) in w.l2 ==>
                  var entry := Read(RStrip("SET;" + c.domain + ";" + c.pc.value));
                  && entry.Set? && k.l2Of(c.domain) in w'.l2
                  && var cache := w'.l2[k.l2Of(c.domain)].cache;
                     entry.key in cache.vals && cache.vals[entry.key] == entry.value)
            && (c.pc.PutL1? && k.l1Of(c.domain) in w.l1 ==>
                  var entry := Read(RStrip("SET;" + c.domain + ";" + c.pc.value));
                  && entry.Set? && k.l1Of(c.domain) in w'.l1
                  && var cache := w'.l1[k.l1Of(c.domain)];
                     entry.key in cache.vals && cache.vals[entry.key] == entry.value)
  {
    hide Read, Strip, L.Store, Advance;
    var c := w.calls[e.id];
    if c.pc.PutL2? || c.pc.PutL1? {
      SetStores(c.domain, c.pc.value);
      var entry := Read(RStrip("SET;" + c.domain + ";" + c.pc.value));
      if c.pc.PutL2? && k.l2Of(c.domain) in w.l2 {
        StoredStays(w.l2[k.l2Of(c.domain)].cache, k.l2Size, entry.key, entry.value);
      }
      if c.pc.PutL1? && k.l1Of(c.domain) in w.l1 {
        StoredStays(w.l1[k.l1Of(c.domain)], k.l1Size, entry.key, entry.value);
      }
    }
  }

  /** Every text but a blank one, `N/A` and a lease is a hit. */
  lemma HitExact(v: string)
    ensures IsHit(v) <==> (exists i :: 0 <= i < |v| && !IsSpace(v[i])) && v != "N/A" && !(|v| >= 6 && v[..6] == "LEASE;")
  {
  }

  /** A value that an L1 or L2 server holds under the name is what the next completed question for it brings: L1
      ends the call, and what L2 brings, also to a poll, goes to L1 first. */
  lemma CachedIsServed(k: Config, w: World, e: Event, v: string)
    requires e.Act? && e.id in w.calls && e.fate.Completed? && IsHit(v)
    ensures var c := w.calls[e.id]; var s, t, key := k.l1Of(c.domain), k.l2Of(c.domain), Strip(c.domain);
            && (c.pc.AskL1? && s in w.l1 && key in w.l1[s].vals && w.l1[s].vals[key] == v ==>
                  Apply(k, w, e).calls[e.id].pc == Done(v))
            && ((c.pc.AskL2? || c.pc.Poll?) && t in w.l2 && key in w.l2[t].cache.vals && w.l2[t].cache.vals[key] == v ==>
                  Apply(k, w, e).calls[e.id].pc == PutL1(v))
  {
    hide Read, Strip, L.Touch, IsHit;
    GetLine(w.calls[e.id].domain);
  }

  /** On cold caches a lone call whose sends all complete misses L1, is granted the lease, fetches once, stores in L2
      and L1 and returns the data plane's reply; the next call for the name is answered by L1 alone. */
  lemma ColdThenWarm(k: Config, w: World, d: string, now: real)
    requires Initial(w) && k.l1Of(d) in w.l1 && k.l2Of(d) in w.l2 && k.l1Size >= 1 && k.l2Size >= 1
    requires Trimmed(d) && ';' !in d && Trimmed(k.plane(d)) && IsHit(k.plane(d))
    ensures var first, second := Act(0, Completed, now), Act(1, Completed, now);
            var w1 := Run(k, w, [Begin(0, d), first, first, first, first, first]);
            var w2 := Run(k, w, [Begin(0, d), first, first, first, first, first, Begin(1, d), second]);
            && w1.calls == map[0 := Call(d, Done(k.plane(d)), 0, 1)]
            && w2.calls == w1.calls[1 := Call(d, Done(k.plane(d)), 0, 0)]
  {
    hide Run, Apply;
    var first, second := Act(0, Completed, now), Act(1, Completed, now);
    var a := [Begin(0, d)];
    assert [Begin(0, d)] == [] + a;
    CacheClient.RunNothing(k, w);
    CacheClient.RunSnoc(k, w, [], Begin(0, d));
    CacheClient.RunSnoc(k, w, a, first);
    CacheClient.RunSnoc(k, w, a + [first], first);
    CacheClient.RunSnoc(k, w, a + [first] + [first], first);
    CacheClient.RunSnoc(k, w, a + [first] + [first] + [first], first);
    CacheClient.RunSnoc(k, w, a + [first] + [first] + [first] + [first], first);
    var all := a + [first] + [first] + [first] + [first] + [first];
    assert all == [Begin(0, d), first, first, first, first, first];
    CacheClient.RunSnoc(k, w, all, Begin(1, d));
    CacheClient.RunSnoc(k, w, all + [Begin(1, d)], second);
    assert all + [Begin(1, d)] + [second] == [Begin(0, d), first, first, first, first, first, Begin(1, d), second];
    ColdStart(k, w, d, now);
    ColdFetch(k, Run(k, w, a + [first] + [first]), d, now);
    WarmRead(k, Run(k, w, all), d, now);
  }

  lemma ColdStart(k: Config, w: World, d: string, now: real)
    requires Initial(w) && k.l1Of(d) in w.l1 && k.l2Of(d) in w.l2
    ensures var first := Act(0, Completed, now);
            var w' := Apply(k, Apply(k, Apply(k, w, Begin(0, d)), first), first);
            && w'.calls == map[0 := Call(d, Fetch(true), 0, 0)]
            && w'.l1.Keys == w.l1.Keys && w'.l2.Keys == w.l2.Keys
  {
    hide Read, Strip, IsHit;
    GetLine(d);
    NoHits();
  }

  lemma ColdFetch(k: Config, w: World, d: string, now: real)
    requires w.calls == map[0 := Call(d, Fetch(true), 0, 0)]
    requires k.l1Of(d) in w.l1 && k.l2Of(d) in w.l2 && k.l1Size >= 1 && k.l2Size >= 1
    requires Trimmed(d) && ';' !in d && Trimmed(k.plane(d)) && IsHit(k.plane(d))
    ensures var first := Act(0, Completed, now);
            var w' := Apply(k, Apply(k, Apply(k, w, first), first), first);
            && w'.calls == map[0 := Call(d, Done(k.plane(d)), 0, 1)]
            && k.l1Of(d) in w'.l1 && d in w'.l1[k.l1Of(d)].vals && w'.l1[k.l1Of(d)].vals[d] == k.plane(d)
  {
    hide Read, L.Store, Trimmed, RStrip;
    var v, s := k.plane(d), k.l1Of(d);
    SetLine(d, v);
    StoredStays(w.l1[s], k.l1Size, d, v);
  }

  lemma WarmRead(k: Config, w: World, d: string, now: real)
    requires w.calls == map[0 := Call(d, Done(k.plane(d)), 0, 1)] && Trimmed(d) && IsHit(k.plane(d))
    requires k.l1Of(d) in w.l1 && d in w.l1[k.l1Of(d)].vals && w.l1[k.l1Of(d)].vals[d] == k.plane(d)
    ensures Apply(k, Apply(k, w, Begin(1, d)), Act(1, Completed, now)).calls
         == w.calls[1 := Call(d, Done(k.plane(d)), 0, 0)]
  {
    hide Read, L.Touch, IsHit, RStrip, LStrip;
    GetLine(d);
    StripId(d);
  }

  // ---------------------------------------------------------------- leases and fetches

  /** The request that an event makes reach the L2 server at s, if any. */
  function Reaching(k: Config, w: World, e: Event, s: nat): seq<Request> {
    if !e.Act? || e.id !in w.calls || e.fate.Lost? || e.fate.Interrupt? || k.l2Of(w.calls[e.id].domain) != s then []
    else
      var d := w.calls[e.id].domain;
      match w.calls[e.id].pc
      case AskL2 => [Request(Read(RStrip("GET;" + d)), e.now)]
      case Poll(_) => [Request(Read(RStrip("GET;" + d)), e.now)]
      case PutL2(v) => [Request(Read(RStrip("SET;" + d + ";" + v)), e.now)]
      case _ => []
  }

  /** All requests that reach the L2 server at s, in order. */
  function Trace(k: Config, w: World, events: seq<Event>, s: nat): seq<Request> {
    if events == [] then []
    else
      var init := events[..|events| - 1];
      Trace(k, w, init, s) + Reaching(k, Run(k, w, init), events[|events| - 1], s)
  }

  lemma ApplyServer(k: Config, w: World, e: Event, s: nat)
    requires s in w.l2
    ensures s in Apply(k, w, e).l2
    ensures var rs := Reaching(k, w, e, s);
            Apply(k, w, e).l2[s] == if rs == [] then w.l2[s] else L2Step(w.l2[s], k.l2Size, rs[0].cmd, rs[0].now).0
  {
    hide Read, L1Step, L2Step, Advance, RStrip;
  }

  lemma AfterSnoc(capacity: nat, trace: seq<Request>, r: Request)
    ensures After(capacity, trace + [r]) == L2Step(After(capacity, trace), capacity, r.cmd, r.now).0
  {
    assert (trace + [r])[..|trace|] == trace;
  }

  /** An L2 server of a run is the L2 server of the lease laws, fed with the requests that reach it. */
  lemma {:induction false} ServerIsTrace(k: Config, w: World, events: seq<Event>, s: nat)
    requires Initial(w) && s in w.l2
    ensures s in Run(k, w, events).l2 && Run(k, w, events).l2[s] == After(k.l2Size, Trace(k, w, events, s))
  {
    hide Apply, Reaching, L2Step;
    if events != [] {
      var init, e := events[..|events| - 1], events[|events| - 1];
      var t := Run(k, w, init);
      ServerIsTrace(k, w, init, s);
      ApplyServer(k, t, e, s);
      AtMostOne(k, t, e, s);
      var rs := Reaching(k, t, e, s);
      if rs != [] {
        assert rs == [rs[0]];
        AfterSnoc(k.l2Size, Trace(k, w, init, s), rs[0]);
      } else {
        assert Trace(k, w, init, s) + [] == Trace(k, w, init, s);
      }
    }
  }

  lemma AtMostOne(k: Config, w: World, e: Event, s: nat)
    ensures |Reaching(k, w, e, s)| <= 1
    ensures forall r :: r in Reaching(k, w, e, s) ==> e.Act? && r.now == e.now
  {
  }

  /** Event i is a question of a call for the key, not in the cache of the L2 server at s, that is answered
      `LEASE;GRANTED`. */
  predicate GrantedAt(k: Config, w: World, events: seq<Event>, i: nat, s: nat, key: string) {
    && i < |events| && events[i].Act? && events[i].fate.Completed?
    && var t := Run(k, w, events[..i]);
       && events[i].id in t.calls && s in t.l2 && key !in t.l2[s].cache.vals
       && var c := t.calls[events[i].id];
          && (c.pc.AskL2? || c.pc.Poll?) && k.l2Of(c.domain) == s && Strip(c.domain) == key
          && Serve(k, t, c, events[i].now).1 == Got("LEASE;GRANTED")
  }

  /** A call that is granted the lease fetches, and keeps what it fetches. */
  lemma GrantFetches(k: Config, w: World, events: seq<Event>, i: nat, s: nat, key: string)
    requires GrantedAt(k, w, events, i, s, key)
    ensures events[i].id in Run(k, w, events[..i + 1]).calls
    ensures Run(k, w, events[..i + 1]).calls[events[i].id].pc == Fetch(true)
  {
    hide Run, Serve, Strip;
    assert events[..i + 1][..i] == events[..i];
    RunLast(k, w, events[..i + 1]);
    ApplyCall(k, Run(k, w, events[..i]), events[i], events[i].id);
    NoHits();
    assert "LEASE;GRANTED"[..6] == "LEASE;";
  }

  /** Events i and j are grants of one key, and no SET of the key reaches the server between them. */
  predicate NoSetBetween(k: Config, w: World, events: seq<Event>, i: nat, j: nat, s: nat, key: string)
    requires j <= |events|
  {
    forall m :: i < m < j ==>
      forall r :: r in Reaching(k, Run(k, w, events[..m]), events[m], s) ==> !(r.cmd.Set? && r.cmd.key == key)
  }

  predicate ClockedRun(events: seq<Event>) {
    forall a, b :: 0 <= a < b < |events| && events[a].Act? && events[b].Act? ==> events[a].now <= events[b].now
  }

  /** How many requests have reached the server before event n. */
  function Count(k: Config, w: World, events: seq<Event>, s: nat, n: nat): nat
    requires n <= |events|
  {
    |Trace(k, w, events[..n], s)|
  }

  lemma {:induction false} TracePrefix(k: Config, w: World, events: seq<Event>, s: nat, n: nat)
    requires n <= |events|
    ensures Trace(k, w, events[..n], s) <= Trace(k, w, events, s)
  {
    hide Reaching, Run;
    if n == |events| {
      assert events[..n] == events;
    } else {
      TracePrefix(k, w, events[..|events| - 1], s, n);
      assert events[..|events| - 1][..n] == events[..n];
    }
  }

  lemma TraceStep(k: Config, w: World, events: seq<Event>, s: nat, n: nat)
    requires n < |events|
    ensures Trace(k, w, events[..n + 1], s)
         == Trace(k, w, events[..n], s) + Reaching(k, Run(k, w, events[..n]), events[n], s)
  {
    assert events[..n + 1][..n] == events[..n];
  }

  lemma {:induction false} CountMonotone(k: Config, w: World, events: seq<Event>, s: nat, n: nat, m: nat)
    requires n <= m <= |events|
    ensures Count(k, w, events, s, n) <= Count(k, w, events, s, m)
  {
    hide Trace;
    TracePrefix(k, w, events[..m], s, n);
    assert events[..m][..n] == events[..n];
  }

  /** The event behind the p-th request of a server. */
  lemma {:induction false} RequestEvent(k: Config, w: World, events: seq<Event>, s: nat, p: nat) returns (n: nat)
    requires p < |Trace(k, w, events, s)|
    ensures n < |events| && Count(k, w, events, s, n) == p
    ensures Reaching(k, Run(k, w, events[..n]), events[n], s) == [Trace(k, w, events, s)[p]]
  {
    hide Reaching, Run;
    var init := events[..|events| - 1];
    AtMostOne(k, Run(k, w, init), events[|events| - 1], s);
    if p < |Trace(k, w, init, s)| {
      n := RequestEvent(k, w, init, s, p);
      assert init[..n] == events[..n];
    } else {
      n := |init|;
    }
  }

  lemma TraceClocked(k: Config, w: World, events: seq<Event>, s: nat)
    requires ClockedRun(events)
    ensures Clocked(Trace(k, w, events, s))
  {
    hide Trace, Run, Reaching, Count;
    var trace := Trace(k, w, events, s);
    forall p, q | 0 <= p < q < |trace| ensures trace[p].now <= trace[q].now {
      var n := RequestEvent(k, w, events, s, p);
      var m := RequestEvent(k, w, events, s, q);
      AtMostOne(k, Run(k, w, events[..n]), events[n], s);
      AtMostOne(k, Run(k, w, events[..m]), events[m], s);
      assert trace[p] in Reaching(k, Run(k, w, events[..n]), events[n], s);
      assert trace[q] in Reaching(k, Run(k, w, events[..m]), events[m], s);
      if m < n { CountMonotone(k, w, events, s, m, n); }
    }
  }

  /** A granted event is a grant of the server's trace. */
  lemma GrantTraced(k: Config, w: World, events: seq<Event>, i: nat, s: nat, key: string)
    requires Initial(w) && s in w.l2 && GrantedAt(k, w, events, i, s, key)
    ensures var p, trace := Count(k, w, events, s, i), Trace(k, w, events, s);
            GrantAt(k.l2Size, trace, p, key) && trace[p].now == events[i].now
  {
    hide Run, Trace, Read, Strip, L2Step, RStrip;
    var t, e := Run(k, w, events[..i]), events[i];
    var trace, before := Trace(k, w, events, s), Trace(k, w, events[..i], s);
    ServerIsTrace(k, w, events[..i], s);
    GetLine(t.calls[e.id].domain);
    TraceStep(k, w, events, s, i);
    TracePrefix(k, w, events, s, i);
    TracePrefix(k, w, events, s, i + 1);
    assert Trace(k, w, events[..i + 1], s) == before + [Request(Get(key), e.now)];
    assert trace[..|before|] == before && trace[|before|] == Request(Get(key), e.now);
    GrantReply(t.l2[s], k.l2Size, key, e.now);
  }

  lemma GrantReply(s: L2, capacity: nat, key: string, now: real)
    requires key !in s.cache.vals && Show(L2Step(s, capacity, Get(key), now).1) == "LEASE;GRANTED"
    ensures L2Step(s, capacity, Get(key), now).1 == Granted
  {
    assert Show(Waiting)[6] == 'W';
  }

  /** The herd is held off: in any run with a non-decreasing clock, two calls that are granted the lease of one key by
      one server, with no SET of it reaching the server in between, are more than five seconds apart. */
  lemma GrantedFetchesApart(k: Config, w: World, events: seq<Event>, i: nat, j: nat, s: nat, key: string)
    requires Initial(w) && s in w.l2 && ClockedRun(events) && i < j < |events|
    requires GrantedAt(k, w, events, i, s, key) && GrantedAt(k, w, events, j, s, key)
    requires NoSetBetween(k, w, events, i, j, s, key)
    ensures events[j].now - events[i].now > 5.0
  {
    hide Run, Trace, GrantedAt, Reaching, ClockedRun;
    var trace, p, q := Trace(k, w, events, s), Count(k, w, events, s, i), Count(k, w, events, s, j);
    TraceClocked(k, w, events, s);
    GrantTraced(k, w, events, i, s, key);
    GrantTraced(k, w, events, j, s, key);
    GrantCounts(k, w, events, i, j, s, key);
    forall m | p < m < q && m < |trace| ensures !(trace[m].cmd.Set? && trace[m].cmd.key == key) {
      var n := RequestEvent(k, w, events, s, m);
      if n <= i { CountMonotone(k, w, events, s, n, i); }
      if j <= n { CountMonotone(k, w, events, s, j, n); }
      assert trace[m] in Reaching(k, Run(k, w, events[..n]), events[n], s);
    }
    LeaseExclusive(k.l2Size, trace, p, q, key);
  }

  lemma GrantCounts(k: Config, w: World, events: seq<Event>, i: nat, j: nat, s: nat, key: string)
    requires GrantedAt(k, w, events, i, s, key) && i < j <= |events|
    ensures Count(k, w, events, s, i) < Count(k, w, events, s, j)
  {
    hide Run, Trace, Read, Strip, RStrip;
    TraceStep(k, w, events, s, i);
    CountMonotone(k, w, events, s, i + 1, j);
  }
}
