/** `CacheClient` (dns-control-plane/src/main/java/com/dns/cache/CacheClient.java): one resolve call as a
    machine that makes one send at a time, and any number of such calls interleaved over shared caches. */
module CacheClient {
  import opened Text
  import L = Lru
  import opened CacheTiers

  const LEASE_MAX_RETRIES := 30

  // ---------------------------------------------------------------- server selection

  const FNV_OFFSET: bv64 := 0xcbf29ce484222325

  /** A character's bit pattern. */
  function Code(c: char): bv64 {
    c as int as bv64
  }

  function Round(h: bv64, code: bv64): bv64 {
    (h ^ code) * 0x100000001b3
  }

  /** One round of the hash, wrapping at 64 bits. */
  function Mix(h: bv64, c: char): bv64 {
    Round(h, Code(c))
  }

  function Fnv(key: string): bv64 {
    if key == "" then FNV_OFFSET else Mix(Fnv(key[..|key| - 1]), key[|key| - 1])
  }

  /** The 64-bit pattern as Java's signed long. */
  function Signed(h: bv64): int {
    if h as int < 0x8000_0000_0000_0000 then h as int else h as int - 0x1_0000_0000_0000_0000
  }

  /** `Math.floorMod` with a positive divisor. */
  function ServerIndex(key: string, n: nat): (i: nat)
    requires n > 0
    ensures i < n
  {
    Signed(Fnv(key)) % n
  }

  /** The published FNV-1a values of the empty string and of "a". */
  lemma FnvValues()
    ensures Fnv("") == 0xcbf29ce484222325 && Fnv("a") == 0xaf63dc4c8601ec8c
    ensures ServerIndex("", 3) == 1 && ServerIndex("a", 3) == 0
  {
    assert "a"[..0] == "";
    assert 'a' as int as bv64 == 97;
  }

  /** The prime has an inverse modulo 2^64, so a round can be undone. */
  function Unround(h: bv64, code: bv64): bv64 {
    (h * 0xce965057aff6957b) ^ code
  }

  lemma RoundUndone(h: bv64, code: bv64)
    ensures Unround(Round(h, code), code) == h && Unround(Round(h, code), h) == code
  {
  }

  lemma RoundInjective(h: bv64, h': bv64, a: bv64, b: bv64)
    ensures Round(h, a) == Round(h', a) ==> h == h'
    ensures Round(h, a) == Round(h, b) ==> a == b
  {
    hide Round, Unround;
    RoundUndone(h, a);
    RoundUndone(h', a);
    RoundUndone(h, b);
  }

  /** One round is injective in the hash and in the character's bit pattern. */
  lemma MixInjective(h: bv64, h': bv64, c: char, c': char)
    ensures Mix(h, c) == Mix(h', c) ==> h == h'
    ensures Mix(h, c) == Mix(h, c') ==> Code(c) == Code(c')
  {
    hide Code, Round;
    RoundInjective(h, h', Code(c), Code(c'));
  }

  lemma {:induction false} FnvSuffix(a: string, b: string, t: string)
    requires Fnv(a) != Fnv(b)
    ensures Fnv(a + t) != Fnv(b + t)
  {
    hide Mix;
    if t == "" {
      assert a + t == a && b + t == b;
    } else {
      var init, c := t[..|t| - 1], t[|t| - 1];
      FnvSuffix(a, b, init);
      assert (a + t)[..|a + t| - 1] == a + init && (b + t)[..|b + t| - 1] == b + init;
      MixInjective(Fnv(a + init), Fnv(b + init), c, c);
    }
  }

  /** Keys that differ in one character hash apart. */
  lemma FnvApart(a: string, c: char, c': char, t: string)
    requires Code(c) != Code(c')
    ensures Fnv(a + [c] + t) != Fnv(a + [c'] + t)
  {
    hide Mix, Code;
    assert (a + [c])[..|a|] == a && (a + [c'])[..|a|] == a;
    MixInjective(Fnv(a), Fnv(a), c, c');
    FnvSuffix(a + [c], a + [c'], t);
  }

  /** Every client with the same server list sends a key to the same listed server. */
  method SelectServer(servers: seq<nat>, key: string, leader: nat) returns (server: nat)
    ensures servers == [] ==> server == leader
    ensures servers != [] ==> server == servers[ServerIndex(key, |servers|)]
  {
    hide Mix, Signed;
    if servers == [] { return leader; }
    var hash := FNV_OFFSET;
    for i := 0 to |key|
      invariant hash == Fnv(key[..i])
    {
      assert key[..i + 1][..i] == key[..i];
      hash := Mix(hash, key[i]);
    }
    assert key[..|key|] == key;
    return servers[Signed(hash) % |servers|];
  }

  // ---------------------------------------------------------------- one call

  predicate IsHit(r: string) {
    !Blank(r) && r != "N/A" && !("LEASE;" <= r)
  }

  /** The send a call makes next, or its result. `keep` says whether a fetched value goes into the caches. */
  datatype Pc =
    | AskL1
    | AskL2
    | Poll(i: nat)
    | Fetch(keep: bool)
    | PutL2(value: string)
    | PutL1(value: string)
    | Done(result: string)

  datatype Call = Call(domain: string, pc: Pc, polls: nat, fetches: nat)

  /** What a send gives back: a line, nothing, or an interrupt during the sleep before a poll. */
  datatype Outcome = Got(text: string) | Failed | Interrupted

  function Fresh(domain: string): Call {
    Call(domain, AskL1, 0, 0)
  }

  /** `fetchFromDataPlane` */
  function Fetched(o: Outcome): string {
    if o.Got? && !Blank(o.text) && o.text != "N/A" then o.text else ""
  }

  /** The next step of `resolve` and `waitForLease`. */
  function Advance(c: Call, o: Outcome): Call {
    match c.pc
    case AskL1 =>
      c.(pc := if o.Got? && IsHit(o.text) then Done(o.text) else AskL2)
    case AskL2 =>
      c.(pc := if o.Got? && IsHit(o.text) then PutL1(o.text)
               else if o.Got? && o.text == "LEASE;GRANTED" then Fetch(true)
               else if o.Got? && "LEASE;" <= o.text then Poll(0)
               else Fetch(true))
    case Poll(i) =>
      if o.Interrupted? then c.(pc := Fetch(false))
      else
        c.(polls := c.polls + 1,
           pc := if o.Got? && IsHit(o.text) then PutL1(o.text)
                 else if !o.Got? || !("LEASE;" <= o.text) then Fetch(false)
                 else if "LEASE;GRANTED" <= o.text then Fetch(true)
                 else if i + 1 < LEASE_MAX_RETRIES then Poll(i + 1)
                 else Fetch(false))
    case Fetch(keep) =>
      var v := Fetched(o);
      c.(fetches := c.fetches + 1, pc := if keep && !Blank(v) then PutL2(v) else Done(v))
    case PutL2(v) => c.(pc := PutL1(v))
    case PutL1(v) => c.(pc := Done(v))
    case Done(_) => c
  }

  function Drive(c: Call, outcomes: seq<Outcome>): Call {
    if outcomes == [] then c else Advance(Drive(c, outcomes[..|outcomes| - 1]), outcomes[|outcomes| - 1])
  }

  /** `resolve` and `waitForLease` as written, fed with the outcomes of their sends in order, take exactly
      the machine's steps. */
  method Resolve(domain: string, outcomes: seq<Outcome>) returns (result: string, used: nat)
    requires |outcomes| >= 35
    ensures used <= 35 && Drive(Fresh(domain), outcomes[..used]).pc == Done(result)
  {
    hide IsHit, Fetched;
    Unrolled(Fresh(domain), outcomes, 0);
    Unrolled(Fresh(domain), outcomes, 1);
    var r := outcomes[0];
    if r.Got? && IsHit(r.text) { return r.text, 1; }
    r := outcomes[1];
    if r.Got? && IsHit(r.text) {
      Unrolled(Fresh(domain), outcomes, 2);
      return r.text, 3;
    }
    if r.Got? && r.text == "LEASE;GRANTED" {
      result, used := FetchAndKeep(domain, outcomes, 2);
      return;
    }
    if r.Got? && "LEASE;" <= r.text {
      result, used := WaitForLease(domain, outcomes);
      return;
    }
    result, used := FetchAndKeep(domain, outcomes, 2);
  }

  method FetchAndKeep(domain: string, outcomes: seq<Outcome>, at: nat) returns (result: string, used: nat)
    requires at + 3 <= |outcomes| && Drive(Fresh(domain), outcomes[..at]).pc == Fetch(true)
    ensures at < used <= at + 3 && Drive(Fresh(domain), outcomes[..used]).pc == Done(result)
  {
    Unrolled(Fresh(domain), outcomes, at);
    Unrolled(Fresh(domain), outcomes, at + 1);
    Unrolled(Fresh(domain), outcomes, at + 2);
    hide Drive;
    var value := Fetched(outcomes[at]);
    used := if Blank(value) then at + 1 else at + 3;
    result := value;
  }

  method WaitForLease(domain: string, outcomes: seq<Outcome>) returns (result: string, used: nat)
    requires |outcomes| >= 35 && Drive(Fresh(domain), outcomes[..2]).pc == Poll(0)
    ensures used <= 35 && Drive(Fresh(domain), outcomes[..used]).pc == Done(result)
  {
    hide Drive, IsHit, Fetched;
    var i := 0;
    var broke := false;
    while i < LEASE_MAX_RETRIES && !broke
      invariant i <= LEASE_MAX_RETRIES
      invariant Drive(Fresh(domain), outcomes[..i + 2]).pc
             == if broke || i == LEASE_MAX_RETRIES then Fetch(false) else Poll(i)
      decreases LEASE_MAX_RETRIES - i, !broke
    {
      Unrolled(Fresh(domain), outcomes, i + 2);
      var r := outcomes[i + 2];
      if r.Got? && IsHit(r.text) {
        Unrolled(Fresh(domain), outcomes, i + 3);
        return r.text, i + 4;
      }
      if !r.Got? || !("LEASE;" <= r.text) {
        broke := true;
      } else if "LEASE;GRANTED" <= r.text {
        result, used := FetchAndKeep(domain, outcomes, i + 3);
        return;
      }
      i := i + 1;
    }
    Unrolled(Fresh(domain), outcomes, i + 2);
    return Fetched(outcomes[i + 2]), i + 3;
  }

  lemma Unrolled(c: Call, outcomes: seq<Outcome>, n: nat)
    requires n < |outcomes|
    ensures Drive(c, outcomes[..n + 1]) == Advance(Drive(c, outcomes[..n]), outcomes[n])
  {
    assert outcomes[..n + 1][..n] == outcomes[..n];
  }

  /** Sends a call can still make. */
  function Budget(pc: Pc): nat {
    match pc
    case AskL1 => 35
    case AskL2 => 34
    case Poll(i) => if i < LEASE_MAX_RETRIES then 33 - i else 3
    case Fetch(_) => 3
    case PutL2(_) => 2
    case PutL1(_) => 1
    case Done(_) => 0
  }

  /** Every send uses up budget, whatever comes back. */
  lemma CallProgress(c: Call, o: Outcome)
    requires c.pc.Poll? ==> c.pc.i < LEASE_MAX_RETRIES
    ensures Advance(c, o).pc.Poll? ==> Advance(c, o).pc.i < LEASE_MAX_RETRIES
    ensures Budget(Advance(c, o).pc) < Budget(c.pc) || c.pc.Done?
    ensures c.pc.Done? ==> Advance(c, o) == c
  {
    hide IsHit, Fetched;
  }

  /** Whatever its sends give back, a call is finished after at most 35 of them. */
  lemma {:induction false} CallEnds(domain: string, outcomes: seq<Outcome>)
    ensures var c := Drive(Fresh(domain), outcomes);
            && (c.pc.Poll? ==> c.pc.i < LEASE_MAX_RETRIES)
            && (c.pc.Done? || Budget(c.pc) + |outcomes| <= 35)
    ensures |outcomes| >= 35 ==> Drive(Fresh(domain), outcomes).pc.Done?
  {
    hide Advance;
    if outcomes != [] {
      var init := outcomes[..|outcomes| - 1];
      CallEnds(domain, init);
      CallProgress(Drive(Fresh(domain), init), outcomes[|outcomes| - 1]);
    }
  }

  // ---------------------------------------------------------------- what a call has heard

  predicate Miss(o: Outcome) {
    !(o.Got? && IsHit(o.text))
  }

  /** A reply that makes `resolve` wait: any lease but a grant. */
  predicate WaitsFirst(o: Outcome) {
    o.Got? && "LEASE;" <= o.text && o.text != "LEASE;GRANTED"
  }

  predicate Grants(o: Outcome) {
    o.Got? && "LEASE;GRANTED" <= o.text
  }

  /** A reply that makes `waitForLease` wait on. */
  predicate Waits(o: Outcome) {
    o.Got? && "LEASE;" <= o.text && !Grants(o)
  }

  /** A miss in L1, a lease held by somebody else in L2, and nothing else since. */
  predicate StillWaiting(os: seq<Outcome>) {
    |os| >= 2 && Miss(os[0]) && WaitsFirst(os[1]) && forall i :: 2 <= i < |os| ==> Waits(os[i])
  }

  lemma LeaseKinds(o: Outcome)
    ensures WaitsFirst(o) || Waits(o) || Grants(o) ==> Miss(o)
    ensures Grants(o) ==> o.Got? && "LEASE;" <= o.text
  {
    if Grants(o) { assert o.text[..6] == "LEASE;GRANTED"[..6] == "LEASE;"; }
  }

  lemma WaitingSnoc(os: seq<Outcome>, o: Outcome)
    ensures |os| >= 2 ==> (StillWaiting(os + [o]) <==> StillWaiting(os) && Waits(o))
    ensures |os| == 1 ==> (StillWaiting(os + [o]) <==> Miss(os[0]) && WaitsFirst(o))
  {
    var all := os + [o];
    assert forall i :: 0 <= i < |os| ==> all[i] == os[i];
    assert all[|os|] == o;
  }

  /** A call asks L1 and then L2 first, polls up to thirty times while it is told to wait, and fetches: to
      keep the value, after a grant or when L2 has no lease to offer, and without keeping it, when a poll
      fails, is interrupted, is answered with something else, or is the thirtieth. */
  predicate FetchesToKeep(os: seq<Outcome>) {
    || (|os| == 2 && Miss(os[0]) && Miss(os[1]) && !WaitsFirst(os[1]))
    || (3 <= |os| <= 32 && StillWaiting(os[..|os| - 1]) && Grants(os[|os| - 1]))
  }

  predicate FetchesToReturn(os: seq<Outcome>) {
    && 3 <= |os| <= 32 && StillWaiting(os[..|os| - 1])
    && Miss(os[|os| - 1]) && !Grants(os[|os| - 1]) && (Waits(os[|os| - 1]) ==> |os| == 32)
  }

  /** The state of a call that has heard these outcomes, while it is still asking. */
  predicate Asking(pc: Pc, os: seq<Outcome>) {
    && (pc.AskL1? <==> os == [])
    && (pc.AskL2? <==> |os| == 1 && Miss(os[0]))
    && (pc.Poll? <==> 2 <= |os| < 32 && StillWaiting(os)) && (pc.Poll? ==> pc.i == |os| - 2)
  }

  /** The send a call makes next is read off what it has heard, and the other way round. */
  lemma {:induction false} CallHistory(domain: string, os: seq<Outcome>)
    ensures var pc := Drive(Fresh(domain), os).pc;
            && Asking(pc, os)
            && (pc == Fetch(true) <==> FetchesToKeep(os))
            && (pc == Fetch(false) <==> FetchesToReturn(os))
  {
    if os != [] {
      var init, o := os[..|os| - 1], os[|os| - 1];
      assert os == init + [o];
      CallHistory(domain, init);
      HistoryStep(Drive(Fresh(domain), init), init, o);
    }
  }

  lemma HistoryStep(c: Call, os: seq<Outcome>, o: Outcome)
    requires Asking(c.pc, os)
    ensures Asking(Advance(c, o).pc, os + [o])
    ensures Advance(c, o).pc == Fetch(true) <==> FetchesToKeep(os + [o])
    ensures Advance(c, o).pc == Fetch(false) <==> FetchesToReturn(os + [o])
  {
    hide IsHit, StillWaiting, Fetched, Blank;
    var all := os + [o];
    assert all[..|os|] == os && all[|os|] == o;
    assert |os| >= 1 ==> all[0] == os[0];
    LeaseKinds(o);
    WaitingSnoc(os, o);
    if |os| == 0 { assert |all| == 1; }
  }

  /** A value fetched to be kept goes to L2, then to L1, and is then returned. */
  lemma KeptValueIsStored(domain: string, os: seq<Outcome>, n: nat)
    requires n + 3 <= |os| && FetchesToKeep(os[..n]) && !Blank(Fetched(os[n]))
    ensures Drive(Fresh(domain), os[..n + 1]).pc == PutL2(Fetched(os[n]))
    ensures Drive(Fresh(domain), os[..n + 2]).pc == PutL1(Fetched(os[n]))
    ensures Drive(Fresh(domain), os[..n + 3]).pc == Done(Fetched(os[n]))
  {
    hide Drive, FetchesToKeep, Fetched, IsHit;
    CallHistory(domain, os[..n]);
    Unrolled(Fresh(domain), os, n);
    Unrolled(Fresh(domain), os, n + 1);
    Unrolled(Fresh(domain), os, n + 2);
  }

  // ---------------------------------------------------------------- many calls over shared caches

  /** The servers, by address, and the calls in progress, by identifier. */
  datatype World = World(l1: map<nat, L.Cache>, l2: map<nat, L2>, calls: map<nat, Call>)

  /** Fixed facts of a deployment. `plane` is the data plane's reply line for a domain. */
  datatype Config = Config(l1Of: string -> nat, l2Of: string -> nat, l1Size: nat, l2Size: nat, plane: string -> string)

  /** A send may be lost before it takes effect, lose its reply, or complete; a poll's sleep may be interrupted. */
  datatype Fate = Lost | ReplyLost | Completed | Interrupt

  datatype Event =
    | Begin(id: nat, domain: string)
    | Act(id: nat, fate: Fate, now: real)

  /** A line reaching the L1 server of a domain. */
  function ServeL1(k: Config, w: World, domain: string, line: string): (World, Outcome) {
    var s := k.l1Of(domain);
    if s !in w.l1 then (w, Failed)
    else
      var r := L1Step(w.l1[s], k.l1Size, Read(RStrip(line)));
      (w.(l1 := w.l1[s := r.0]), Got(Show(r.1)))
  }

  function ServeL2(k: Config, w: World, domain: string, line: string, now: real): (World, Outcome) {
    var s := k.l2Of(domain);
    if s !in w.l2 then (w, Failed)
    else
      var r := L2Step(w.l2[s], k.l2Size, Read(RStrip(line)), now);
      (w.(l2 := w.l2[s := r.0]), Got(Show(r.1)))
  }

  /** The send of a call, if it is delivered. */
  function Serve(k: Config, w: World, c: Call, now: real): (World, Outcome) {
    var d := c.domain;
    match c.pc
    case AskL1 => ServeL1(k, w, d, "GET;" + d)
    case AskL2 => ServeL2(k, w, d, "GET;" + d, now)
    case Poll(_) => ServeL2(k, w, d, "GET;" + d, now)
    case Fetch(_) => (w, Got(k.plane(d)))
    case PutL2(v) => ServeL2(k, w, d, "SET;" + d + ";" + v, now)
    case PutL1(v) => ServeL1(k, w, d, "SET;" + d + ";" + v)
    case Done(_) => (w, Failed)
  }

  function Apply(k: Config, w: World, e: Event): World {
    match e
    case Begin(id, domain) =>
      if id in w.calls then w else w.(calls := w.calls[id := Fresh(domain)])
    case Act(id, fate, now) =>
      if id !in w.calls then w
      else
        var c := w.calls[id];
        var served := Serve(k, w, c, now);
        var w' := if fate.ReplyLost? || fate.Completed? then served.0 else w;
        var o := if fate.Completed? then served.1 else if fate.Interrupt? then Interrupted else Failed;
        w'.(calls := w'.calls[id := Advance(c, o)])
  }

  function Run(k: Config, w: World, events: seq<Event>): World {
    if events == [] then w else Apply(k, Run(k, w, events[..|events| - 1]), events[|events| - 1])
  }

  // ---------------------------------------------------------------- how often a call asks

  predicate Counted(c: Call) {
    && c.polls <= LEASE_MAX_RETRIES && c.fetches <= 1
    && match c.pc
       case AskL1 => c.polls == 0 && c.fetches == 0
       case AskL2 => c.polls == 0 && c.fetches == 0
       case Poll(i) => i < LEASE_MAX_RETRIES && c.polls == i && c.fetches == 0
       case Fetch(_) => c.fetches == 0
       case _ => true
  }

  lemma AdvanceCounted(c: Call, o: Outcome)
    requires Counted(c)
    ensures Counted(Advance(c, o))
  {
    hide IsHit, Fetched;
  }

  lemma ServeLeavesCalls(k: Config, w: World, c: Call, now: real)
    ensures Serve(k, w, c, now).0.calls == w.calls
  {
  }

  /** Under any interleaving, for any names and from any caches, no call fetches twice or polls more than
      thirty times. */
  lemma {:induction false} CallsCounted(k: Config, w: World, events: seq<Event>, id: nat)
    requires w.calls == map[] && id in Run(k, w, events).calls
    ensures Counted(Run(k, w, events).calls[id])
  {
    hide Serve, Advance, Counted;
    if events != [] {
      var init, e := events[..|events| - 1], events[|events| - 1];
      var t := Run(k, w, init);
      if e.Act? && e.id == id && id in t.calls {
        CallsCounted(k, w, init, id);
        ServeLeavesCalls(k, t, t.calls[id], e.now);
        forall o ensures Counted(Advance(t.calls[id], o)) { AdvanceCounted(t.calls[id], o); }
      } else if e.Begin? && e.id == id && id !in t.calls {
        FreshCounted(e.domain);
      } else {
        if e.Act? && e.id in t.calls { ServeLeavesCalls(k, t, t.calls[e.id], e.now); }
        CallsCounted(k, w, init, id);
      }
    }
  }

  lemma FreshCounted(domain: string)
    ensures Counted(Fresh(domain))
  {
  }

  // ---------------------------------------------------------------- what every interleaving keeps

  /** The data plane's answer for a domain: empty for a miss. */
  function Answer(k: Config, domain: string): string {
    Fetched(Got(k.plane(domain)))
  }

  /** The entry that storing the data plane's answer for the name leaves on a server. */
  function EntryOf(k: Config, name: string): Command {
    Read(RStrip("SET;" + name + ";" + Answer(k, name)))
  }

  /** A name is only stored when it has an answer. */
  predicate Stores(k: Config, name: string, key: string, value: string) {
    !Blank(Answer(k, name)) && EntryOf(k, name) == Set(key, value)
  }

  /** Storing `name` leaves an entry where `reader` looks, on a server both use, that the reader takes for a
      hit although it is not its answer. */
  predicate Clash(k: Config, name: string, reader: string) {
    && (k.l1Of(name) == k.l1Of(reader) || k.l2Of(name) == k.l2Of(reader))
    && !Blank(Answer(k, name))
    && var stored := EntryOf(k, name);
       stored.Set? && stored.key == Strip(reader) && IsHit(stored.value) && stored.value != Answer(k, reader)
  }

  predicate ClashFree(k: Config, names: set<string>) {
    forall name, reader :: name in names && reader in names ==> !Clash(k, name, reader)
  }

  /** Every entry of the server at `s` was stored for one of the names that are sent there. */
  ghost predicate Filed(k: Config, names: set<string>, c: L.Cache, at: string -> nat, s: nat) {
    forall key :: key in c.vals ==> exists name :: name in names && at(name) == s && Stores(k, name, key, c.vals[key])
  }

  predicate RightCall(k: Config, names: set<string>, c: Call) {
    && c.domain in names
    && match c.pc
       case PutL2(v) => v == Answer(k, c.domain) && !Blank(v)
       case PutL1(v) => v == Answer(k, c.domain) && !Blank(v)
       case Done(r) => r == Answer(k, c.domain) || r == ""
       case _ => true
  }

  ghost predicate Sound(k: Config, names: set<string>, w: World) {
    && (forall s :: s in w.l1 ==> Filed(k, names, w.l1[s], k.l1Of, s))
    && (forall s :: s in w.l2 ==> Filed(k, names, w.l2[s].cache, k.l2Of, s))
    && (forall id :: id in w.calls ==> RightCall(k, names, w.calls[id]))
  }

  lemma FiledTouch(k: Config, names: set<string>, c: L.Cache, at: string -> nat, s: nat, key: string)
    requires Filed(k, names, c, at, s)
    ensures Filed(k, names, L.Touch(c, key), at, s)
  {
  }

  lemma FiledStore(k: Config, names: set<string>, c: L.Cache, at: string -> nat, name: string, size: nat,
                   key: string, value: string)
    requires Filed(k, names, c, at, at(name)) && name in names && Stores(k, name, key, value)
    ensures Filed(k, names, L.Store(c, size, key, value), at, at(name))
  {
    hide Stores, L.Without;
    var c' := L.Store(c, size, key, value);
    forall x | x in c'.vals
      ensures exists n :: n in names && at(n) == at(name) && Stores(k, n, x, c'.vals[x])
    {
      if x != key { assert x in c.vals && c'.vals[x] == c.vals[x]; }
    }
  }

  /** Without clashes, a hit at the reader's own server is the reader's answer. */
  lemma FiledHit(k: Config, names: set<string>, c: L.Cache, at: string -> nat, reader: string)
    requires Filed(k, names, c, at, at(reader)) && ClashFree(k, names) && reader in names
    requires at == k.l1Of || at == k.l2Of
    requires Strip(reader) in c.vals && IsHit(c.vals[Strip(reader)])
    ensures c.vals[Strip(reader)] == Answer(k, reader)
  {
    hide Strip, Answer, IsHit, Read;
    var value := c.vals[Strip(reader)];
    var name :| name in names && at(name) == at(reader) && Stores(k, name, Strip(reader), value);
    assert !Clash(k, name, reader);
  }

  lemma GetL1(k: Config, names: set<string>, w: World, d: string)
    requires Sound(k, names, w) && ClashFree(k, names) && d in names
    ensures var a := ServeL1(k, w, d, "GET;" + d);
            Sound(k, names, a.0) && (a.1.Got? && IsHit(a.1.text) ==> a.1.text == Answer(k, d))
  {
    hide Read, Answer, RightCall, L.Touch, Strip, Filed, ClashFree, IsHit;
    GetLine(d);
    NoHits();
    var s := k.l1Of(d);
    if s in w.l1 {
      FiledTouch(k, names, w.l1[s], k.l1Of, s, Strip(d));
      if Strip(d) in w.l1[s].vals && IsHit(w.l1[s].vals[Strip(d)]) { FiledHit(k, names, w.l1[s], k.l1Of, d); }
    }
  }

  lemma GetL2(k: Config, names: set<string>, w: World, d: string, now: real)
    requires Sound(k, names, w) && ClashFree(k, names) && d in names
    ensures var b := ServeL2(k, w, d, "GET;" + d, now);
            Sound(k, names, b.0) && (b.1.Got? && IsHit(b.1.text) ==> b.1.text == Answer(k, d))
  {
    hide Read, Answer, RightCall, L.Touch, Strip, Filed, ClashFree, IsHit;
    GetLine(d);
    NoHits();
    var s := k.l2Of(d);
    if s in w.l2 {
      var c := w.l2[s].cache;
      FiledTouch(k, names, c, k.l2Of, s, Strip(d));
      if Strip(d) in c.vals && IsHit(c.vals[Strip(d)]) { FiledHit(k, names, c, k.l2Of, d); }
    }
  }

  lemma NoHits()
    ensures !IsHit(Show(Missing)) && !IsHit(Show(Granted)) && !IsHit(Show(Waiting))
  {
    assert Show(Granted)[..6] == "LEASE;" && Show(Waiting)[..6] == "LEASE;";
  }

  /** A SET of the data plane's answer keeps every entry filed. */
  lemma SetServed(k: Config, names: set<string>, w: World, d: string, now: real)
    requires Sound(k, names, w) && d in names && !Blank(Answer(k, d))
    ensures var line := "SET;" + d + ";" + Answer(k, d);
            Sound(k, names, ServeL1(k, w, d, line).0) && Sound(k, names, ServeL2(k, w, d, line, now).0)
  {
    hide Read, Answer, RightCall, L.Store, Blank, Filed, Strip;
    SetStores(d, Answer(k, d));
    var cmd := EntryOf(k, d);
    var s, t := k.l1Of(d), k.l2Of(d);
    if s in w.l1 { FiledStore(k, names, w.l1[s], k.l1Of, d, k.l1Size, cmd.key, cmd.value); }
    if t in w.l2 { FiledStore(k, names, w.l2[t].cache, k.l2Of, d, k.l2Size, cmd.key, cmd.value); }
  }

  /** Delivering a call's send keeps the world sound, and the reply keeps the call right. */
  lemma ServeKeeps(k: Config, names: set<string>, w: World, c: Call, now: real)
    requires Sound(k, names, w) && ClashFree(k, names) && RightCall(k, names, c)
    ensures var r := Serve(k, w, c, now);
            Sound(k, names, r.0) && RightCall(k, names, Advance(c, r.1))
  {
    hide ServeL1, ServeL2, Sound, ClashFree, Blank;
    if c.pc.AskL1? {
      GetL1(k, names, w, c.domain);
    } else if c.pc.AskL2? || c.pc.Poll? {
      GetL2(k, names, w, c.domain, now);
    } else if c.pc.PutL1? || c.pc.PutL2? {
      SetServed(k, names, w, c.domain, now);
    }
  }

  lemma FailureKeeps(k: Config, names: set<string>, c: Call, o: Outcome)
    requires RightCall(k, names, c) && !o.Got?
    ensures RightCall(k, names, Advance(c, o))
  {
    hide Answer, IsHit;
  }

  lemma ApplySound(k: Config, names: set<string>, w: World, e: Event)
    requires Sound(k, names, w) && ClashFree(k, names) && (e.Begin? ==> e.domain in names)
    ensures Sound(k, names, Apply(k, w, e))
  {
    hide Serve, Advance, Filed, ClashFree, Answer;
    if e.Act? && e.id in w.calls {
      var c := w.calls[e.id];
      ServeKeeps(k, names, w, c, e.now);
      ServeLeavesCalls(k, w, c, e.now);
      FailureKeeps(k, names, c, Failed);
      FailureKeeps(k, names, c, Interrupted);
    }
  }

  /** Empty caches and no calls. */
  predicate Initial(w: World) {
    && w.calls == map[]
    && (forall s :: s in w.l1 ==> w.l1[s] == L.EMPTY)
    && (forall s :: s in w.l2 ==> w.l2[s] == L2(L.EMPTY, map[]))
  }

  /** Only these names are asked for. */
  predicate Over(names: set<string>, events: seq<Event>) {
    forall i :: 0 <= i < |events| && events[i].Begin? ==> events[i].domain in names
  }

  /** Under any interleaving of any number of calls, with evictions, lease expiries, lost sends, lost
      replies and interrupts: every cached entry was stored from the data plane's answer for a requested
      name, and every call holds or has returned its own answer or the empty string. */
  lemma {:induction false} CachesTellTheTruth(k: Config, w: World, names: set<string>, events: seq<Event>)
    requires Initial(w) && ClashFree(k, names) && Over(names, events)
    ensures Sound(k, names, Run(k, w, events))
  {
    hide Apply, Sound, ClashFree;
    if events == [] {
      InitialSound(k, names, w);
    } else {
      CachesTellTheTruth(k, w, names, events[..|events| - 1]);
      ApplySound(k, names, Run(k, w, events[..|events| - 1]), events[|events| - 1]);
    }
  }

  lemma InitialSound(k: Config, names: set<string>, w: World)
    requires Initial(w)
    ensures Sound(k, names, w)
  {
  }

  /** Every finished call returned the data plane's answer or the empty string. */
  ghost predicate AllRight(k: Config, w: World) {
    forall id :: id in w.calls && w.calls[id].pc.Done? ==>
      w.calls[id].pc.result == Answer(k, w.calls[id].domain) || w.calls[id].pc.result == ""
  }

  ghost predicate AlwaysRight(k: Config, w: World, names: set<string>) {
    forall events :: Over(names, events) ==> AllRight(k, Run(k, w, events))
  }

  /** What the invariant means for callers. */
  lemma ResolveAnswers(k: Config, w: World, names: set<string>, events: seq<Event>, id: nat)
    requires Initial(w) && Over(names, events) && id in Run(k, w, events).calls
    ensures var c := Run(k, w, events).calls[id];
            && c.fetches <= 1 && c.polls <= LEASE_MAX_RETRIES
            && (ClashFree(k, names) && c.pc.Done? ==> c.pc.result == Answer(k, c.domain) || c.pc.result == "")
  {
    hide Run, ClashFree, Over;
    CallsCounted(k, w, events, id);
    if ClashFree(k, names) {
      CachesTellTheTruth(k, w, names, events);
      assert RightCall(k, names, Run(k, w, events).calls[id]);
    }
  }

  // ---------------------------------------------------------------- names that clash

  lemma RunSnoc(k: Config, w: World, events: seq<Event>, e: Event)
    ensures Run(k, w, events + [e]) == Apply(k, Run(k, w, events), e)
  {
    assert (events + [e])[..|events|] == events;
  }

  /** A call whose cache sends are all lost, up to its next send after the fetch. */
  lemma LoneFetch(k: Config, w: World, d: string) returns (events: seq<Event>)
    requires Initial(w) && !Blank(Answer(k, d))
    ensures Over({d}, events)
    ensures Run(k, w, events) == w.(calls := map[0 := Call(d, PutL2(Answer(k, d)), 0, 1)])
  {
    hide Run, Blank, ServeL1, ServeL2;
    var lost, done := Act(0, Lost, 0.0), Act(0, Completed, 0.0);
    events := [] + [Begin(0, d)] + [lost] + [lost] + [done];
    RunNothing(k, w);
    RunSnoc(k, w, [], Begin(0, d));
    RunSnoc(k, w, [] + [Begin(0, d)], lost);
    RunSnoc(k, w, [] + [Begin(0, d)] + [lost], lost);
    RunSnoc(k, w, [] + [Begin(0, d)] + [lost] + [lost], done);
  }

  lemma RunNothing(k: Config, w: World)
    ensures Run(k, w, []) == w
  {
  }

  lemma StoredFirst(size: nat, key: string, value: string)
    requires size >= 1
    ensures var c := L.Store(L.EMPTY, size, key, value); key in c.vals && c.vals[key] == value
  {
    assert L.Without([], key) + [key] == [key];
  }

  /** A run that leaves the entry of d on its L1 server. */
  lemma FillL1(k: Config, w: World, d: string) returns (events: seq<Event>)
    requires Initial(w) && !Blank(Answer(k, d)) && EntryOf(k, d).Set? && k.l1Of(d) in w.l1 && k.l1Size >= 1
    ensures Over({d}, events)
    ensures var w', s, entry := Run(k, w, events), k.l1Of(d), EntryOf(k, d);
            && 1 !in w'.calls && s in w'.l1
            && entry.key in w'.l1[s].vals && w'.l1[s].vals[entry.key] == entry.value
  {
    hide Run, Read, Answer, L.Store, Blank, ServeL2;
    var before := LoneFetch(k, w, d);
    var lost, done := Act(0, Lost, 0.0), Act(0, Completed, 0.0);
    events := before + [lost] + [done];
    RunSnoc(k, w, before, lost);
    RunSnoc(k, w, before + [lost], done);
    StoredFirst(k.l1Size, EntryOf(k, d).key, EntryOf(k, d).value);
  }

  lemma FillL2(k: Config, w: World, d: string) returns (events: seq<Event>)
    requires Initial(w) && !Blank(Answer(k, d)) && EntryOf(k, d).Set? && k.l2Of(d) in w.l2 && k.l2Size >= 1
    ensures Over({d}, events)
    ensures var w', s, entry := Run(k, w, events), k.l2Of(d), EntryOf(k, d);
            && 1 !in w'.calls && s in w'.l2
            && entry.key in w'.l2[s].cache.vals && w'.l2[s].cache.vals[entry.key] == entry.value
  {
    hide Run, Read, Answer, L.Store, Blank, ServeL1;
    var before := LoneFetch(k, w, d);
    var done := Act(0, Completed, 0.0);
    events := before + [done];
    RunSnoc(k, w, before, done);
    StoredFirst(k.l2Size, EntryOf(k, d).key, EntryOf(k, d).value);
  }

  /** Two names that share an L1 server: the reader is served the other's entry. */
  lemma ClashOverL1(k: Config, w: World, d: string, e: string) returns (events: seq<Event>)
    requires Initial(w) && Clash(k, d, e) && k.l1Of(d) == k.l1Of(e) && k.l1Of(e) in w.l1 && k.l1Size >= 1
    ensures Over({d, e}, events) && !AllRight(k, Run(k, w, events))
  {
    hide Run, Read, Answer, Strip, IsHit, L.Touch, Blank, ServeL2;
    var fill := FillL1(k, w, d);
    var done := Act(1, Completed, 0.0);
    events := fill + [Begin(1, e)] + [done];
    RunSnoc(k, w, fill, Begin(1, e));
    RunSnoc(k, w, fill + [Begin(1, e)], done);
    GetLine(e);
    HitIsText(EntryOf(k, d).value);
    assert Run(k, w, events).calls[1].pc == Done(EntryOf(k, d).value);
  }

  lemma HitIsText(v: string)
    requires IsHit(v)
    ensures v != ""
  {
  }

  /** Two names that share an L2 server. */
  lemma ClashOverL2(k: Config, w: World, d: string, e: string) returns (events: seq<Event>)
    requires Initial(w) && Clash(k, d, e) && k.l2Of(d) == k.l2Of(e) && k.l2Of(e) in w.l2 && k.l2Size >= 1
    ensures Over({d, e}, events) && !AllRight(k, Run(k, w, events))
  {
    hide Run, Read, Answer, Strip, IsHit, L.Touch, Blank, ServeL1;
    var fill := FillL2(k, w, d);
    var lost, done := Act(1, Lost, 0.0), Act(1, Completed, 0.0);
    events := fill + [Begin(1, e)] + [lost] + [done] + [lost];
    RunSnoc(k, w, fill, Begin(1, e));
    RunSnoc(k, w, fill + [Begin(1, e)], lost);
    RunSnoc(k, w, fill + [Begin(1, e)] + [lost], done);
    RunSnoc(k, w, fill + [Begin(1, e)] + [lost] + [done], lost);
    GetLine(e);
    HitIsText(EntryOf(k, d).value);
    assert Run(k, w, events).calls[1].pc == Done(EntryOf(k, d).value);
  }

  /** Exactly when calls are right: over any set of names, every run answers every call rightly if and only if
      no two of the names clash. */
  lemma ResolveExact(k: Config, w: World, names: set<string>)
    requires Initial(w) && k.l1Size >= 1 && k.l2Size >= 1
    requires forall d :: d in names ==> k.l1Of(d) in w.l1 && k.l2Of(d) in w.l2
    ensures AlwaysRight(k, w, names) <==> ClashFree(k, names)
  {
    hide Run, Clash, Answer;
    if ClashFree(k, names) {
      forall events | Over(names, events) ensures AllRight(k, Run(k, w, events)) {
        CachesTellTheTruth(k, w, names, events);
        SoundRight(k, names, Run(k, w, events));
      }
    } else {
      var d, e :| d in names && e in names && Clash(k, d, e);
      ClashShares(k, d, e);
      var events: seq<Event>;
      if k.l1Of(d) == k.l1Of(e) {
        events := ClashOverL1(k, w, d, e);
      } else {
        events := ClashOverL2(k, w, d, e);
      }
      assert Over(names, events);
    }
  }

  lemma ClashShares(k: Config, d: string, e: string)
    requires Clash(k, d, e)
    ensures k.l1Of(d) == k.l1Of(e) || k.l2Of(d) == k.l2Of(e)
  {
  }

  lemma SoundRight(k: Config, names: set<string>, w: World)
    requires Sound(k, names, w)
    ensures AllRight(k, w)
  {
    hide Filed, Answer;
    forall id | id in w.calls && w.calls[id].pc.Done?
      ensures w.calls[id].pc.result == Answer(k, w.calls[id].domain) || w.calls[id].pc.result == ""
    {
      assert RightCall(k, names, w.calls[id]);
    }
  }

  // ---------------------------------------------------------------- which names clash

  /** The data plane strips its request line and its replies. */
  ghost predicate StripsLines(k: Config) {
    forall d :: Trimmed(k.plane(d)) && k.plane(d) == k.plane(Strip(d))
  }

  /** A name without semicolons clashes with no other. A name `a;b` with address v clashes exactly with the
      readers of `a` on a server of its own, when they take `b;v` for a hit and it is not their answer. */
  lemma ClashExact(k: Config, name: string, reader: string)
    requires StripsLines(k)
    ensures var i := Find(name, ';');
            Clash(k, name, reader)
            <==> && i < |name|
                 && (k.l1Of(name) == k.l1Of(reader) || k.l2Of(name) == k.l2Of(reader))
                 && !Blank(Answer(k, name))
                 && Strip(reader) == Strip(name[..i])
                 && var served := Strip(name[i + 1..] + ";" + Answer(k, name));
                    IsHit(served) && served != Answer(k, reader)
  {
    hide Read, IsHit, Blank, Strip;
    SetStores(name, Answer(k, name));
    if Find(name, ';') == |name| {
      AnswerTrimmed(k, name);
      AnswerTrimmed(k, reader);
    }
  }

  lemma AnswerTrimmed(k: Config, name: string)
    requires StripsLines(k)
    ensures Strip(Answer(k, name)) == Answer(k, name) == Answer(k, Strip(name))
  {
    StripId(Answer(k, name));
  }

  /** Asking for `a;b` can leave `b;1.2.3.4` where `a` is looked up. */
  lemma SemicolonClashes(k: Config)
    requires k.plane("a;b") == "1.2.3.4" && k.plane("a") == "5.6.7.8" && k.l1Of("a;b") == k.l1Of("a")
    ensures Clash(k, "a;b", "a")
  {
    hide Read, Strip;
    var v := "b" + ";" + "1.2.3.4";
    assert v == "b;1.2.3.4" && "a;b"[..1] == "a" && "a;b"[2..] == "b";
    SetStores("a;b", "1.2.3.4");
    FindFirst("a", ';', "b");
    assert "a" + [';'] + "b" == "a;b";
    StripId(v);
    assert IsHit(v) by { assert !IsSpace(v[0]) && v[0] == 'b'; }
    assert !Blank("1.2.3.4") by { assert !IsSpace("1.2.3.4"[0]); }
    assert v != "5.6.7.8" by { assert v[0] != "5.6.7.8"[0]; }
  }

  lemma SemicolonFree(k: Config, names: set<string>)
    requires StripsLines(k) && forall d :: d in names ==> ';' !in d
    ensures ClashFree(k, names)
  {
    hide Clash, Answer, IsHit, Strip, StripsLines;
    forall d, e | d in names && e in names ensures !Clash(k, d, e) {
      ClashExact(k, d, e);
      FindNone(d, ';');
    }
  }

  /** For trimmed names without semicolons, every cached value is the data plane's answer for its key. */
  lemma CachedAnswers(k: Config, w: World, names: set<string>, events: seq<Event>, s: nat, key: string)
    requires Initial(w) && StripsLines(k) && Over(names, events)
    requires forall d :: d in names ==> ';' !in d && Trimmed(d)
    ensures var w' := Run(k, w, events);
            && (s in w'.l1 && key in w'.l1[s].vals ==> w'.l1[s].vals[key] == Answer(k, key))
            && (s in w'.l2 && key in w'.l2[s].cache.vals ==> w'.l2[s].cache.vals[key] == Answer(k, key))
  {
    hide Run, Stores, Answer, Trimmed, ClashFree;
    SemicolonFree(k, names);
    CachesTellTheTruth(k, w, names, events);
    var w' := Run(k, w, events);
    if s in w'.l1 && key in w'.l1[s].vals {
      var name :| name in names && k.l1Of(name) == s && Stores(k, name, key, w'.l1[s].vals[key]);
      PlainStores(k, name, key, w'.l1[s].vals[key]);
    }
    if s in w'.l2 && key in w'.l2[s].cache.vals {
      var name :| name in names && k.l2Of(name) == s && Stores(k, name, key, w'.l2[s].cache.vals[key]);
      PlainStores(k, name, key, w'.l2[s].cache.vals[key]);
    }
  }

  lemma PlainStores(k: Config, name: string, key: string, value: string)
    requires StripsLines(k) && Stores(k, name, key, value) && ';' !in name && Trimmed(name)
    ensures key == name && value == Answer(k, name)
  {
    hide Read;
    SetStores(name, Answer(k, name));
    FindNone(name, ';');
    StripId(name);
    StripId(Answer(k, name));
  }
}
