/** The two cache servers' line protocol: `process_command` in caches/l1_cache.py and caches/l2_cache.py,
    with the lease table of the second. */
module CacheTiers {
  import opened Text
  import L = Lru

  const LEASE_TTL_SECONDS := 5.0

  datatype Command = Get(key: string) | Set(key: string, value: string) | Bad

  /** The command in a line. Commands are case-insensitive; `SET` takes everything after its second
      semicolon as the value. */
  function Read(line: string): Command {
    if "GET;" <= Upper(line) then Get(Strip(line[4..]))
    else if "SET;" <= Upper(line) then
      var rest := line[4..];
      var i := Find(rest, ';');
      if i == |rest| then Bad else Set(Strip(rest[..i]), Strip(rest[i + 1..]))
    else Bad
  }

  datatype Reply = Value(value: string) | Granted | Waiting | Missing | Stored | Error

  function Show(r: Reply): string {
    match r
    case Value(v) => v
    case Granted => "LEASE;GRANTED"
    case Waiting => "LEASE;WAITING"
    case Missing => "N/A"
    case Stored => "OK"
    case Error => "ERROR"
  }

  // ---------------------------------------------------------------- L1

  function L1Step(c: L.Cache, capacity: nat, cmd: Command): (L.Cache, Reply) {
    match cmd
    case Get(k) => (L.Touch(c, k), if k in c.vals then Value(c.vals[k]) else Missing)
    case Set(k, v) => (L.Store(c, capacity, k, v), Stored)
    case Bad => (c, Error)
  }

  // ---------------------------------------------------------------- L2

  /** The cache and the table of leases, each with the time it was granted. */
  datatype L2 = L2(cache: L.Cache, leases: map<string, real>)

  function L2Step(s: L2, capacity: nat, cmd: Command, now: real): (L2, Reply) {
    match cmd
    case Get(k) =>
      var cache := L.Touch(s.cache, k);
      if k in s.cache.vals then (L2(cache, s.leases - {k}), Value(s.cache.vals[k]))
      else if k !in s.leases || now - s.leases[k] > LEASE_TTL_SECONDS
      then (L2(cache, s.leases[k := now]), Granted)
      else (L2(cache, s.leases), Waiting)
    case Set(k, v) => (L2(L.Store(s.cache, capacity, k, v), s.leases - {k}), Stored)
    case Bad => (s, Error)
  }

  class L1Server {
    const cache: L.LRUCache

    constructor (capacity: nat)
      ensures cache.Valid() && cache.capacity == capacity && cache.Viewed() == L.EMPTY && fresh(cache)
    {
      cache := new L.LRUCache(capacity);
    }

    method ProcessCommand(line: string) returns (reply: string)
      requires cache.Valid()
      modifies cache
      ensures cache.Valid()
      ensures var r := L1Step(old(cache.Viewed()), cache.capacity, Read(line));
              cache.Viewed() == r.0 && reply == Show(r.1)
    {
      hide Strip, Find, L.Touch, L.Store;
      if line == "" { return "ERROR"; }
      var upper := Upper(line);
      if "GET;" <= upper {
        var value := cache.Get(Strip(line[4..]));
        return if value.Some? then value.value else "N/A";
      }
      if "SET;" <= upper {
        var rest := line[4..];
        var i := Find(rest, ';');
        if i == |rest| { return "ERROR"; }
        cache.Set(Strip(rest[..i]), Strip(rest[i + 1..]));
        return "OK";
      }
      return "ERROR";
    }
  }

  class L2Server {
    const cache: L.LRUCache
    var leases: map<string, real>

    function Viewed(): L2
      reads this, cache
    {
      L2(cache.Viewed(), leases)
    }

    constructor (capacity: nat)
      ensures cache.Valid() && cache.capacity == capacity && Viewed() == L2(L.EMPTY, map[]) && fresh(cache)
    {
      cache := new L.LRUCache(capacity);
      leases := map[];
    }

    method ProcessCommand(line: string, now: real) returns (reply: string)
      requires cache.Valid()
      modifies this, cache
      ensures cache.Valid()
      ensures var r := L2Step(old(Viewed()), cache.capacity, Read(line), now);
              Viewed() == r.0 && reply == Show(r.1)
    {
      hide Strip, Find, L.Touch, L.Store;
      if line == "" { return "ERROR"; }
      var upper := Upper(line);
      if "GET;" <= upper {
        var key := Strip(line[4..]);
        var value := cache.Get(key);
        if value.Some? {
          leases := leases - {key};
          return value.value;
        }
        if key !in leases || now - leases[key] > LEASE_TTL_SECONDS {
          leases := leases[key := now];
          return "LEASE;GRANTED";
        }
        return "LEASE;WAITING";
      }
      if "SET;" <= upper {
        var rest := line[4..];
        var i := Find(rest, ';');
        if i == |rest| { return "ERROR"; }
        var key := Strip(rest[..i]);
        cache.Set(key, Strip(rest[i + 1..]));
        leases := leases - {key};
        return "OK";
      }
      return "ERROR";
    }
  }

  // ---------------------------------------------------------------- lines as the client writes them

  /** A GET line asks for the stripped name, whatever the name. */
  lemma GetLine(name: string)
    ensures Read(RStrip("GET;" + name)) == Get(Strip(name))
  {
    hide Strip;
    RStripGlue("GET;", name);
    var line := "GET;" + RStrip(name);
    assert line[0] == 'G' && line[1] == 'E' && line[2] == 'T' && line[3] == ';';
    assert Upper(line)[..4] == "GET;";
    assert line[4..] == RStrip(name);
    StripRight(name);
  }

  lemma SetPrefix(rest: string)
    ensures Upper("SET;" + rest)[0] == 'S' && "SET;" <= Upper("SET;" + rest)
    ensures ("SET;" + rest)[4..] == rest
  {
    var line := "SET;" + rest;
    assert line[0] == 'S' && line[1] == 'E' && line[2] == 'T' && line[3] == ';';
  }

  lemma SetHead(rest: string)
    ensures Read("SET;" + rest)
         == if Find(rest, ';') == |rest| then Bad
            else Set(Strip(rest[..Find(rest, ';')]), Strip(rest[Find(rest, ';') + 1..]))
  {
    hide Strip, Find, Upper;
    SetPrefix(rest);
    assert "GET;"[0] == 'G';
  }

  lemma SetRest(name: string, value: string)
    ensures var rest := name + [';'] + RStrip(value);
            && Find(rest, ';') < |rest|
            && Read(RStrip("SET;" + name + ";" + value))
               == Set(Strip(rest[..Find(rest, ';')]), Strip(rest[Find(rest, ';') + 1..]))
  {
    hide Strip, Read, RStrip, Find;
    var line, rest := "SET;" + name + ";" + value, name + [';'] + RStrip(value);
    assert line == ("SET;" + name + ";") + value;
    RStripGlue("SET;" + name + ";", value);
    assert "SET;" + name + ";" + RStrip(value) == "SET;" + rest;
    SetHead(rest);
    assert rest[|name|] == ';';
    FindHere(rest);
  }

  /** What a SET line stores, for any name and value: the name ends at its first semicolon. */
  lemma SetStores(name: string, value: string)
    ensures var i := Find(name, ';');
            Read(RStrip("SET;" + name + ";" + value))
            == if i == |name| then Set(Strip(name), Strip(value))
               else Set(Strip(name[..i]), Strip(name[i + 1..] + ";" + value))
  {
    hide Strip, Read, RStrip;
    SetRest(name, value);
    var v, i := RStrip(value), Find(name, ';');
    var rest := name + [';'] + v;
    if i == |name| {
      assert name[..i] == name;
      FindFirst(name, ';', v);
      assert rest[..|name|] == name && rest[|name| + 1..] == v;
      StripRight(value);
    } else {
      var head, tail := name[..i], name[i + 1..] + ";";
      assert rest == head + [';'] + (tail + v);
      FindFirst(head, ';', tail + v);
      assert rest[..i] == head && rest[i + 1..] == tail + v;
      RStripGlue(tail, value);
      StripRight(tail + value);
    }
  }

  /** A SET line means what the client wrote exactly when the key holds no semicolon and neither part has
      blank margins. */
  lemma SetLine(key: string, value: string)
    ensures Read(RStrip("SET;" + key + ";" + value)) == Set(key, value)
       <==> ';' !in key && Trimmed(key) && Trimmed(value)
  {
    hide Strip, Read, Trimmed;
    SetStores(key, value);
    Restrip(key);
    Restrip(value);
    var i := Find(key, ';');
    if ';' !in key {
      FindNone(key, ';');
    } else {
      FindHere(key);
      var a, b := StripShape(key[..i]);
    }
  }

  lemma FindHere(key: string)
    requires ';' in key
    ensures Find(key, ';') < |key|
  {
    assert key[..|key|] == key;
  }

  lemma Restrip(s: string)
    ensures Strip(s) == s <==> Trimmed(s)
  {
    var i, j := StripShape(s);
    if Trimmed(s) { StripId(s); }
  }

  // ---------------------------------------------------------------- hits over a run

  /** A command's effect on the LRU cache. */
  function Ops(cmds: seq<Command>): seq<L.Op> {
    if cmds == [] then []
    else
      Ops(cmds[..|cmds| - 1]) +
      match cmds[|cmds| - 1]
      case Get(k) => [L.Get(k)]
      case Set(k, v) => [L.Set(k, v)]
      case Bad => []
  }

  function L1After(capacity: nat, cmds: seq<Command>): L.Cache {
    if cmds == [] then L.EMPTY
    else L1Step(L1After(capacity, cmds[..|cmds| - 1]), capacity, cmds[|cmds| - 1]).0
  }

  lemma RunSnoc(capacity: nat, ops: seq<L.Op>, op: L.Op)
    ensures L.Run(capacity, ops + [op]) == L.Apply(L.Run(capacity, ops), capacity, op)
  {
    assert (ops + [op])[..|ops|] == ops;
  }

  lemma {:induction false} L1IsLru(capacity: nat, cmds: seq<Command>)
    ensures L1After(capacity, cmds) == L.Run(capacity, Ops(cmds))
  {
    hide L.Touch, L.Store, L.Run;
    if cmds == [] {
      RunNothing(capacity);
    } else {
      var init := cmds[..|cmds| - 1];
      L1IsLru(capacity, init);
      match cmds[|cmds| - 1]
      case Get(k) => RunSnoc(capacity, Ops(init), L.Get(k));
      case Set(k, v) => RunSnoc(capacity, Ops(init), L.Set(k, v));
      case Bad => assert Ops(init) + [] == Ops(init);
    }
  }

  lemma RunNothing(capacity: nat)
    ensures L.Run(capacity, []) == L.EMPTY
  {
  }

  /** Whether a key is resident after some cache operations, by `Lru.Residency`. */
  predicate Resident(capacity: nat, ops: seq<L.Op>, key: string) {
    var t := L.Touched(capacity, ops);
    key in t && |L.Keys(L.Since(t, key))| < capacity
  }

  /** After any commands, an L1 GET answers with the value last SET exactly when the key is resident, and
      with a miss otherwise. */
  lemma L1Answers(capacity: nat, cmds: seq<Command>, key: string)
    ensures var reply := L1Step(L1After(capacity, cmds), capacity, Get(key)).1;
            if Resident(capacity, Ops(cmds), key)
            then reply.Value? && L.LastSet(Ops(cmds), key) == Some(reply.value)
            else reply == Missing
  {
    hide L.Run, L.Touch, L.LastSet;
    L1IsLru(capacity, cmds);
    L.Residency(capacity, Ops(cmds), key);
    if key in L.Run(capacity, Ops(cmds)).vals {
      L.ReturnsLastSet(capacity, Ops(cmds), key);
    }
  }

  // ---------------------------------------------------------------- leases over a run

  /** One request: the parsed line and the server's clock. */
  datatype Request = Request(cmd: Command, now: real)

  function After(capacity: nat, trace: seq<Request>): L2 {
    if trace == [] then L2(L.EMPTY, map[])
    else
      var last := trace[|trace| - 1];
      L2Step(After(capacity, trace[..|trace| - 1]), capacity, last.cmd, last.now).0
  }

  /** The reply to the i-th request. */
  function ReplyAt(capacity: nat, trace: seq<Request>, i: nat): Reply
    requires i < |trace|
  {
    L2Step(After(capacity, trace[..i]), capacity, trace[i].cmd, trace[i].now).1
  }

  predicate Clocked(trace: seq<Request>) {
    forall i, j :: 0 <= i < j < |trace| ==> trace[i].now <= trace[j].now
  }

  predicate GrantAt(capacity: nat, trace: seq<Request>, i: nat, key: string) {
    i < |trace| && trace[i].cmd == Get(key) && ReplyAt(capacity, trace, i) == Granted
  }

  /** No SET of the key strictly between requests i and j. */
  predicate NoSet(trace: seq<Request>, i: nat, j: nat, key: string) {
    forall m :: i < m < j && m < |trace| ==> !(trace[m].cmd.Set? && trace[m].cmd.key == key)
  }

  lemma AfterStep(capacity: nat, trace: seq<Request>, n: nat)
    requires n < |trace|
    ensures After(capacity, trace[..n + 1])
         == L2Step(After(capacity, trace[..n]), capacity, trace[n].cmd, trace[n].now).0
  {
    assert trace[..n + 1][..n] == trace[..n];
  }

  /** A cache only ever gains the key of a SET. */
  lemma KeysFromSets(c: L.Cache, capacity: nat, cmd: Command, k: string)
    requires k !in c.vals && !(cmd.Set? && cmd.key == k)
    ensures k !in L1Step(c, capacity, cmd).0.vals
  {
  }

  /** Leased keys and cached keys stay disjoint, so the lease removal on a hit never removes anything. */
  lemma {:induction false} LeasesDisjoint(capacity: nat, trace: seq<Request>, k: string)
    ensures !(k in After(capacity, trace).leases && k in After(capacity, trace).cache.vals)
  {
    hide L.Without;
    if trace != [] {
      LeasesDisjoint(capacity, trace[..|trace| - 1], k);
    }
  }

  lemma HitPopsNothing(capacity: nat, trace: seq<Request>, key: string, now: real)
    requires key in After(capacity, trace).cache.vals
    ensures L2Step(After(capacity, trace), capacity, Get(key), now).0.leases == After(capacity, trace).leases
  {
    LeasesDisjoint(capacity, trace, key);
  }

  /** After a grant, and until a SET of the key, the key stays out of the cache and under a lease at
      least as recent as that grant. */
  lemma {:induction false} LeaseHeld(capacity: nat, trace: seq<Request>, i: nat, n: nat, key: string)
    requires Clocked(trace) && GrantAt(capacity, trace, i, key) && i < n <= |trace| && NoSet(trace, i, n, key)
    ensures var s := After(capacity, trace[..n]);
            key !in s.cache.vals && key in s.leases && s.leases[key] >= trace[i].now
  {
    hide L.Store, L.Touch;
    AfterStep(capacity, trace, n - 1);
    var before := After(capacity, trace[..n - 1]);
    if n - 1 == i {
      LeasesDisjoint(capacity, trace[..n], key);
    } else {
      LeaseHeld(capacity, trace, i, n - 1, key);
      KeysFromSets(before.cache, capacity, trace[n - 1].cmd, key);
    }
  }

  /** Two grants for one key with no SET of it in between are more than five seconds apart. */
  lemma LeaseExclusive(capacity: nat, trace: seq<Request>, i: nat, j: nat, key: string)
    requires Clocked(trace) && i < j
    requires GrantAt(capacity, trace, i, key) && GrantAt(capacity, trace, j, key) && NoSet(trace, i, j, key)
    ensures trace[j].now - trace[i].now > 5.0
  {
    LeaseHeld(capacity, trace, i, j, key);
  }

  /** Every entry of the lease table comes from a grant that no SET has followed. */
  lemma {:induction false} LeaseOrigin(capacity: nat, trace: seq<Request>, n: nat, key: string) returns (i: nat)
    requires n <= |trace| && key in After(capacity, trace[..n]).leases
    ensures i < n && GrantAt(capacity, trace, i, key) && NoSet(trace, i, n, key)
    ensures trace[i].now == After(capacity, trace[..n]).leases[key]
  {
    hide L.Store, L.Touch;
    if n > 0 {
      AfterStep(capacity, trace, n - 1);
      if trace[n - 1].cmd == Get(key) && ReplyAt(capacity, trace, n - 1) == Granted {
        i := n - 1;
      } else {
        i := LeaseOrigin(capacity, trace, n - 1, key);
      }
    }
  }

  /** A client is told to wait only while the key's last grant is at most five seconds old and unanswered. */
  lemma WaitingJustified(capacity: nat, trace: seq<Request>, j: nat, key: string) returns (i: nat)
    requires j < |trace| && trace[j].cmd == Get(key) && ReplyAt(capacity, trace, j) == Waiting
    ensures i < j && GrantAt(capacity, trace, i, key) && NoSet(trace, i, j, key)
    ensures trace[j].now - trace[i].now <= 5.0
  {
    hide L.Store, L.Touch;
    i := LeaseOrigin(capacity, trace, j, key);
  }

  function Commands(trace: seq<Request>): (cmds: seq<Command>)
    ensures |cmds| == |trace|
  {
    seq(|trace|, i requires 0 <= i < |trace| => trace[i].cmd)
  }

  /** Leases never touch the cache: it is the one that the same commands leave on an L1 server. */
  lemma {:induction false} L2CacheIsL1(capacity: nat, trace: seq<Request>)
    ensures After(capacity, trace).cache == L1After(capacity, Commands(trace))
  {
    hide L.Touch, L.Store;
    if trace != [] {
      var init, cmds := trace[..|trace| - 1], Commands(trace);
      L2CacheIsL1(capacity, init);
      assert cmds[..|cmds| - 1] == Commands(init);
    }
  }

  /** After any requests, an L2 GET answers with the value last SET exactly when the key is resident, and
      with a lease reply otherwise. */
  lemma L2Answers(capacity: nat, trace: seq<Request>, key: string, now: real)
    ensures var reply, ops := L2Step(After(capacity, trace), capacity, Get(key), now).1, Ops(Commands(trace));
            if Resident(capacity, ops, key)
            then reply.Value? && L.LastSet(ops, key) == Some(reply.value)
            else reply == Granted || reply == Waiting
  {
    hide L.Touch, L.LastSet, Resident;
    L2CacheIsL1(capacity, trace);
    L1Answers(capacity, Commands(trace), key);
  }

  // ---------------------------------------------------------------- the servers line by line

  /** Which lines are commands: `GET;` or `SET;` in any case, the latter with another semicolon. */
  lemma ReadExact(line: string)
    ensures Read(line).Get? <==> |line| >= 4 && line[0] in "Gg" && line[1] in "Ee" && line[2] in "Tt" && line[3] == ';'
    ensures Read(line).Set? <==> |line| >= 4 && line[0] in "Ss" && line[1] in "Ee" && line[2] in "Tt" && line[3] == ';'
                                 && ';' in line[4..]
    ensures Read(line).Get? ==> Read(line).key == Strip(line[4..])
  {
    hide Strip;
    Prefixes(line, "GET;");
    Prefixes(line, "SET;");
    if |line| >= 4 {
      Cases(line[0], 'G');
      Cases(line[0], 'S');
      Cases(line[1], 'E');
      Cases(line[2], 'T');
      if ';' in line[4..] { FindHere(line[4..]); } else { FindNone(line[4..], ';'); }
    }
  }

  lemma Prefixes(line: string, word: string)
    requires |word| == 4
    ensures word <= Upper(line)
       <==> |line| >= 4 && UpperChar(line[0]) == word[0] && UpperChar(line[1]) == word[1]
            && UpperChar(line[2]) == word[2] && UpperChar(line[3]) == word[3]
    ensures |line| >= 4 ==> (UpperChar(line[3]) == ';' <==> line[3] == ';')
  {
    if |line| >= 4 {
      var u := Upper(line);
      assert word <= u <==> u[..4] == word;
      assert u[..4] == [UpperChar(line[0]), UpperChar(line[1]), UpperChar(line[2]), UpperChar(line[3])];
      assert word == [word[0], word[1], word[2], word[3]];
    }
  }

  lemma Cases(c: char, upper: char)
    requires upper in "GSET"
    ensures UpperChar(c) == upper <==> c == upper || c as int == upper as int + 32
  {
  }

  /** The fixed replies: a stored SET and a line that is no command, which changes nothing. */
  lemma FixedReplies(c: L.Cache, s: L2, capacity: nat, line: string, now: real)
    ensures Read(line).Set? ==> Show(L1Step(c, capacity, Read(line)).1) == "OK" == Show(L2Step(s, capacity, Read(line), now).1)
    ensures Read(line).Bad? ==> L1Step(c, capacity, Read(line)).0 == c && L2Step(s, capacity, Read(line), now).0 == s
    ensures Read(line).Bad? ==> Show(L1Step(c, capacity, Read(line)).1) == "ERROR" == Show(L2Step(s, capacity, Read(line), now).1)
  {
    hide Read;
  }

  /** On the wire, an L1 server answers a GET of any name with the value last SET, or `N/A`. */
  lemma L1Text(capacity: nat, cmds: seq<Command>, name: string)
    ensures var text := Show(L1Step(L1After(capacity, cmds), capacity, Read(RStrip("GET;" + name))).1);
            if Resident(capacity, Ops(cmds), Strip(name)) then L.LastSet(Ops(cmds), Strip(name)) == Some(text)
            else text == "N/A"
  {
    hide Read, Strip, Resident, L.LastSet, L1After, Ops;
    GetLine(name);
    L1Answers(capacity, cmds, Strip(name));
  }

  /** A line as it arrives, with the server's clock. */
  datatype Timed = Timed(line: string, now: real)

  function Requests(lines: seq<Timed>): (trace: seq<Request>)
    ensures |trace| == |lines|
  {
    seq(|lines|, i requires 0 <= i < |lines| => Request(Read(lines[i].line), lines[i].now))
  }

  /** What the L2 server sends back for the i-th line. */
  function TextAt(capacity: nat, lines: seq<Timed>, i: nat): string
    requires i < |lines|
  {
    Show(ReplyAt(capacity, Requests(lines), i))
  }

  /** The key is in the cache when line i arrives. */
  predicate CachedAt(capacity: nat, lines: seq<Timed>, i: nat, key: string)
    requires i <= |lines|
  {
    Resident(capacity, Ops(Commands(Requests(lines)[..i])), key)
  }

  /** Line m asked for the key, which was not in the cache, and was told to fetch it. */
  predicate LeaseSent(capacity: nat, lines: seq<Timed>, m: nat, key: string) {
    && m < |lines| && Read(lines[m].line) == Get(key) && !CachedAt(capacity, lines, m, key)
    && TextAt(capacity, lines, m) == "LEASE;GRANTED"
  }

  /** Such a line lies at most five seconds before line i, and no SET of the key between them. */
  predicate Leased(capacity: nat, lines: seq<Timed>, i: nat, key: string)
    requires i < |lines|
  {
    exists m :: 0 <= m < i && LeaseSent(capacity, lines, m, key) && NoSet(Requests(lines), m, i, key)
                && lines[i].now - lines[m].now <= 5.0
  }

  lemma ReplyKinds(capacity: nat, lines: seq<Timed>, i: nat, key: string)
    requires i < |lines| && Read(lines[i].line) == Get(key)
    ensures var reply := ReplyAt(capacity, Requests(lines), i);
            if CachedAt(capacity, lines, i, key)
            then reply.Value? && L.LastSet(Ops(Commands(Requests(lines)[..i])), key) == Some(reply.value)
            else reply == Granted || reply == Waiting
  {
    hide Read, Resident, L.LastSet, After, L2Step;
    L2Answers(capacity, Requests(lines)[..i], key, lines[i].now);
  }

  lemma GrantIsText(capacity: nat, lines: seq<Timed>, m: nat, key: string)
    ensures LeaseSent(capacity, lines, m, key) <==> GrantAt(capacity, Requests(lines), m, key)
  {
    hide Read, CachedAt, ReplyAt;
    if m < |lines| && Read(lines[m].line) == Get(key) {
      ReplyKinds(capacity, lines, m, key);
      assert Show(Granted)[6] == 'G' && Show(Waiting)[6] == 'W';
    }
  }

  /** The whole answer to a GET of any name, as text, in any run with a non-decreasing clock: the value last SET
      while the key is in the cache, and else LEASE;WAITING exactly while somebody else holds the lease, and
      LEASE;GRANTED exactly when nobody does. */
  lemma LeaseExact(capacity: nat, lines: seq<Timed>, i: nat, name: string)
    requires Clocked(Requests(lines)) && i < |lines| && lines[i].line == RStrip("GET;" + name)
    ensures var key, text := Strip(name), TextAt(capacity, lines, i);
            if CachedAt(capacity, lines, i, key)
            then L.LastSet(Ops(Commands(Requests(lines)[..i])), key) == Some(text)
            else text == if Leased(capacity, lines, i, key) then "LEASE;WAITING" else "LEASE;GRANTED"
  {
    hide Read, Strip, CachedAt, ReplyAt, L.LastSet, NoSet, Clocked;
    GetLine(name);
    var key, trace := Strip(name), Requests(lines);
    ReplyKinds(capacity, lines, i, key);
    if ReplyAt(capacity, trace, i) == Waiting {
      var m := WaitingJustified(capacity, trace, i, key);
      GrantIsText(capacity, lines, m, key);
      assert Leased(capacity, lines, i, key);
    } else if ReplyAt(capacity, trace, i) == Granted {
      NotLeased(capacity, lines, i, key);
    }
  }

  lemma NotLeased(capacity: nat, lines: seq<Timed>, i: nat, key: string)
    requires i < |lines| && Clocked(Requests(lines)) && GrantAt(capacity, Requests(lines), i, key)
    ensures !Leased(capacity, lines, i, key)
  {
    hide Read, LeaseSent, GrantAt, NoSet, Clocked;
    if m :| 0 <= m < i && LeaseSent(capacity, lines, m, key) && NoSet(Requests(lines), m, i, key)
            && lines[i].now - lines[m].now <= 5.0
    {
      GrantIsText(capacity, lines, m, key);
      LeaseExclusive(capacity, Requests(lines), m, i, key);
    }
  }
}
