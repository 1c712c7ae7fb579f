/** Properties that cross components: the control plane's resolve calls over a data-plane cluster, and
    a live resolution written back to the owner of its shard. */
module EndToEnd {
  import opened Text
  import opened Records
  import opened Storage
  import opened Membership
  import Shards
  import C = Cluster
  import opened Lookup
  import R = Replication
  import K = CacheClient
  import V = CacheRuns
  import D = DnsWire

  // ---------------------------------------------------------------- resolve over a cluster

  /** The data plane that the caches see is node `ip` of the cluster. */
  ghost predicate Backed(k: K.Config, p: Plane, ip: nat, live: string -> string) {
    Sound(p) && ip in p.replicas && forall d :: k.plane(d) == HandleRead(p, ip, d + "\n", live)
  }

  lemma TrimmedLookup(r: Replica, domain: string)
    requires Clean(r.records)
    ensures Trimmed(LocalLookup(r, domain))
  {
  }

  lemma {:induction false} TrimmedFanOut(p: Plane, self: nat, nodes: seq<Member>, domain: string)
    ensures Trimmed(FanOut(p, self, nodes, domain))
  {
    if nodes != [] {
      TrimmedReply(p, nodes[0].host, domain);
      hide PeerReply, Trimmed;
      TrimmedFanOut(p, self, nodes[1..], domain);
    }
  }

  lemma TrimmedReply(p: Plane, h: Host, domain: string)
    ensures Trimmed(PeerReply(p, h, domain))
  {
    hide LocalLookup;
    if h.Ip? && h.addr in p.replicas && h.addr in p.up {
      var i, j := StripShape(LocalLookup(p.replicas[h.addr], RStrip(domain)) + "\n");
    }
  }

  /** Whatever line a node is asked, it replies with trimmed text. */
  lemma {:induction false} RepliesTrimmed(p: Plane, ip: nat, text: string, live: string -> string)
    requires Sound(p) && AllClean(p) && ip in p.replicas && forall d :: Trimmed(live(d))
    ensures Trimmed(HandleRead(p, ip, text, live))
    decreases Higher(p, ip), 1
  {
    hide LocalLookup, FanOut, Trimmed, LStrip, RStrip;
    NaTrimmed();
    var line := Strip(text);
    if PEER <= line {
      TrimmedLookup(p.replicas[ip], line[5..]);
    } else {
      ResolvesTrimmed(p, ip, line, live);
    }
  }

  lemma NaTrimmed()
    ensures Trimmed("N/A")
  {
  }

  lemma {:induction false} ResolvesTrimmed(p: Plane, ip: nat, domain: string, live: string -> string)
    requires Sound(p) && AllClean(p) && ip in p.replicas && forall d :: Trimmed(live(d))
    ensures Trimmed(Resolve(p, ip, domain, live))
    decreases Higher(p, ip), 0
  {
    hide LocalLookup, FanOut, HandleRead, Trimmed, LStrip, RStrip;
    NaTrimmed();
    var r := p.replicas[ip];
    TrimmedLookup(r, domain);
    if r.node.leader {
      TrimmedFanOut(p, ip, r.node.view.nodes, domain);
    } else {
      assert Coherent(r.node);
      var to := r.node.view.leaderIp;
      if to in p.replicas {
        var i, j := StripShape(HandleRead(p, to, domain + "\n", live) + "\n");
      }
    }
  }

  /** The data plane behind the caches strips what it is asked and what it answers, so only names with
      semicolons can clash in the caches. */
  lemma BackedStrips(k: K.Config, p: Plane, ip: nat, live: string -> string)
    requires Backed(k, p, ip, live) && AllClean(p) && forall d :: Trimmed(live(d))
    ensures K.StripsLines(k)
  {
    hide HandleRead, Sound, AllClean, Strip, Trimmed;
    forall d ensures Trimmed(k.plane(d)) && k.plane(d) == k.plane(Strip(d)) {
      RepliesTrimmed(p, ip, d + "\n", live);
      SameLine(p, ip, d, live);
    }
  }

  lemma SameLine(p: Plane, ip: nat, d: string, live: string -> string)
    requires Sound(p) && ip in p.replicas
    ensures HandleRead(p, ip, d + "\n", live) == HandleRead(p, ip, Strip(d) + "\n", live)
  {
    hide Resolve, LocalLookup, LStrip, RStrip;
    var i, j := StripShape(d);
    StripLine(d);
    StripLine(Strip(d));
    StripId(Strip(d));
  }

  lemma SemicolonFreeNames(k: K.Config, p: Plane, ip: nat, live: string -> string, names: set<string>)
    requires Backed(k, p, ip, live) && AllClean(p) && forall d :: Trimmed(live(d))
    requires forall d :: d in names ==> ';' !in d
    ensures K.ClashFree(k, names)
  {
    hide Backed, AllClean, K.StripsLines, K.ClashFree, Trimmed;
    BackedStrips(k, p, ip, live);
    K.SemicolonFree(k, names);
  }

  /** For any interleaving of any number of resolve calls over the two cache tiers, backed by any node of
      any reachable calm cluster over a complete IP list, for any names that do not clash: a finished call
      returned the record of the one owner of the domain's first letter, or the live address where no
      record exists, or the empty string. */
  lemma FrontEndAnswers(ips: seq<nat>, events: seq<C.Event>, tables: map<nat, Table>, ip: nat,
                        live: string -> string, k: K.Config, w: K.World, names: set<string>,
                        trace: seq<K.Event>, id: nat)
    requires C.Calm(events) && C.Complete(ips) && ip in ips
    requires forall i :: i in tables ==> Clean(tables[i])
    requires forall d :: Trimmed(live(d)) && live(d) != ""
    requires Backed(k, PlaneOf(C.Run(C.Start(ips), events), tables), ip, live)
    requires K.Initial(w) && K.ClashFree(k, names) && K.Over(names, trace)
    requires id in K.Run(k, w, trace).calls && K.Run(k, w, trace).calls[id].pc.Done?
    requires Query(Strip(K.Run(k, w, trace).calls[id].domain))
    ensures var p := PlaneOf(C.Run(C.Start(ips), events), tables);
            var d, result := Strip(K.Run(k, w, trace).calls[id].domain), K.Run(k, w, trace).calls[id].pc.result;
            && (if Authority(p, d) != "N/A" then result in {Authority(p, d), ""} else result in {live(d), ""})
            && result != "N/A"
            && (!V.FetchLost(k, w, trace, id) ==>
                  result == if Authority(p, d) != "N/A" then Authority(p, d) else if live(d) != "N/A" then live(d) else "")
  {
    hide C.Run, C.Start, K.Run, Authority, HandleRead, Sound, Clean, C.Complete, Trimmed, Query, K.ClashFree, K.Over, Strip;
    var p := PlaneOf(C.Run(C.Start(ips), events), tables);
    K.ResolveAnswers(k, w, names, trace, id);
    if !V.FetchLost(k, w, trace, id) { V.CompleteAnswer(k, w, names, trace, id); }
    var name := K.Run(k, w, trace).calls[id].domain;
    SameLine(p, ip, name, live);
    ClusterReads(ips, events, tables, ip, Strip(name), live);
    assert k.plane(name) == HandleRead(p, ip, name + "\n", live);
    QueryTrimmed(Strip(name));
    PlaneClean(C.Run(C.Start(ips), events), tables);
    AnswerNotBlank(p, Strip(name), live(Strip(name)));
  }

  lemma PlaneClean(c: C.Cluster, tables: map<nat, Table>)
    requires forall i :: i in tables ==> Clean(tables[i])
    ensures AllClean(PlaneOf(c, tables))
  {
  }

  lemma AnswerNotBlank(p: Plane, d: string, found: string)
    requires AllClean(p) && d != "" && Trimmed(found) && found != ""
    ensures !Blank(Authority(p, d)) && !Blank(found)
  {
    hide Authority, AllClean, Strip;
    AuthorityClean(p, d);
    StripNonBlank(Authority(p, d));
    StripLine(Authority(p, d));
    assert !IsSpace(found[0]);
  }

  // ---------------------------------------------------------------- a live resolution written back

  /** A miss that the leader resolves is written as `domain,A,ip`, on the leader itself and on the owner
      that receives the replicated line. Right after it the owner answers with that address, exactly when
      the domain was asked for in lower case. */
  lemma WriteBackVisible(r: Replica, domain: string, ip: string)
    requires Query(domain) && ',' !in domain && ';' !in domain && Home(domain) in r.node.view.own
    requires ip != "" && Trimmed(ip) && ',' !in ip && ';' !in ip && ip != "N/A"
    requires LocalLookup(r, domain) == "N/A" && Clean(r.records)
    ensures var update, own := domain + ",A," + ip, r.node.view.own;
            var asLeader := Put(r.records, R.LeaderEntry(update));
            var asFollower := Put(r.records, R.ReplicaEntry(own, R.Wire(update)));
            && asLeader == asFollower
            && LocalLookup(r.(records := asLeader), domain) == (if Lower(domain) == domain then ip else "N/A")
  {
    var update := domain + ",A," + ip;
    assert update == domain + "," + "A" + "," + ip;
    UpdateEntry(domain, ip, r.node.view.own);
    StripId(domain);
    StripId("A");
    assert Upper("A") == "A";
    hide R.LeaderEntry, R.ReplicaEntry, R.Wire, Strip, Trimmed;
    var key := (Lower(domain), "A");
    assert key !in r.records;
  }

  lemma UpdateEntry(domain: string, ip: string, own: set<char>)
    requires domain != "" && Trimmed(domain) && ',' !in domain && ';' !in domain && Home(domain) in own
    requires ip != "" && Trimmed(ip) && ',' !in ip && ';' !in ip
    ensures var update := domain + ",A," + ip;
            R.LeaderEntry(update) == R.ReplicaEntry(own, R.Wire(update)) == Some(((domain, "A"), ip))
  {
    var update := domain + ",A," + ip;
    assert update == domain + "," + "A" + "," + ip;
    assert ',' !in "A" && Trimmed("A");
    ThreeFields(domain, "A", ip);
    assert ';' !in update;
    hide Fields, Domain, RType, Address, R.Wire, R.ReplicaEntry;
    assert Domain(update) == domain;
    R.EntriesAgree(own, update);
  }

  // ---------------------------------------------------------------- reads after writes

  /** The tables of the cluster after a run of the write pipeline. */
  function TablesOf(t: R.System, leader: nat): map<nat, Table> {
    (map f | f in t.followers :: t.followers[f].store.records)[leader := t.leader.store.records]
  }

  /** The write pipeline runs on this cluster: one leader, every other node a follower with the shards that
      the cluster gives it. */
  predicate Deployed(s: R.System, ips: seq<nat>, leader: nat) {
    && leader in ips
    && s.followers.Keys == Members(ips) - {leader}
    && forall f :: f in s.followers ==> s.followers[f].own == Boot(ips, f).own
  }

  /** Every follower has received every line, in order. */
  predicate AllDelivered(s: R.System, events: seq<R.Event>) {
    forall f :: f in s.followers ==> R.InOrder(s, events, f) && R.Received(events, f) == |R.Writes(events)|
  }

  /** An update that no reader takes for a miss. */
  predicate Readable(update: string) {
    Committable(update) ==> Address(update) != "" && Address(update) != "N/A"
  }

  predicate CleanEntry(e: Option<(Key, string)>) {
    e.Some? ==> e.value.1 != "" && Trimmed(e.value.1) && e.value.1 != "N/A"
  }

  lemma {:induction false} FoldClean(t: Table, es: seq<Option<(Key, string)>>)
    requires Clean(t) && forall i :: 0 <= i < |es| ==> CleanEntry(es[i])
    ensures Clean(R.Fold(t, es))
  {
    if es != [] { FoldClean(t, es[..|es| - 1]); }
  }

  lemma EntriesClean(own: set<char>, update: string)
    requires Readable(update) && R.Wire(update) == update && ';' !in update
    ensures CleanEntry(R.LeaderEntry(update)) && CleanEntry(R.ReplicaEntry(own, R.Wire(update)))
  {
    if |Fields(update)| >= 3 { var i, j := StripShape(Fields(update)[2]); }
    R.FieldHead(update);
  }

  predicate CleanStart(s: R.System) {
    Clean(s.leader.store.records) && forall f :: f in s.followers ==> Clean(s.followers[f].store.records)
  }

  /** Readable writes keep every table clean. */
  lemma LeaderClean(s: R.System, events: seq<R.Event>)
    requires R.Initial(s) && R.NoReplay(events) && Clean(s.leader.store.records)
    requires forall i :: 0 <= i < |events| ==> R.Tidy(events[i])
    requires forall i :: 0 <= i < |R.Writes(events)| ==> Readable(R.Writes(events)[i].update)
    ensures Clean(R.Run(s, events).leader.store.records)
  {
    hide R.Run, R.Writes, R.NoReplay, R.Tidy, Readable, Clean, CleanEntry, R.LeaderEntry, R.Wire;
    R.LeaderFolds(s, events);
    R.TidyWrites(events);
    var ws := R.Writes(events);
    forall i | 0 <= i < |ws| ensures CleanEntry(R.StoredEntries(ws)[i]) {
      EntriesClean({}, ws[i].update);
      NoEntryClean();
    }
    FoldClean(s.leader.store.records, R.StoredEntries(ws));
  }

  lemma NoEntryClean()
    ensures CleanEntry(None)
  {
  }

  lemma FollowerClean(s: R.System, events: seq<R.Event>, f: nat)
    requires R.Initial(s) && f in s.followers && R.InOrder(s, events, f) && R.Received(events, f) == |R.Writes(events)|
    requires Clean(s.followers[f].store.records)
    requires forall i :: 0 <= i < |events| ==> R.Tidy(events[i])
    requires forall i :: 0 <= i < |R.Writes(events)| ==> Readable(R.Writes(events)[i].update)
    ensures f in R.Run(s, events).followers && Clean(R.Run(s, events).followers[f].store.records)
  {
    hide R.Run, R.Writes, R.Tidy, Readable, Clean, CleanEntry, R.ReplicaEntry, R.Wire, R.NumKey, R.InOrder, R.Received;
    R.ReplicaFolds(s, events, f);
    R.LogIsWrites(s, events);
    R.TidyWrites(events);
    var ws, own := R.Writes(events), s.followers[f].own;
    var log := R.LogOf(R.Run(s, events).leader.logs, |ws|);
    forall i | 0 <= i < |log| ensures CleanEntry(R.ReplicaEntries(own, log)[i]) {
      EntriesClean(own, ws[i].update);
    }
    FoldClean(s.followers[f].store.records, R.ReplicaEntries(own, log));
  }

  /** The key a read of the domain looks up. */
  function ReadKey(domain: string): Key {
    (Lower(domain), "A")
  }

  /** An owner whose table holds the key answers a read with it. */
  lemma OwnerAnswers(r: Replica, domain: string, v: string)
    requires Query(domain) && Home(domain) in r.node.view.own
    requires ReadKey(domain) in r.records && r.records[ReadKey(domain)] == v
    ensures LocalLookup(r, domain) == v
  {
    StripId(domain);
    StripId("A");
    assert Upper("A") == "A";
  }

  lemma SameHome(domain: string)
    requires domain != ""
    ensures Home(Lower(domain)) == Home(domain)
  {
  }

  /** In a calm cluster every node still has the shards it booted with. */
  lemma CalmShards(ips: seq<nat>, events: seq<C.Event>, o: nat)
    requires C.Calm(events) && o in C.Run(C.Start(ips), events).nodes
    ensures C.Run(C.Start(ips), events).nodes[o].view.own == Boot(ips, o).own && o in ips
  {
    hide C.Run, C.Start, Register, RankOr, C.Genuine, Coherent;
    C.CalmSettled(ips, events);
    assert C.Settled(C.Run(C.Start(ips), events).nodes[o].view, ips, o);
  }

  /** What the owner of a letter holds for a key of that letter, after all writes have been delivered. */
  lemma OwnerTable(s: R.System, events: seq<R.Event>, ips: seq<nat>, leader: nat, o: nat, k: Key, i: nat)
    requires R.Initial(s) && R.NoReplay(events) && Deployed(s, ips, leader) && AllDelivered(s, events)
    requires R.LastWrite(R.Writes(events), k, i)
    requires var w := R.Writes(events)[i]; w.writable && ';' !in w.update && |Fields(w.update)| == 3
    requires o in ips && Home(k.0) in Boot(ips, o).own
    ensures var tables := TablesOf(R.Run(s, events), leader);
            o in tables && k in tables[o] && tables[o][k] == Address(R.Writes(events)[i].update)
  {
    hide R.Run, R.Writes, R.InOrder, R.Received, R.LastWrite, R.NoReplay, Fields, Boot;
    if o == leader {
      R.LeaderHolds(s, events, k, i);
    } else {
      assert o in s.followers;
      R.OwnerHolds(s, events, o, k, i);
    }
  }

  lemma {:induction false} FollowersStay(s: R.System, events: seq<R.Event>)
    ensures R.Run(s, events).followers.Keys == s.followers.Keys
  {
    hide R.Handle, R.NewRecord, R.Parts;
    if events != [] { FollowersStay(s, events[..|events| - 1]); }
  }

  lemma TablesClean(s: R.System, events: seq<R.Event>, leader: nat)
    requires R.Initial(s) && R.NoReplay(events) && AllDelivered(s, events) && CleanStart(s)
    requires forall i :: 0 <= i < |events| ==> R.Tidy(events[i])
    requires forall i :: 0 <= i < |R.Writes(events)| ==> Readable(R.Writes(events)[i].update)
    ensures forall o :: o in TablesOf(R.Run(s, events), leader) ==> Clean(TablesOf(R.Run(s, events), leader)[o])
  {
    hide R.Run, R.Writes, R.InOrder, R.Received, R.NoReplay, R.Tidy, Readable, Clean;
    LeaderClean(s, events);
    FollowersStay(s, events);
    forall f | f in s.followers ensures Clean(R.Run(s, events).followers[f].store.records) {
      FollowerClean(s, events, f);
    }
  }

  /** Reads return the last write. In any reachable state of a calm cluster over a complete IP list whose
      leader has run any sequence of writes, all delivered in order: a read through any node returns the
      address of the last write of the domain's key, whatever the tables held before. */
  lemma ReadsReturnLastWrite(ips: seq<nat>, steps: seq<C.Event>, s: R.System, events: seq<R.Event>,
                             leader: nat, ip: nat, domain: string, i: nat, live: string -> string)
    requires C.Calm(steps) && C.Complete(ips) && ip in ips
    requires Query(domain) && Home(domain) in Shards.ALPHABET && Trimmed(live(domain)) && live(domain) != ""
    requires R.Initial(s) && R.NoReplay(events) && Deployed(s, ips, leader) && AllDelivered(s, events)
    requires CleanStart(s) && forall i :: 0 <= i < |events| ==> R.Tidy(events[i])
    requires forall i :: 0 <= i < |R.Writes(events)| ==> Readable(R.Writes(events)[i].update)
    requires R.LastWrite(R.Writes(events), ReadKey(domain), i)
    requires R.Writes(events)[i].writable && |Fields(R.Writes(events)[i].update)| == 3
    ensures var p := PlaneOf(C.Run(C.Start(ips), steps), TablesOf(R.Run(s, events), leader));
            && Sound(p) && ip in p.replicas
            && HandleRead(p, ip, domain + "\n", live) == Address(R.Writes(events)[i].update)
  {
    hide C.Run, C.Start, R.Run, R.Writes, R.NoReplay, R.Tidy, Readable, Clean, CleanStart, AllDelivered, C.Complete,
         HandleRead, Authority, LocalLookup, Sound, Fields, Trimmed, Boot, Query, TablesOf, Deployed;
    var k, tables := ReadKey(domain), TablesOf(R.Run(s, events), leader);
    var p := PlaneOf(C.Run(C.Start(ips), steps), tables);
    R.TidyWrites(events);
    TablesClean(s, events, leader);
    ClusterReads(ips, steps, tables, ip, domain, live);
    var o :| Owner(p, o, Home(domain)) && Authority(p, domain) == LocalLookup(p.replicas[o], domain);
    CalmShards(ips, steps, o);
    QueryTrimmed(domain);
    SameHome(domain);
    OwnerTable(s, events, ips, leader, o, k, i);
    OwnerAnswers(p.replicas[o], domain, tables[o][k]);
    assert Clean(tables[o]);
    CleanAt(tables[o], k);
  }

  lemma CleanAt(t: Table, k: Key)
    requires Clean(t) && k in t
    ensures t[k] != "N/A"
  {
  }

  /** So a live resolution of a lower-case name, once delivered, is what every node answers from then on,
      until the key is written again. */
  lemma WriteBackServed(ips: seq<nat>, steps: seq<C.Event>, s: R.System, before: seq<R.Event>, after: seq<R.Event>,
                        leader: nat, ip: nat, domain: string, address: string, live: string -> string)
    requires C.Calm(steps) && C.Complete(ips) && ip in ips
    requires Query(domain) && Lower(domain) == domain && ',' !in domain && ';' !in domain
    requires Home(domain) in Shards.ALPHABET && Trimmed(live(domain)) && live(domain) != ""
    requires address != "" && Trimmed(address) && ',' !in address && ';' !in address && address != "N/A"
    requires var events := before + [R.Live(domain, address, true)] + after;
             && R.Initial(s) && R.NoReplay(events) && Deployed(s, ips, leader) && AllDelivered(s, events)
             && CleanStart(s) && (forall i :: 0 <= i < |events| ==> R.Tidy(events[i]))
             && (forall i :: 0 <= i < |R.Writes(events)| ==> Readable(R.Writes(events)[i].update))
    requires forall i :: 0 <= i < |R.Writes(after)| ==> !R.Writing(R.Writes(after)[i].update, ReadKey(domain))
    ensures var events := before + [R.Live(domain, address, true)] + after;
            var p := PlaneOf(C.Run(C.Start(ips), steps), TablesOf(R.Run(s, events), leader));
            && Sound(p) && ip in p.replicas
            && HandleRead(p, ip, domain + "\n", live) == address
  {
    hide C.Run, C.Start, R.Run, R.NoReplay, R.Tidy, Readable, CleanStart, AllDelivered, C.Complete, HandleRead, Sound,
         TablesOf, Deployed, R.Writes, R.Writing, R.Initial;
    var event := R.Live(domain, address, true);
    var events, i := before + [event] + after, |R.Writes(before)|;
    R.WritesConcat(before + [event], after);
    R.WritesConcat(before, [event]);
    OneWrite(domain, address);
    ReadsReturnLastWrite(ips, steps, s, events, leader, ip, domain, i, live);
  }

  lemma OneWrite(domain: string, address: string)
    requires domain != "" && Trimmed(domain) && Lower(domain) == domain && ',' !in domain && ';' !in domain
    requires address != "" && Trimmed(address) && ',' !in address && ';' !in address
    ensures var update := domain + ",A," + address;
            && R.Writes([R.Live(domain, address, true)]) == [R.Write(update, true)]
            && R.Writing(update, ReadKey(domain)) && |Fields(update)| == 3 && Address(update) == address
  {
    var update := domain + ",A," + address;
    assert update == domain + "," + "A" + "," + address;
    assert ',' !in "A" && Trimmed("A");
    ThreeFields(domain, "A", address);
    hide Fields;
    assert [R.Live(domain, address, true)][..0] == [];
  }

  /** The DNS front end only ever asks in lower case. */
  lemma ParsedNamesLower(packet: seq<D.Byte>)
    ensures D.Domain(packet).Some? ==> Lower(D.Domain(packet).value) == D.Domain(packet).value
  {
    hide D.Walk;
    if D.Domain(packet).Some? {
      var name := D.Domain(packet).value;
      assert forall i :: 0 <= i < |name| ==> Lower(name)[i] == name[i];
    }
  }
}
