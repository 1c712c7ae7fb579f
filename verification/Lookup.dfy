/** Reads: `Server._local_lookup`, `_resolve`, `_forward_to_leader` and the PEER decision of
    `handle_read` (data_plane/server.py) with the fan-out of `Raft.sendRead` (data_plane/raft/_raft.py). */
module Lookup {
  import opened Text
  import opened Records
  import opened Storage
  import opened Shards
  import opened Membership
  import C = Cluster

  datatype Replica = Replica(node: Node, records: Table)

  /** The cluster at the time of a read; only nodes in `up` can be connected to. */
  datatype Plane = Plane(replicas: map<nat, Replica>, up: set<nat>)

  const PEER := "PEER:"

  /** `_local_lookup` */
  function LocalLookup(r: Replica, domain: string): string {
    if domain != "" && Home(domain) in r.node.view.own
    then Respond(r.records, r.node.view.own, domain, "A") else "N/A"
  }

  /** One peer's answer in `sendRead`; empty when the connection fails. `PeerDecision` below shows that
      this is what the peer's `handle_read` replies to the line `PEER:<domain>`. */
  function PeerReply(p: Plane, h: Host, domain: string): string {
    if h.Ip? && h.addr in p.replicas && h.addr in p.up
    then Strip(LocalLookup(p.replicas[h.addr], RStrip(domain)) + "\n") else ""
  }

  /** `sendRead` on the leader: the first useful answer, in member order. */
  function FanOut(p: Plane, self: nat, nodes: seq<Member>, domain: string): string {
    if nodes == [] then "N/A"
    else
      var reply := PeerReply(p, nodes[0].host, domain);
      if nodes[0].host != Ip(self) && reply != "" && reply != "N/A" then reply
      else FanOut(p, self, nodes[1..], domain)
  }

  method SendRead(p: Plane, r: Replica, domain: string) returns (answer: string)
    ensures answer == if r.node.leader then FanOut(p, r.node.view.self, r.node.view.nodes, domain) else "N/A"
  {
    if !r.node.leader { return "N/A"; }
    var nodes, self := r.node.view.nodes, r.node.view.self;
    for i := 0 to |nodes|
      invariant FanOut(p, self, nodes, domain) == FanOut(p, self, nodes[i..], domain)
    {
      assert nodes[i..][1..] == nodes[i + 1..];
      if nodes[i].host != Ip(self) {
        var reply := PeerReply(p, nodes[i].host, domain);
        if reply != "" && reply != "N/A" { return reply; }
      }
    }
    return "N/A";
  }

  /** An owner with a clean table answers with the stored address, and `N/A` exactly when it stores none. */
  lemma OwnerLookup(r: Replica, domain: string)
    requires domain != "" && Trimmed(domain) && Home(domain) in r.node.view.own && Clean(r.records)
    ensures var key := (Lower(domain), "A");
            && (LocalLookup(r, domain) == "N/A" <==> key !in r.records)
            && (key in r.records ==> LocalLookup(r, domain) == r.records[key])
  {
    StripId(domain);
    StripId("A");
    assert Upper("A") == "A";
  }

  /** A blank line is answered `N/A`. */
  lemma BlankLine(p: Plane, ip: nat, text: string, live: string -> string)
    requires Sound(p) && ip in p.replicas && Blank(text)
    ensures HandleRead(p, ip, text, live) == "N/A"
  {
    BlankStrip(text);
  }

  ghost predicate Sound(p: Plane) {
    forall ip :: ip in p.replicas ==> p.replicas[ip].node.view.self == ip && Coherent(p.replicas[ip].node)
  }

  /** The nodes a forwarded read can still reach. */
  function Higher(p: Plane, ip: nat): set<nat> {
    set x | x in p.replicas && x > ip
  }

  /** `handle_read` on one line. The recursion ends because a follower only ever forwards to a
      higher address. `live` is the outcome of `newRecord`: the resolved address or N/A. */
  ghost function HandleRead(p: Plane, ip: nat, text: string, live: string -> string): string
    requires Sound(p) && ip in p.replicas
    decreases Higher(p, ip), 1
  {
    var line := Strip(text);
    if line == "" then "N/A"
    else if PEER <= line then LocalLookup(p.replicas[ip], line[5..])
    else Resolve(p, ip, line, live)
  }

  /** `_resolve` */
  ghost function Resolve(p: Plane, ip: nat, domain: string, live: string -> string): string
    requires Sound(p) && ip in p.replicas
    decreases Higher(p, ip), 0
  {
    var r := p.replicas[ip];
    var record := LocalLookup(r, domain);
    if record != "N/A" then record
    else if r.node.leader then
      var found := FanOut(p, ip, r.node.view.nodes, domain);
      if found != "N/A" then found else live(domain)
    else
      // _forward_to_leader
      var to := r.node.view.leaderIp;
      if to in p.replicas && to in p.up then
        assert to in Higher(p, ip) && to !in Higher(p, to) && Higher(p, to) <= Higher(p, ip);
        var response := Strip(HandleRead(p, to, domain + "\n", live) + "\n");
        if response == "" then "N/A" else response
      else "N/A"
  }

  /** Asked with the PEER prefix, a node looks in its own shard only: no forwarding, no fan-out. */
  lemma PeerDecision(p: Plane, ip: nat, domain: string, live: string -> string)
    requires Sound(p) && ip in p.replicas
    ensures HandleRead(p, ip, "PEER:" + domain + "\n", live) == LocalLookup(p.replicas[ip], RStrip(domain))
  {
    hide LocalLookup, Resolve;
    var line := PEER + domain + "\n";
    assert line == PEER + (domain + "\n") && line[0] == 'P';
    LStripId(line);
    RStripGlue(PEER, domain + "\n");
    RStripDrop(domain, "\n");
    assert (PEER + RStrip(domain))[5..] == RStrip(domain);
  }

  // ---------------------------------------------------------------- forwarding chains over a run

  /** Hop i is decided in states[i]: the node there is a follower and forwards to its believed leader. */
  predicate Forwards(states: seq<C.Cluster>, hops: seq<nat>) {
    && |hops| == |states| + 1
    && forall i :: 0 <= i < |states| ==>
         && hops[i] in states[i].nodes
         && !states[i].nodes[hops[i]].leader
         && hops[i + 1] == states[i].nodes[hops[i]].view.leaderIp
  }

  ghost predicate Reachable(ips: seq<nat>, c: C.Cluster) {
    exists events :: c == C.Run(C.Start(ips), events)
  }

  /** However the cluster changes between the hops, a forwarded read visits strictly higher addresses,
      so it never returns to a node and takes at most one hop per node. */
  lemma {:induction false} ForwardingClimbs(ips: seq<nat>, states: seq<C.Cluster>, hops: seq<nat>)
    requires forall i :: 0 <= i < |states| ==> Reachable(ips, states[i])
    requires Forwards(states, hops)
    ensures forall i, j :: 0 <= i < j < |hops| ==> hops[i] < hops[j]
    ensures |states| <= |Members(ips)|
  {
    forall i | 0 <= i < |states| ensures hops[i] < hops[i + 1] && hops[i] in ips {
      HopClimbs(ips, states[i], hops[i]);
    }
    forall i, j | 0 <= i < j < |hops| ensures hops[i] < hops[j] {
      Climbing(hops, i, j);
    }
    FitsIn(hops[..|states|], Members(ips));
  }

  lemma HopClimbs(ips: seq<nat>, c: C.Cluster, ip: nat)
    requires Reachable(ips, c) && ip in c.nodes && !c.nodes[ip].leader
    ensures ip in ips && ip < c.nodes[ip].view.leaderIp
  {
    hide C.Run, C.Start;
    var events :| c == C.Run(C.Start(ips), events);
    C.LeadershipCoherent(ips, events);
    assert Coherent(c.nodes[ip]);
  }

  lemma {:induction false} Climbing(hops: seq<nat>, i: nat, j: nat)
    requires forall k :: 0 <= k < |hops| - 1 ==> hops[k] < hops[k + 1]
    requires i < j < |hops|
    ensures hops[i] < hops[j]
    decreases j - i
  {
    if i + 1 < j { Climbing(hops, i + 1, j); }
  }

  lemma {:induction false} FitsIn(s: seq<nat>, all: set<nat>)
    requires forall i, j :: 0 <= i < j < |s| ==> s[i] < s[j]
    requires forall i :: 0 <= i < |s| ==> s[i] in all
    ensures |s| <= |all|
  {
    if s != [] {
      FitsIn(s[..|s| - 1], all - {s[|s| - 1]});
    }
  }

  // ---------------------------------------------------------------- one authoritative map

  /** Stored answers are non-blank, trimmed and not the miss marker. */
  predicate Clean(t: Table) {
    forall k :: k in t ==> t[k] != "" && Trimmed(t[k]) && t[k] != "N/A"
  }

  ghost predicate AllClean(p: Plane) {
    forall ip :: ip in p.replicas ==> Clean(p.replicas[ip].records)
  }

  /** A domain as a client line carries it: trimmed, and not a peer request. */
  predicate Query(domain: string) {
    domain != "" && Trimmed(domain) && !(PEER <= domain)
  }

  predicate Owner(p: Plane, ip: nat, letter: char) {
    ip in p.replicas && letter in p.replicas[ip].node.view.own
  }

  ghost predicate AtMostOneOwner(p: Plane, letter: char) {
    forall a, b :: Owner(p, a, letter) && Owner(p, b, letter) ==> a == b
  }

  /** The sharded store read as one map: what the owner of the first letter holds. */
  ghost function Authority(p: Plane, domain: string): string
    requires domain != ""
  {
    if exists ip :: Owner(p, ip, Home(domain))
    then var ip :| Owner(p, ip, Home(domain)); LocalLookup(p.replicas[ip], domain)
    else "N/A"
  }

  lemma AuthorityIs(p: Plane, domain: string, ip: nat)
    requires domain != "" && AtMostOneOwner(p, Home(domain)) && Owner(p, ip, Home(domain))
    ensures Authority(p, domain) == LocalLookup(p.replicas[ip], domain)
  {
  }

  /** A node that does not own the letter never answers, whatever copies it holds. */
  lemma LocalIsAuthority(p: Plane, domain: string, ip: nat)
    requires domain != "" && AtMostOneOwner(p, Home(domain)) && ip in p.replicas
    ensures LocalLookup(p.replicas[ip], domain) == if Owner(p, ip, Home(domain)) then Authority(p, domain) else "N/A"
  {
    if Owner(p, ip, Home(domain)) { AuthorityIs(p, domain, ip); }
  }

  lemma LocalClean(r: Replica, domain: string)
    requires Clean(r.records)
    ensures LocalLookup(r, domain) != "" && Strip(LocalLookup(r, domain) + "\n") == LocalLookup(r, domain)
  {
    var v := LocalLookup(r, domain);
    StripLine(v);
    StripId(v);
  }

  lemma AuthorityClean(p: Plane, domain: string)
    requires AllClean(p) && domain != ""
    ensures Authority(p, domain) != "" && Strip(Authority(p, domain) + "\n") == Authority(p, domain)
  {
    hide LocalLookup, Strip;
    if exists ip :: Owner(p, ip, Home(domain)) {
      forall ip | Owner(p, ip, Home(domain))
        ensures LocalLookup(p.replicas[ip], domain) != ""
             && Strip(LocalLookup(p.replicas[ip], domain) + "\n") == LocalLookup(p.replicas[ip], domain)
      {
        LocalClean(p.replicas[ip], domain);
      }
    } else {
      StripLine("N/A");
      StripId("N/A");
    }
  }

  /** A reachable peer answers with the authoritative value if it owns the letter, and uselessly if not. */
  lemma PeerAnswer(p: Plane, h: Host, domain: string)
    requires domain != "" && Trimmed(domain) && AllClean(p) && AtMostOneOwner(p, Home(domain))
    ensures PeerReply(p, h, domain)
         == if h.Ip? && h.addr in p.replicas && h.addr in p.up then
              (if Owner(p, h.addr, Home(domain)) then Authority(p, domain) else "N/A")
            else ""
  {
    hide Strip, LocalLookup, Owner, Authority, Clean;
    if h.Ip? && h.addr in p.replicas && h.addr in p.up {
      RStripId(domain);
      LocalClean(p.replicas[h.addr], domain);
      LocalIsAuthority(p, domain, h.addr);
    }
  }

  /** Fan-out finds the owner's answer when it can be reached, and nothing else. */
  lemma {:induction false} FanOutAnswer(p: Plane, self: nat, nodes: seq<Member>, domain: string)
    requires domain != "" && Trimmed(domain) && AllClean(p) && AtMostOneOwner(p, Home(domain))
    ensures FanOut(p, self, nodes, domain) in {Authority(p, domain), "N/A"}
    ensures (exists ip :: ip != self && Owner(p, ip, Home(domain)) && ip in p.up && Has(nodes, Ip(ip))) ==>
              FanOut(p, self, nodes, domain) == Authority(p, domain)
  {
    hide PeerReply, Owner, Authority, AllClean, AtMostOneOwner;
    if nodes != [] {
      assert nodes == [nodes[0]] + nodes[1..];
      FanOutAnswer(p, self, nodes[1..], domain);
      PeerAnswer(p, nodes[0].host, domain);
      AuthorityClean(p, domain);
      forall ip | Has(nodes, Ip(ip)) ensures nodes[0].host == Ip(ip) || Has(nodes[1..], Ip(ip)) {
        HasCons(nodes[0], nodes[1..], Ip(ip));
      }
      OwnerPresent(p, domain);
    }
  }

  lemma OwnerPresent(p: Plane, domain: string)
    requires domain != ""
    ensures forall ip :: Owner(p, ip, Home(domain)) ==> ip in p.replicas
  {
  }

  lemma ReadIsResolve(p: Plane, ip: nat, domain: string, live: string -> string)
    requires Sound(p) && ip in p.replicas && Query(domain)
    ensures HandleRead(p, ip, domain + "\n", live) == Resolve(p, ip, domain, live)
  {
    hide Resolve, LStrip, RStrip;
    StripLine(domain);
    StripId(domain);
  }

  lemma HigherShrinks(p: Plane, ip: nat, to: nat)
    requires to in p.replicas && ip < to
    ensures Higher(p, to) < Higher(p, ip)
  {
    assert to in Higher(p, ip) && to !in Higher(p, to);
  }

  /** A follower that has no answer of its own passes on what its believed leader answers. */
  lemma FollowerRead(p: Plane, ip: nat, domain: string, live: string -> string)
    requires Sound(p) && ip in p.replicas && Query(domain) && !p.replicas[ip].node.leader
    ensures var to := p.replicas[ip].node.view.leaderIp;
            && ip < to
            && (LocalLookup(p.replicas[ip], domain) == "N/A" ==>
                  if to in p.replicas && to in p.up
                  then var v := Strip(Resolve(p, to, domain, live) + "\n");
                       Resolve(p, ip, domain, live) == if v == "" then "N/A" else v
                  else Resolve(p, ip, domain, live) == "N/A")
  {
    hide LocalLookup, HandleRead, Strip;
    assert Coherent(p.replicas[ip].node);
    var to := p.replicas[ip].node.view.leaderIp;
    if to in p.replicas {
      ReadIsResolve(p, to, domain, live);
    }
  }

  /** Whoever is down and whatever non-owners remember, a read returns the owner's value, a miss, or a
      freshly resolved address. */
  lemma {:induction false} ReadNeverStale(p: Plane, ip: nat, domain: string, live: string -> string)
    requires Sound(p) && AllClean(p) && ip in p.replicas && Query(domain) && AtMostOneOwner(p, Home(domain))
    requires Trimmed(live(domain)) && live(domain) != ""
    ensures Resolve(p, ip, domain, live) in {Authority(p, domain), "N/A", live(domain)}
    decreases Higher(p, ip)
  {
    hide LocalLookup, FanOut, Authority, AllClean, AtMostOneOwner, Strip, HandleRead, Sound;
    var r := p.replicas[ip];
    LocalIsAuthority(p, domain, ip);
    if r.node.leader {
      FanOutAnswer(p, ip, r.node.view.nodes, domain);
    } else {
      FollowerRead(p, ip, domain, live);
      var to := r.node.view.leaderIp;
      if to in p.replicas {
        HigherShrinks(p, ip, to);
        ReadNeverStale(p, to, domain, live);
        AuthorityClean(p, domain);
        TrimmedLine("N/A");
        TrimmedLine(live(domain));
      }
    }
  }

  lemma TrimmedLine(s: string)
    requires Trimmed(s)
    ensures Strip(s + "\n") == s
  {
    StripLine(s);
    StripId(s);
  }

  /** Everybody is reachable, listed by everybody, and every believed leader is a node. */
  ghost predicate Connected(p: Plane) {
    forall ip :: ip in p.replicas ==>
      && ip in p.up
      && p.replicas[ip].node.view.leaderIp in p.replicas
      && forall other :: other in p.replicas ==> Has(p.replicas[ip].node.view.nodes, Ip(other))
  }

  /** With every node reachable, a read through any node refines a lookup in the one authoritative map:
      the owner's value if it has one, and otherwise the live address. */
  lemma {:induction false} ReadRefinesMap(p: Plane, ip: nat, domain: string, live: string -> string)
    requires Sound(p) && AllClean(p) && Connected(p) && ip in p.replicas
    requires Query(domain) && AtMostOneOwner(p, Home(domain))
    requires Trimmed(live(domain)) && live(domain) != ""
    ensures Resolve(p, ip, domain, live)
         == if Authority(p, domain) != "N/A" then Authority(p, domain) else live(domain)
    decreases Higher(p, ip)
  {
    hide LocalLookup, FanOut, Authority, AllClean, AtMostOneOwner, Strip, HandleRead, Sound, Has;
    var r := p.replicas[ip];
    LocalIsAuthority(p, domain, ip);
    if r.node.leader {
      LeaderFinds(p, ip, domain);
    } else {
      FollowerRead(p, ip, domain, live);
      var to := r.node.view.leaderIp;
      HigherShrinks(p, ip, to);
      ReadRefinesMap(p, to, domain, live);
      AuthorityClean(p, domain);
      TrimmedLine(live(domain));
    }
  }

  lemma QueryTrimmed(domain: string)
    requires Query(domain)
    ensures domain != "" && Trimmed(domain)
  {
  }

  /** On a leader, the local shard plus the fan-out covers every owner. */
  lemma LeaderFinds(p: Plane, ip: nat, domain: string)
    requires AllClean(p) && Connected(p) && ip in p.replicas && p.replicas[ip].node.leader
    requires Query(domain) && AtMostOneOwner(p, Home(domain))
    ensures var local := LocalLookup(p.replicas[ip], domain);
            (if local != "N/A" then local else FanOut(p, ip, p.replicas[ip].node.view.nodes, domain))
            == Authority(p, domain)
  {
    hide LocalLookup, FanOut, AllClean, Authority, Has, Query;
    QueryTrimmed(domain);
    var nodes := p.replicas[ip].node.view.nodes;
    LocalIsAuthority(p, domain, ip);
    FanOutAnswer(p, ip, nodes, domain);
    if o :| Owner(p, o, Home(domain)) {
      assert o != ip ==> Has(nodes, Ip(o));
    } else {
      NobodyAnswers(p, domain);
    }
  }

  // ---------------------------------------------------------------- on reachable clusters

  /** The plane at a state of the cluster, each node with its own table, everyone reachable. */
  function PlaneOf(c: C.Cluster, tables: map<nat, Table>): Plane {
    Plane(map ip | ip in c.nodes :: Replica(c.nodes[ip], if ip in tables then tables[ip] else map[]), c.nodes.Keys)
  }

  lemma CalmConnected(ips: seq<nat>, events: seq<C.Event>, tables: map<nat, Table>)
    requires C.Calm(events)
    ensures var p := PlaneOf(C.Run(C.Start(ips), events), tables);
            Connected(p) && p.replicas.Keys == Members(ips)
  {
    hide C.Run, C.Start, C.AllSettled, Has, Coherent;
    var c := C.Run(C.Start(ips), events);
    C.CalmSettled(ips, events);
    C.LeadershipCoherent(ips, events);
    forall ip, other | ip in c.nodes && other in c.nodes
      ensures c.nodes[ip].view.leaderIp in c.nodes && Has(c.nodes[ip].view.nodes, Ip(other))
    {
      SettledKnows(c, ips, ip, other);
    }
  }

  lemma SettledKnows(c: C.Cluster, ips: seq<nat>, ip: nat, other: nat)
    requires C.AllSettled(c, ips) && ip in c.nodes && other in c.nodes
    ensures c.nodes[ip].view.leaderIp in c.nodes && Has(c.nodes[ip].view.nodes, Ip(other))
  {
    hide Register, RankOr, ShardsOf, C.Genuine, Has, Coherent;
    assert C.Settled(c.nodes[ip].view, ips, ip);
    Registered(ips, Ip(other), 1);
  }

  lemma CalmSound(ips: seq<nat>, events: seq<C.Event>, tables: map<nat, Table>)
    ensures Sound(PlaneOf(C.Run(C.Start(ips), events), tables))
  {
    hide C.Run, C.Start, Coherent;
    C.LeadershipCoherent(ips, events);
  }

  lemma CalmOwner(ips: seq<nat>, events: seq<C.Event>, tables: map<nat, Table>, i: nat) returns (ip: nat)
    requires C.Calm(events) && ips != [] && C.Complete(ips) && i < TOTAL_LETTERS
    ensures var p := PlaneOf(C.Run(C.Start(ips), events), tables);
            Owner(p, ip, ALPHABET[i]) && AtMostOneOwner(p, ALPHABET[i])
  {
    hide C.Run, C.Start, C.Complete;
    var c := C.Run(C.Start(ips), events);
    var p := PlaneOf(c, tables);
    C.OwnershipPartition(ips, events);
    assert C.OwnedOnce(c, ALPHABET[i]);
    ip :| C.Owns(c, ip, ALPHABET[i]) && forall other :: C.Owns(c, other, ALPHABET[i]) ==> other == ip;
    assert forall a :: Owner(p, a, ALPHABET[i]) <==> C.Owns(c, a, ALPHABET[i]);
  }

  /** In every reachable state of a calm run over a complete list of IPs, a read of any domain through
      any node answers as the single owner of its first letter would, and as live resolution would when
      the owner lacks it or nobody owns the character. */
  lemma ClusterReads(ips: seq<nat>, events: seq<C.Event>, tables: map<nat, Table>, ip: nat, domain: string,
                     live: string -> string)
    requires C.Calm(events) && C.Complete(ips) && ip in ips && Query(domain)
    requires forall i :: i in tables ==> Clean(tables[i])
    requires Trimmed(live(domain)) && live(domain) != ""
    ensures var p := PlaneOf(C.Run(C.Start(ips), events), tables);
            && Sound(p) && ip in p.replicas
            && HandleRead(p, ip, domain + "\n", live)
               == (if Authority(p, domain) != "N/A" then Authority(p, domain) else live(domain))
            && (Home(domain) !in ALPHABET ==> Authority(p, domain) == "N/A")
            && (Home(domain) in ALPHABET ==>
                  exists o :: Owner(p, o, Home(domain)) && Authority(p, domain) == LocalLookup(p.replicas[o], domain))
  {
    hide C.Run, C.Start, HandleRead, Resolve, LocalLookup, Trimmed, Authority, ShardsOf, Connected, Sound;
    var p := PlaneOf(C.Run(C.Start(ips), events), tables);
    CalmSound(ips, events, tables);
    CalmConnected(ips, events, tables);
    assert AllClean(p);
    if Home(domain) in ALPHABET {
      var i :| 0 <= i < TOTAL_LETTERS && ALPHABET[i] == Home(domain);
      var o := CalmOwner(ips, events, tables, i);
      AuthorityIs(p, domain, o);
    } else {
      NoForeignOwner(ips, events, tables, domain);
      NobodyAnswers(p, domain);
    }
    ReadRefinesMap(p, ip, domain, live);
    ReadIsResolve(p, ip, domain, live);
  }

  lemma NobodyAnswers(p: Plane, domain: string)
    requires domain != "" && forall o :: !Owner(p, o, Home(domain))
    ensures Authority(p, domain) == "N/A" && AtMostOneOwner(p, Home(domain))
  {
  }

  lemma NoForeignOwner(ips: seq<nat>, events: seq<C.Event>, tables: map<nat, Table>, domain: string)
    requires C.Calm(events) && domain != "" && Home(domain) !in ALPHABET
    ensures forall o :: !Owner(PlaneOf(C.Run(C.Start(ips), events), tables), o, Home(domain))
  {
    hide C.Run, C.Start, Register, RankOr, ShardsOf, C.Genuine;
    var c := C.Run(C.Start(ips), events);
    C.CalmSettled(ips, events);
    forall o | o in c.nodes ensures Home(domain) !in c.nodes[o].view.own {
      var v := c.nodes[o].view;
      assert C.Settled(v, ips, o);
      if Home(domain) in v.own {
        InAlphabet(v.nodeCount, v.rank, v.lastRank, Home(domain));
      }
    }
  }

  lemma InAlphabet(nodeCount: int, rank: int, lastRank: int, c: char)
    requires c in ShardsOf(nodeCount, rank, lastRank)
    ensures c in ALPHABET
  {
    OnlyLetters(nodeCount, rank, lastRank, c);
    AlphabetDistinct();
    assert ALPHABET[c as int - 'a' as int] == c;
  }
}
