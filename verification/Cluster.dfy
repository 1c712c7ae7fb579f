/** The data-plane cluster as a step system: the nodes plus every heartbeat ever sent. A sent
    heartbeat may be delivered never, once, many times, and in any order. */
module Cluster {
  import opened Shards
  import opened Membership

  datatype Envelope = Envelope(to: nat, beat: Beat)

  datatype Cluster = Cluster(nodes: map<nat, Node>, net: set<Envelope>)

  datatype Event =
    | Broadcast(ip: nat)      // a leader's heartbeat interval elapses
    | Deliver(env: Envelope)  // a sent heartbeat arrives
    | Timeout(ip: nat)        // a follower has heard nothing for `leaderDead`
    | Forge(env: Envelope)    // any other text arrives on the heartbeat port

  function Envelopes(beats: seq<(Host, Beat)>): set<Envelope> {
    set i | 0 <= i < |beats| && beats[i].0.Ip? :: Envelope(beats[i].0.addr, beats[i].1)
  }

  function Sent(n: Node): set<Envelope> {
    Envelopes(BeatsFrom(n.view, n.view.nodes))
  }

  function Receive(c: Cluster, env: Envelope): Cluster {
    if env.to !in c.nodes then c
    else c.(nodes := c.nodes[env.to := OnBeat(c.nodes[env.to], env.beat)])
  }

  function Apply(c: Cluster, e: Event): Cluster {
    match e
    case Broadcast(ip) =>
      if ip in c.nodes && c.nodes[ip].leader then c.(net := c.net + Sent(c.nodes[ip])) else c
    case Deliver(env) =>
      if env in c.net then Receive(c, env) else c
    case Timeout(ip) =>
      if ip !in c.nodes || c.nodes[ip].leader then c
      else
        var n := OnTimeout(c.nodes[ip]);
        Cluster(c.nodes[ip := n], c.net + Sent(n))
    case Forge(env) =>
      Receive(c, env)
  }

  function Run(c: Cluster, events: seq<Event>): Cluster {
    if events == [] then c else Apply(Run(c, events[..|events| - 1]), events[|events| - 1])
  }

  /** Every node that wrote an IP file has booted with the same list of files. */
  function Start(ips: seq<nat>): Cluster {
    Cluster(map ip | ip in ips :: Fresh(ips, ip), {})
  }

  // ---------------------------------------------------------------- every run: leadership is coherent

  predicate AllCoherent(c: Cluster) {
    forall ip :: ip in c.nodes ==> c.nodes[ip].view.self == ip && Coherent(c.nodes[ip])
  }

  lemma CoherentApply(c: Cluster, e: Event)
    requires AllCoherent(c)
    ensures AllCoherent(Apply(c, e)) && Apply(c, e).nodes.Keys == c.nodes.Keys
  {
    hide OnBeat, OnTimeout, Coherent, Sent;
    match e
    case Broadcast(ip) =>
    case Deliver(env) =>
      if env.to in c.nodes { CoherentSteps(c.nodes[env.to], env.beat); }
    case Timeout(ip) =>
      if ip in c.nodes { CoherentSteps(c.nodes[ip], Malformed); }
    case Forge(env) =>
      if env.to in c.nodes { CoherentSteps(c.nodes[env.to], env.beat); }
  }

  /** In every state of every run, whatever heartbeats arrive (lost, repeated, reordered, malformed
      or made up) and whoever times out, no node follows a lower address than its own and a node
      leads exactly when it follows itself. */
  lemma {:induction false} LeadershipCoherent(ips: seq<nat>, events: seq<Event>)
    ensures AllCoherent(Run(Start(ips), events))
    ensures Run(Start(ips), events).nodes.Keys == Members(ips)
  {
    hide Apply;
    if events != [] {
      LeadershipCoherent(ips, events[..|events| - 1]);
      CoherentApply(Run(Start(ips), events[..|events| - 1]), events[|events| - 1]);
    }
  }

  // ---------------------------------------------------------------- runs without a timeout

  predicate Calm(events: seq<Event>) {
    forall i :: 0 <= i < |events| ==> events[i].Broadcast? || events[i].Deliver?
  }

  /** What no calm step changes: membership, ranks and shards. */
  predicate Settled(v: View, ips: seq<nat>, ip: nat) {
    && v == Boot(ips, ip).(leaderIp := v.leaderIp)
    && v.leaderIp in ips
  }

  /** A heartbeat between members that tells the recipient the rank it already has. */
  predicate Genuine(env: Envelope, ips: seq<nat>) {
    && env.to in ips
    && env.beat.Beat? && env.beat.sender.Ip? && env.beat.sender.addr in ips
    && env.beat.rank == LastPlace(ips, env.to) && env.beat.lastRank == |ips|
  }

  predicate AllSettled(c: Cluster, ips: seq<nat>) {
    && c.nodes.Keys == Members(ips)
    && (forall ip :: ip in c.nodes ==> Settled(c.nodes[ip].view, ips, ip) && Coherent(c.nodes[ip]))
    && (forall env :: env in c.net ==> Genuine(env, ips))
  }

  /** A genuine heartbeat changes nothing but the followed leader. */
  lemma GenuineBeat(n: Node, ips: seq<nat>, env: Envelope)
    requires Settled(n.view, ips, env.to) && Coherent(n) && Genuine(env, ips)
    ensures var n' := OnBeat(n, env.beat); var sender := env.beat.sender.addr;
            && Settled(n'.view, ips, env.to) && Coherent(n')
            && n'.view.leaderIp == (if sender > n.view.leaderIp then sender else n.view.leaderIp)
  {
    hide Register, RankOr, ShardsOf, Has;
    Registered(ips, env.beat.sender, 1);
    Registered(ips, Ip(env.to), 1);
  }

  lemma {:induction false} BeatsGenuine(v: View, nodes: seq<Member>, ips: seq<nat>)
    requires v.self in ips && v.lastRank == |ips|
    requires forall m :: m in nodes && m.host.Ip? ==> m.host.addr in ips && m.rank == LastPlace(ips, m.host.addr)
    ensures forall i :: 0 <= i < |BeatsFrom(v, nodes)| && BeatsFrom(v, nodes)[i].0.Ip? ==>
              Genuine(Envelope(BeatsFrom(v, nodes)[i].0.addr, BeatsFrom(v, nodes)[i].1), ips)
  {
    if nodes != [] {
      BeatsGenuine(v, nodes[..|nodes| - 1], ips);
    }
  }

  lemma SentGenuine(n: Node, ips: seq<nat>, ip: nat)
    requires Settled(n.view, ips, ip) && ip in ips
    ensures forall env :: env in Sent(n) ==> Genuine(env, ips)
  {
    hide ShardsOf, Genuine;
    var nodes := n.view.nodes;
    assert nodes == Register(ips);
    forall m | m in nodes && m.host.Ip?
      ensures m.host.addr in ips && m.rank == LastPlace(ips, m.host.addr)
    {
      var i :| 0 <= i < |nodes| && nodes[i] == m;
      Registered(ips, m.host, 1);
      RankAt(nodes, i, 1);
    }
    BeatsGenuine(n.view, nodes, ips);
  }

  lemma SettledApply(c: Cluster, ips: seq<nat>, e: Event)
    requires AllSettled(c, ips) && (e.Broadcast? || e.Deliver?)
    ensures AllSettled(Apply(c, e), ips)
  {
    hide Settled, Genuine, OnBeat, Sent, Coherent;
    match e
    case Broadcast(ip) =>
      if ip in c.nodes { SentGenuine(c.nodes[ip], ips, ip); }
    case Deliver(env) =>
      if env in c.net && env.to in c.nodes { GenuineBeat(c.nodes[env.to], ips, env); }
  }

  lemma SettledStart(ips: seq<nat>)
    ensures AllSettled(Start(ips), ips)
  {
    hide Register, RankOr, ShardsOf;
  }

  lemma {:induction false} CalmSettled(ips: seq<nat>, events: seq<Event>)
    requires Calm(events)
    ensures AllSettled(Run(Start(ips), events), ips)
  {
    hide Apply, AllSettled, Start;
    if events == [] {
      SettledStart(ips);
    } else {
      CalmSettled(ips, events[..|events| - 1]);
      SettledApply(Run(Start(ips), events[..|events| - 1]), ips, events[|events| - 1]);
    }
  }

  // ---------------------------------------------------------------- ownership of the letters

  predicate Owns(c: Cluster, ip: nat, letter: char) {
    ip in c.nodes && letter in c.nodes[ip].view.own
  }

  /** Exactly one node owns the letter. */
  ghost predicate OwnedOnce(c: Cluster, letter: char) {
    exists ip :: Owns(c, ip, letter) && forall other :: Owns(c, other, letter) ==> other == ip
  }

  ghost predicate Partitioned(c: Cluster) {
    forall p :: 0 <= p < TOTAL_LETTERS ==> OwnedOnce(c, ALPHABET[p])
  }

  predicate OneNode(ips: seq<nat>) {
    forall i :: 0 <= i < |ips| ==> ips[i] == ips[0]
  }

  /** No IP file that holds one of the first 26 ranks is repeated later, or all files name one node. */
  predicate Complete(ips: seq<nat>) {
    || OneNode(ips)
    || Unrepeated(ips, TOTAL_LETTERS)
  }

  lemma OneNodeSnoc(init: seq<nat>, x: nat)
    requires init != []
    ensures OneNode(init + [x]) <==> OneNode(init) && x == init[0]
    ensures OneNode(init) ==> (x in init <==> x == init[0])
  {
    var ips := init + [x];
    assert ips[|init|] == x;
    assert forall i :: 0 <= i < |init| ==> ips[i] == init[i];
  }

  lemma {:induction false} MemberCount(ips: seq<nat>)
    requires ips != []
    ensures |Register(ips)| >= 1
    ensures |Register(ips)| == 1 <==> OneNode(ips)
  {
    hide OneNode, Has;
    var init, x := ips[..|ips| - 1], ips[|ips| - 1];
    assert ips == init + [x];
    AssignHas(Register(init), Ip(x), |ips|, Ip(x));
    Registered(init, Ip(x), 1);
    if init != [] {
      MemberCount(init);
      OneNodeSnoc(init, x);
    } else {
      OneNodeAlone(ips);
    }
  }

  lemma OneNodeAlone(ips: seq<nat>)
    requires |ips| == 1
    ensures OneNode(ips) && |Register(ips)| == 1
  {
  }

  /** In a settled cluster of several nodes, a letter is owned by the node whose last file has the
      letter's rank, so by at most one node. */
  lemma SettledOwner(c: Cluster, ips: seq<nat>, ip: nat, p: nat, rank: int)
    requires AllSettled(c, ips) && ip in ips && |Register(ips)| != 1
    requires p < TOTAL_LETTERS && 1 <= rank <= |ips| && InSlice(TOTAL_LETTERS, rank, |ips|, p)
    requires forall r :: 1 <= r <= |ips| && InSlice(TOTAL_LETTERS, r, |ips|, p) ==> r == rank
    ensures Owns(c, ip, ALPHABET[p]) <==> LastPlace(ips, ip) == rank
  {
    hide InSlice, ShardsOf, Register, RankOr, Coherent, Genuine;
    var v := c.nodes[ip].view;
    assert Settled(v, ips, ip);
    Registered(ips, Ip(ip), 1);
    OwnsLetter(|Register(ips)|, v.rank, |ips|, p);
  }

  lemma LetterOwner(c: Cluster, ips: seq<nat>, p: nat, rank: int)
    requires AllSettled(c, ips) && ips != [] && |Register(ips)| != 1
    requires p < TOTAL_LETTERS && 1 <= rank <= |ips| && InSlice(TOTAL_LETTERS, rank, |ips|, p)
    ensures OwnedOnce(c, ALPHABET[p]) <==> LastPlace(ips, ips[rank - 1]) == rank
  {
    hide InSlice, AllSettled, Register, Owns;
    var rank' := Tiling(TOTAL_LETTERS, |ips|, p);
    forall ip | ip in ips
      ensures Owns(c, ip, ALPHABET[p]) <==> LastPlace(ips, ip) == rank
    {
      SettledOwner(c, ips, ip, p, rank);
    }
    forall ip | Owns(c, ip, ALPHABET[p]) ensures ip in ips && ip == ips[rank - 1] {
      OwnersAreMembers(c, ips, ip, ALPHABET[p]);
    }
    assert ips[rank - 1] in ips;
  }

  lemma OwnersAreMembers(c: Cluster, ips: seq<nat>, ip: nat, letter: char)
    requires AllSettled(c, ips) && Owns(c, ip, letter)
    ensures ip in ips
  {
  }

  lemma SoleOwner(c: Cluster, ips: seq<nat>, p: nat)
    requires AllSettled(c, ips) && ips != [] && p < TOTAL_LETTERS
    requires OneNode(ips)
    ensures OwnedOnce(c, ALPHABET[p])
  {
    hide Coherent, Genuine, RankOr, Register;
    MemberCount(ips);
    assert Settled(c.nodes[ips[0]].view, ips, ips[0]);
    assert ALPHABET[p] in Letters(ALPHABET);
    assert Owns(c, ips[0], ALPHABET[p]);
  }

  /** For any list of IP files and any calm run, every letter is owned by exactly one node in every
      reachable state, exactly when the list is complete. */
  lemma OwnershipPartition(ips: seq<nat>, events: seq<Event>)
    requires Calm(events) && ips != []
    ensures Partitioned(Run(Start(ips), events)) <==> Complete(ips)
  {
    hide AllSettled, Run, Start, OwnedOnce, InSlice, Register;
    var c := Run(Start(ips), events);
    CalmSettled(ips, events);
    MemberCount(ips);
    if OneNode(ips) {
      forall p | 0 <= p < TOTAL_LETTERS ensures OwnedOnce(c, ALPHABET[p]) { SoleOwner(c, ips, p); }
    } else if Complete(ips) {
      CompletePartition(c, ips);
    } else {
      var i, j :| 0 <= i < j < |ips| && i < TOTAL_LETTERS && ips[i] == ips[j];
      DroppedRank(c, ips, i, j);
    }
  }

  lemma CompletePartition(c: Cluster, ips: seq<nat>)
    requires AllSettled(c, ips) && ips != [] && |Register(ips)| != 1
    requires Unrepeated(ips, TOTAL_LETTERS)
    ensures Partitioned(c)
  {
    hide AllSettled, OwnedOnce, Register;
    forall p | 0 <= p < TOTAL_LETTERS ensures OwnedOnce(c, ALPHABET[p]) {
      var rank := Tiling(TOTAL_LETTERS, |ips|, p);
      NonEmptySlice(TOTAL_LETTERS, rank, |ips|);
      LetterOwner(c, ips, p, rank);
    }
  }

  /** A rank whose IP file is repeated later leaves its first letter without an owner. */
  lemma DroppedRank(c: Cluster, ips: seq<nat>, i: nat, j: nat)
    requires AllSettled(c, ips) && |Register(ips)| != 1
    requires i < j < |ips| && i < TOTAL_LETTERS && ips[i] == ips[j]
    ensures !Partitioned(c)
  {
    hide AllSettled, OwnedOnce, Register, SliceStart, SliceSize;
    var rank := i + 1;
    var p := SliceStart(TOTAL_LETTERS, rank, |ips|);
    NonEmptySlice(TOTAL_LETTERS, rank, |ips|);
    SliceEnds(TOTAL_LETTERS, rank, |ips|);
    StartsMonotone(TOTAL_LETTERS, 1, rank, |ips|);
    StartsMonotone(TOTAL_LETTERS, rank + 1, |ips| + 1, |ips|);
    assert InSlice(TOTAL_LETTERS, rank, |ips|, p);
    LetterOwner(c, ips, p, rank);
  }

  // ---------------------------------------------------------------- what a timeout does to ownership

  predicate OwnsLetters(n: Node) {
    forall letter :: letter in n.view.own ==> exists p :: 0 <= p < TOTAL_LETTERS && ALPHABET[p] == letter
  }

  /** A timeout keeps a partition exactly when it leaves the node's own shards alone: a letter the node
      loses has no owner any more, and a letter it gains has two. */
  lemma TimeoutStep(c: Cluster, ip: nat)
    requires Partitioned(c) && ip in c.nodes && !c.nodes[ip].leader
    requires OwnsLetters(c.nodes[ip]) && OwnsLetters(OnTimeout(c.nodes[ip]))
    ensures Partitioned(Apply(c, Timeout(ip))) <==> OnTimeout(c.nodes[ip]).view.own == c.nodes[ip].view.own
  {
    hide OnTimeout, Sent;
    var c', own, own' := Apply(c, Timeout(ip)), c.nodes[ip].view.own, OnTimeout(c.nodes[ip]).view.own;
    assert forall other, letter :: other != ip ==> (Owns(c', other, letter) <==> Owns(c, other, letter));
    if own' == own {
      assert forall other, letter :: Owns(c', other, letter) <==> Owns(c, other, letter);
      forall p | 0 <= p < TOTAL_LETTERS ensures OwnedOnce(c', ALPHABET[p]) {
        assert OwnedOnce(c, ALPHABET[p]);
      }
    } else {
      var letter :| letter in own <==> letter !in own';
      var p :| 0 <= p < TOTAL_LETTERS && ALPHABET[p] == letter;
      assert OwnedOnce(c, ALPHABET[p]);
      assert Owns(c, ip, letter) <==> !Owns(c', ip, letter);
      assert !OwnedOnce(c', ALPHABET[p]);
    }
  }

  lemma ShardsAreLetters(n: Node, count: int, rank: int, last: int)
    requires n.view.own == ShardsOf(count, rank, last)
    ensures OwnsLetters(n)
  {
    hide ShardsOf;
    forall letter | letter in n.view.own ensures exists p :: 0 <= p < TOTAL_LETTERS && ALPHABET[p] == letter {
      OnlyLetters(count, rank, last, letter);
    }
  }

  /** A follower of a settled cluster without repeated ranks owns the slice of its place in the list. */
  lemma FollowerShards(n: Node, ips: seq<nat>, ip: nat)
    requires Settled(n.view, ips, ip) && ip in ips && Unrepeated(ips, TOTAL_LETTERS) && |Register(ips)| != 1
    ensures var m, place := |n.view.nodes|, Place(n.view.nodes, Ip(ip));
            && 1 <= place <= m && n.view.own == ShardsOf(m, place, m)
  {
    hide Register, ShardsOf, RankOr, SameSlice;
    var k := if |ips| < TOTAL_LETTERS then |ips| else TOTAL_LETTERS;
    PlaceOfFile(ips, k, ip);
    UnrepeatedPlaces(ips, k);
    Registered(ips, Ip(ip), 1);
    var m, place, rank := |n.view.nodes|, Place(n.view.nodes, Ip(ip)), LastPlace(ips, ip);
    if |ips| > TOTAL_LETTERS {
      CrowdedSlice(rank, |ips|, place, m);
      ShardsEqual(m, rank, |ips|, m, place, m);
    }
  }

  /** What a timeout of a settled follower does to its shards. */
  lemma TimeoutKeepsShards(n: Node, ips: seq<nat>, ip: nat)
    requires Settled(n.view, ips, ip) && Coherent(n) && !n.leader && ip in ips && Unrepeated(ips, TOTAL_LETTERS)
    ensures OwnsLetters(n) && OwnsLetters(OnTimeout(n))
    ensures OnTimeout(n).view.own == n.view.own
       <==> KeepsSlice(TOTAL_LETTERS, Place(n.view.nodes, Ip(ip)), Place(n.view.nodes, Ip(n.view.leaderIp)),
                       |n.view.nodes|)
  {
    hide Register, ShardsOf, RankOr, SameSlice, KeepsSlice, OnTimeout, OwnsLetters, Has, Unrepeated;
    var nodes, leader := n.view.nodes, n.view.leaderIp;
    var m, place, ahead := |nodes|, Place(nodes, Ip(ip)), Place(nodes, Ip(leader));
    Registered(ips, Ip(ip), 1);
    Registered(ips, Ip(leader), 1);
    PlaceHas(nodes, Ip(ip));
    PlaceHas(nodes, Ip(leader));
    FollowerShards(n, ips, ip);
    TimeoutShards(n);
    ShardsAreLetters(n, m, place, m);
    ShardsAreLetters(OnTimeout(n), m - 1, RankWithout(place, ahead), m - 1);
    ShardsEqual(m, place, m, m - 1, RankWithout(place, ahead), m - 1);
    KeepsExactly(TOTAL_LETTERS, place, ahead, m);
  }

  lemma RunSnoc(c: Cluster, events: seq<Event>, e: Event)
    ensures Run(c, events + [e]) == Apply(Run(c, events), e)
  {
    assert (events + [e])[..|events|] == events;
  }

  /** After any calm run over a complete list, a timeout of a node keeps the partition exactly when the node
      leads (and so does not time out) or its slice survives the removal of its leader. The condition reads
      off the node's own list: its place, its leader's place, and the length. */
  lemma TimeoutPartition(ips: seq<nat>, events: seq<Event>, ip: nat)
    requires Calm(events) && Complete(ips) && ip in ips
    ensures ip in Run(Start(ips), events).nodes
    ensures var n := Run(Start(ips), events).nodes[ip];
            Partitioned(Run(Start(ips), events + [Timeout(ip)]))
            <==> n.leader || KeepsSlice(TOTAL_LETTERS, Place(n.view.nodes, Ip(ip)),
                                        Place(n.view.nodes, Ip(n.view.leaderIp)), |n.view.nodes|)
  {
    hide Run, Start, KeepsSlice, Partitioned, Settled, Coherent, Genuine, OnTimeout, Sent, Unrepeated;
    var c := Run(Start(ips), events);
    CalmSettled(ips, events);
    OwnershipPartition(ips, events);
    RunSnoc(Start(ips), events, Timeout(ip));
    var n := c.nodes[ip];
    if !n.leader {
      FollowerListed(n, ips, ip);
      TimeoutKeepsShards(n, ips, ip);
      TimeoutStep(c, ip);
    }
  }

  lemma FollowerListed(n: Node, ips: seq<nat>, ip: nat)
    requires Settled(n.view, ips, ip) && Coherent(n) && !n.leader && ip in ips && Complete(ips)
    ensures Unrepeated(ips, TOTAL_LETTERS)
  {
    hide Register, RankOr, ShardsOf;
  }

  // ---------------------------------------------------------------- distinct addresses

  predicate AllDistinct(ips: seq<nat>) {
    forall i, j :: 0 <= i < j < |ips| ==> ips[i] != ips[j]
  }

  lemma DistinctComplete(ips: seq<nat>)
    requires AllDistinct(ips)
    ensures Complete(ips) && Unrepeated(ips, |ips|)
  {
  }

  /** With distinct addresses, as the discovery step intends, every calm run keeps the partition, and a
      timeout then keeps it exactly when the node's slice survives, read off its rank, its leader's rank
      and the number of nodes. */
  lemma DistinctOwnership(ips: seq<nat>, events: seq<Event>, ip: nat)
    requires Calm(events) && AllDistinct(ips) && ip in ips
    ensures Partitioned(Run(Start(ips), events)) && ip in Run(Start(ips), events).nodes
    ensures var n := Run(Start(ips), events).nodes[ip];
            Partitioned(Run(Start(ips), events + [Timeout(ip)]))
            <==> n.leader || KeepsSlice(TOTAL_LETTERS, n.view.rank, LastPlace(ips, n.view.leaderIp), |ips|)
  {
    hide Run, Start, KeepsSlice, Partitioned, Genuine, Coherent, Settled, Complete, AllDistinct;
    DistinctComplete(ips);
    OwnershipPartition(ips, events);
    TimeoutPartition(ips, events, ip);
    CalmSettled(ips, events);
    DistinctRanks(Run(Start(ips), events).nodes[ip].view, ips, ip);
  }

  lemma DistinctRanks(v: View, ips: seq<nat>, ip: nat)
    requires Settled(v, ips, ip) && AllDistinct(ips) && ip in ips
    ensures v.rank == Place(v.nodes, Ip(ip)) && |v.nodes| == |ips|
    ensures LastPlace(ips, v.leaderIp) == Place(v.nodes, Ip(v.leaderIp))
  {
    hide Register, RankOr, ShardsOf, AllDistinct, Unrepeated;
    DistinctComplete(ips);
    Registered(ips, Ip(ip), 1);
    UnrepeatedPlaces(ips, |ips|);
    PlaceOfFile(ips, |ips|, ip);
    PlaceOfFile(ips, |ips|, v.leaderIp);
  }

  /** In a cluster of two, every timeout of a follower breaks the partition. */
  lemma TimeoutOfTwo(a: nat, b: nat, events: seq<Event>, ip: nat)
    requires Calm(events) && a != b && ip in [a, b]
    ensures ip in Run(Start([a, b]), events).nodes
    ensures !Run(Start([a, b]), events).nodes[ip].leader ==> !Partitioned(Run(Start([a, b]), events + [Timeout(ip)]))
  {
    hide Run, Start, Partitioned;
    DistinctOwnership([a, b], events, ip);
  }

  /** That does happen: one heartbeat of the higher node, and then silence. */
  lemma TimeoutBreaksPartition(a: nat, b: nat)
    requires a < b
    ensures var beat := Envelope(a, Beat(Ip(b), 1, 2));
            !Partitioned(Run(Start([a, b]), [Broadcast(b), Deliver(beat), Timeout(a)]))
  {
    hide Run, Start, Partitioned, Heard;
    var ips, beat := [a, b], Deliver(Envelope(a, Beat(Ip(b), 1, 2)));
    var events := [Broadcast(b), beat];
    BeatArrives(a, b);
    assert events[..1] == [Broadcast(b)];
    FollowsHighest(ips, events, a, b);
    LeadershipCoherent(ips, events);
    assert Coherent(Run(Start(ips), events).nodes[a]);
    TimeoutOfTwo(a, b, events, a);
    assert events + [Timeout(a)] == [Broadcast(b), beat, Timeout(a)];
  }

  lemma BeatArrives(a: nat, b: nat)
    requires a < b
    ensures Heard(Run(Start([a, b]), [Broadcast(b)]), Deliver(Envelope(a, Beat(Ip(b), 1, 2))), a, b)
  {
    hide Register, ShardsOf;
    var v := Boot([a, b], b);
    assert [a, b][0] == a && [a, b][1] == b;
    UnrepeatedPlaces([a, b], 2);
    RanksOfTwo(a, b);
    BeatsReach(v, v.nodes, Ip(a), 1);
    RunSnoc(Start([a, b]), [], Broadcast(b));
    assert [] + [Broadcast(b)] == [Broadcast(b)];
  }

  lemma RanksOfTwo(a: nat, b: nat)
    requires a < b
    ensures Member(Ip(a), 1) in Register([a, b])
  {
    var nodes := Register([a, b]);
    UnrepeatedPlaces([a, b], 2);
    Registered([a, b], Ip(a), 1);
    RankAt(nodes, 0, 1);
    assert LastPlace([a, b], a) == 1;
    assert nodes[0] == Member(Ip(a), 1);
  }

  // ---------------------------------------------------------------- shards after every step, and after a promotion

  predicate AllConsistent(c: Cluster) {
    forall ip :: ip in c.nodes ==> Consistent(c.nodes[ip].view)
  }

  lemma ConsistentApply(c: Cluster, e: Event)
    requires AllConsistent(c)
    ensures AllConsistent(Apply(c, e))
  {
    hide OnBeat, OnTimeout, Consistent, Sent;
    match e
    case Broadcast(ip) =>
    case Deliver(env) =>
      if env.to in c.nodes { ConsistentSteps(c.nodes[env.to], env.beat); }
    case Timeout(ip) =>
      if ip in c.nodes { ConsistentSteps(c.nodes[ip], Malformed); }
    case Forge(env) =>
      if env.to in c.nodes { ConsistentSteps(c.nodes[env.to], env.beat); }
  }

  /** In every state of every run, made-up heartbeats and timeouts included, each node owns the slice of the rank
      and the last rank it was told. */
  lemma {:induction false} ShardsFollowRanks(ips: seq<nat>, events: seq<Event>)
    ensures AllConsistent(Run(Start(ips), events))
  {
    hide Apply, Consistent;
    if events == [] {
      forall ip | ip in ips ensures Consistent(Start(ips).nodes[ip].view) { ConsistentBoot(ips, ip); }
    } else {
      ShardsFollowRanks(ips, events[..|events| - 1]);
      ConsistentApply(Run(Start(ips), events[..|events| - 1]), events[|events| - 1]);
    }
  }

  /** The first heartbeat of a stranger makes it the last member, ranked behind all IP files. */
  lemma StrangerJoinsLast(ips: seq<nat>, events: seq<Event>, ip: nat, b: Beat)
    requires Calm(events) && ip in ips && b.Beat? && !(b.sender.Ip? && b.sender.addr in ips)
    ensures ip in Run(Start(ips), events + [Forge(Envelope(ip, b))]).nodes
    ensures var n := Run(Start(ips), events + [Forge(Envelope(ip, b))]).nodes[ip];
            n.view.nodes == Register(ips) + [Member(b.sender, |ips| + 1)] && n.followerCount == |Register(ips)|
  {
    hide Run, Start, Register, Genuine, Coherent, OnBeat, Has, ShardsOf, RankOr;
    CalmSettled(ips, events);
    RunSnoc(Start(ips), events, Forge(Envelope(ip, b)));
    var n := Run(Start(ips), events).nodes[ip];
    Registered(ips, b.sender, 1);
    BeatRegisters(n, b);
  }

  /** What a node sends: to each member but itself, that member's rank. */
  lemma SentExact(n: Node, env: Envelope)
    requires env in Sent(n)
    ensures env.beat.Beat? && env.beat.sender == Ip(n.view.self) && env.beat.lastRank == n.view.lastRank
    ensures Member(Ip(env.to), env.beat.rank) in n.view.nodes && env.to != n.view.self
  {
    var beats := BeatsFrom(n.view, n.view.nodes);
    hide BeatsFrom;
    var i :| 0 <= i < |beats| && beats[i].0.Ip? && env == Envelope(beats[i].0.addr, beats[i].1);
    assert beats[i] in beats;
    BeatsReach(n.view, n.view.nodes, Ip(env.to), 0);
    BeatsReach(n.view, n.view.nodes, Ip(env.to), env.beat.rank);
  }

  /** A promoted node's list, and the rank it tells each survivor. */
  lemma PromotedBeat(n: Node, env: Envelope)
    requires !n.leader && Distinct(n.view.nodes) && Has(n.view.nodes, Ip(n.view.leaderIp))
    requires env in Sent(OnTimeout(n))
    ensures var kept := Delete(n.view.nodes, Ip(n.view.leaderIp));
            && env.beat == Beat(Ip(n.view.self), Place(kept, Ip(env.to)), |kept|)
            && env.to != n.view.self && Has(kept, Ip(env.to))
  {
    var kept := Delete(n.view.nodes, Ip(n.view.leaderIp));
    hide Delete, ShardsOf, RankOr, Sent, Has;
    assert OnTimeout(n).view.nodes == Renumber(kept) && OnTimeout(n).view.lastRank == |kept|;
    SentExact(OnTimeout(n), env);
    DeleteDistinct(n.view.nodes, Ip(n.view.leaderIp));
    var m := Member(Ip(env.to), env.beat.rank);
    var j :| 0 <= j < |kept| && Renumber(kept)[j] == m;
    PlaceIs(kept, j);
    PlaceHas(kept, Ip(env.to));
  }

  /** After the timeout, nothing reaches a survivor but heartbeats of the promoted node. */
  predicate Spreads(more: seq<Event>, promoted: Node, dead: nat) {
    forall i :: 0 <= i < |more| ==>
      more[i].Broadcast? || (more[i].Deliver? && (more[i].env.to == dead || more[i].env in Sent(promoted)))
  }

  predicate Reached(more: seq<Event>, x: nat) {
    exists i :: 0 <= i < |more| && more[i].Deliver? && more[i].env.to == x
  }

  /** A survivor while the promoted node's heartbeats spread. */
  predicate Survivor(v: View, ips: seq<nat>, kept: seq<Member>, x: nat, reached: bool) {
    && v.nodes == Register(ips) && v.nodeCount == |Register(ips)| && Consistent(v)
    && (reached ==> v.rank == Place(kept, Ip(x)) && v.lastRank == |kept|)
  }

  predicate Spreading(d: Cluster, ips: seq<nat>, n: Node, more: seq<Event>) {
    var ip, dead, kept := n.view.self, n.view.leaderIp, Delete(n.view.nodes, Ip(n.view.leaderIp));
    && d.nodes.Keys == Members(ips) && ip in d.nodes && d.nodes[ip] == OnTimeout(n)
    && Sent(OnTimeout(n)) <= d.net
    && forall x :: x in d.nodes && x != ip && x != dead ==> Survivor(d.nodes[x].view, ips, kept, x, Reached(more, x))
  }

  /** A follower of a calm cluster before it times out. */
  predicate Follower(n: Node, ips: seq<nat>, ip: nat) {
    Settled(n.view, ips, ip) && Coherent(n) && !n.leader && ip in ips
  }

  lemma FollowerFacts(n: Node, ips: seq<nat>, ip: nat)
    requires Follower(n, ips, ip)
    ensures n.view.nodes == Register(ips) && Distinct(n.view.nodes) && n.view.self == ip && n.view.leaderIp != ip
    ensures Has(n.view.nodes, Ip(n.view.leaderIp)) && Has(n.view.nodes, Ip(ip))
  {
    hide Register, RankOr, ShardsOf, Has;
    Registered(ips, Ip(ip), 1);
    Registered(ips, Ip(n.view.leaderIp), 1);
  }

  lemma ReachedSnoc(more: seq<Event>, e: Event, x: nat)
    ensures Reached(more + [e], x) <==> Reached(more, x) || (e.Deliver? && e.env.to == x)
  {
    var all := more + [e];
    assert all[|more|] == e;
    if Reached(more, x) {
      var i :| 0 <= i < |more| && more[i].Deliver? && more[i].env.to == x;
      assert all[i] == more[i];
    }
  }

  lemma SurvivorBeat(n: Node, m: Node, ips: seq<nat>, env: Envelope, reached: bool)
    requires Follower(n, ips, n.view.self) && env in Sent(OnTimeout(n))
    requires Survivor(m.view, ips, Delete(n.view.nodes, Ip(n.view.leaderIp)), env.to, reached)
    ensures Survivor(OnBeat(m, env.beat).view, ips, Delete(n.view.nodes, Ip(n.view.leaderIp)), env.to, true)
  {
    hide Register, Sent, OnTimeout, OnBeat, Consistent, Settled, Coherent, Delete, Has;
    FollowerFacts(n, ips, n.view.self);
    PromotedBeat(n, env);
    BeatRegisters(m, env.beat);
    ConsistentSteps(m, env.beat);
    BeatAssigns(m, n.view.self, env.beat.rank, env.beat.lastRank, 0);
  }

  lemma SpreadStep(d: Cluster, ips: seq<nat>, n: Node, more: seq<Event>, e: Event)
    requires Follower(n, ips, n.view.self) && Spreading(d, ips, n, more)
    requires e.Broadcast? || (e.Deliver? && (e.env.to == n.view.leaderIp || e.env in Sent(OnTimeout(n))))
    ensures Spreading(Apply(d, e), ips, n, more + [e])
  {
    hide Follower, Sent, OnTimeout, OnBeat, Survivor, Delete, Reached, Has, Register;
    FollowerFacts(n, ips, n.view.self);
    forall x ensures Reached(more + [e], x) <==> Reached(more, x) || (e.Deliver? && e.env.to == x) {
      ReachedSnoc(more, e, x);
    }
    if e.Deliver? && e.env in d.net && e.env.to in d.nodes && e.env.to != n.view.leaderIp {
      NotToSelf(n, ips, e.env);
      SurvivorBeat(n, d.nodes[e.env.to], ips, e.env, Reached(more, e.env.to));
    }
  }

  lemma NotToSelf(n: Node, ips: seq<nat>, env: Envelope)
    requires Follower(n, ips, n.view.self) && env in Sent(OnTimeout(n))
    ensures env.to != n.view.self
  {
    hide Sent, OnTimeout, Settled, Coherent, Register;
    FollowerFacts(n, ips, n.view.self);
    PromotedBeat(n, env);
  }

  lemma {:induction false} SpreadRun(d: Cluster, ips: seq<nat>, n: Node, more: seq<Event>)
    requires Follower(n, ips, n.view.self) && Spreading(d, ips, n, []) && Spreads(more, OnTimeout(n), n.view.leaderIp)
    ensures Spreading(Run(d, more), ips, n, more)
  {
    hide Follower, Spreading, Apply, Sent, OnTimeout;
    if more != [] {
      var init, e := more[..|more| - 1], more[|more| - 1];
      assert more == init + [e];
      SpreadRun(d, ips, n, init);
      SpreadStep(Run(d, init), ips, n, init, e);
    }
  }

  /** Among the survivors, a letter belongs to the one whose place without the dead leader has its rank. */
  lemma SurvivorOwner(d: Cluster, ips: seq<nat>, n: Node, more: seq<Event>, x: nat, p: nat)
    requires Follower(n, ips, n.view.self) && Spreading(d, ips, n, more)
    requires x in ips && x != n.view.leaderIp && (x != n.view.self ==> Reached(more, x)) && p < TOTAL_LETTERS
    ensures var kept := Delete(n.view.nodes, Ip(n.view.leaderIp));
            && 1 <= Place(kept, Ip(x)) <= |kept|
            && (Owns(d, x, ALPHABET[p]) <==> InSlice(TOTAL_LETTERS, Place(kept, Ip(x)), |kept|, p))
  {
    hide Register, Sent, OnTimeout, Settled, Coherent, Delete, Has, InSlice, ShardsOf, Reached;
    var dead, kept := Ip(n.view.leaderIp), Delete(n.view.nodes, Ip(n.view.leaderIp));
    FollowerFacts(n, ips, n.view.self);
    Registered(ips, Ip(x), 1);
    DeletePlaces(n.view.nodes, dead, Ip(x));
    DeleteDistinct(n.view.nodes, dead);
    PlaceHas(n.view.nodes, Ip(x));
    PlaceHas(n.view.nodes, dead);
    if x == n.view.self {
      TimeoutShards(n);
      OwnsLetter(|kept|, Place(kept, Ip(x)), |kept|, p);
    } else {
      assert Survivor(d.nodes[x].view, ips, kept, x, true);
      OwnsLetter(|Register(ips)|, Place(kept, Ip(x)), |kept|, p);
    }
  }

  /** The survivors' partition is restored: after any calm run and the timeout of a follower, once the promoted
      node's heartbeats, and no others, have reached every other node but the dead leader, each letter has
      exactly one owner among the survivors. */
  lemma PromotionRestores(ips: seq<nat>, events: seq<Event>, ip: nat, more: seq<Event>, p: nat)
    requires Calm(events) && ip in ips && p < TOTAL_LETTERS
    requires ip in Run(Start(ips), events).nodes && !Run(Start(ips), events).nodes[ip].leader
    requires var n := Run(Start(ips), events).nodes[ip];
             && Spreads(more, OnTimeout(n), n.view.leaderIp)
             && forall x :: x in ips && x != ip && x != n.view.leaderIp ==> Reached(more, x)
    ensures var dead := Run(Start(ips), events).nodes[ip].view.leaderIp;
            var d := Run(Start(ips), events + [Timeout(ip)] + more);
            exists x :: x in ips && x != dead && Owns(d, x, ALPHABET[p])
                        && forall y :: y != dead && Owns(d, y, ALPHABET[p]) ==> y == x
  {
    hide Run, Start, Spreads, OnTimeout, Sent, Coherent, Settled, Genuine, Register, Delete, InSlice, Reached, Owns, Spreading;
    var c := Run(Start(ips), events);
    var n := c.nodes[ip];
    CalmSettled(ips, events);
    FollowerFacts(n, ips, ip);
    RunSnoc(Start(ips), events, Timeout(ip));
    var c1 := Run(Start(ips), events + [Timeout(ip)]);
    SpreadingStart(c, ips, ip);
    SpreadRun(c1, ips, n, more);
    RunConcat(Start(ips), events + [Timeout(ip)], more);
    var d, dead, kept := Run(c1, more), n.view.leaderIp, Delete(n.view.nodes, Ip(n.view.leaderIp));
    SurvivorList(n, ips, ip);
    var r := Tiling(TOTAL_LETTERS, |kept|, p);
    var x := kept[r - 1].host.addr;
    PlaceIs(kept, r - 1);
    SurvivorOwner(d, ips, n, more, x, p);
    forall y | y != dead && Owns(d, y, ALPHABET[p]) ensures y == x {
      SpreadMembers(d, ips, n, more, y, ALPHABET[p]);
      SurvivorOwner(d, ips, n, more, y, p);
    }
  }

  lemma SpreadMembers(d: Cluster, ips: seq<nat>, n: Node, more: seq<Event>, y: nat, letter: char)
    requires Spreading(d, ips, n, more) && Owns(d, y, letter)
    ensures y in ips
  {
    hide OnTimeout, Sent, Survivor;
  }

  /** The survivors are the members of the shortened list. */
  lemma SurvivorList(n: Node, ips: seq<nat>, ip: nat)
    requires Follower(n, ips, ip)
    ensures var kept := Delete(n.view.nodes, Ip(n.view.leaderIp));
            && |kept| >= 1 && Distinct(kept)
            && forall i :: 0 <= i < |kept| ==>
                 kept[i].host.Ip? && kept[i].host.addr in ips && kept[i].host.addr != n.view.leaderIp
  {
    hide Register, Settled, Coherent, Delete, Has;
    FollowerFacts(n, ips, ip);
    var dead, kept := Ip(n.view.leaderIp), Delete(n.view.nodes, Ip(n.view.leaderIp));
    DeleteDistinct(n.view.nodes, dead);
    forall i | 0 <= i < |kept|
      ensures kept[i].host.Ip? && kept[i].host.addr in ips && kept[i].host.addr != n.view.leaderIp
    {
      DeleteKeeps(n.view.nodes, dead, kept[i]);
      PlaceHas(n.view.nodes, kept[i].host);
      Registered(ips, kept[i].host, 1);
      HasMember(n.view.nodes, kept[i]);
    }
    TwoListed(n.view.nodes, dead, Ip(ip));
  }

  lemma HasMember(nodes: seq<Member>, m: Member)
    requires m in nodes
    ensures Has(nodes, m.host)
  {
  }

  lemma TwoListed(nodes: seq<Member>, h: Host, g: Host)
    requires Has(nodes, h) && Has(nodes, g) && h != g
    ensures |nodes| >= 2
  {
  }

  lemma SpreadingStart(c: Cluster, ips: seq<nat>, ip: nat)
    requires AllSettled(c, ips) && ip in c.nodes && Follower(c.nodes[ip], ips, ip)
    ensures Spreading(Apply(c, Timeout(ip)), ips, c.nodes[ip], [])
  {
    hide Register, Sent, OnTimeout, Coherent, Delete, RankOr, ShardsOf, Genuine;
    FollowerFacts(c.nodes[ip], ips, ip);
  }

  lemma {:induction false} RunConcat(c: Cluster, a: seq<Event>, b: seq<Event>)
    ensures Run(c, a + b) == Run(Run(c, a), b)
  {
    hide Apply;
    if b == [] {
      assert a + b == a;
    } else {
      assert (a + b)[..|a + b| - 1] == a + b[..|b| - 1];
      RunConcat(c, a, b[..|b| - 1]);
    }
  }

  // ---------------------------------------------------------------- stability of leadership

  predicate Highest(ips: seq<nat>, top: nat) {
    top in ips && forall ip :: ip in ips ==> ip <= top
  }

  predicate Heard(c: Cluster, e: Event, ip: nat, top: nat) {
    e.Deliver? && e.env in c.net && e.env.to == ip && e.env.beat.Beat? && e.env.beat.sender == Ip(top)
  }

  lemma LeaderStep(c: Cluster, ips: seq<nat>, e: Event, ip: nat)
    requires AllSettled(c, ips) && (e.Broadcast? || e.Deliver?) && ip in c.nodes
    ensures ip in Apply(c, e).nodes
    ensures var old', new' := c.nodes[ip].view.leaderIp, Apply(c, e).nodes[ip].view.leaderIp;
            && old' <= new' && new' in ips
            && (new' != old' ==> e.Deliver? && e.env in c.net && e.env.to == ip)
            && (forall top :: Heard(c, e, ip, top) && Highest(ips, top) ==> new' == top)
  {
    hide Settled, Genuine, OnBeat, Sent, Coherent;
    SettledApply(c, ips, e);
    LeadersListed(c, ips);
    LeadersListed(Apply(c, e), ips);
    if e.Deliver? && e.env in c.net && e.env.to in c.nodes {
      GenuineBeat(c.nodes[e.env.to], ips, e.env);
    }
  }

  lemma LeadersListed(c: Cluster, ips: seq<nat>)
    requires AllSettled(c, ips)
    ensures forall ip :: ip in c.nodes ==> c.nodes[ip].view.leaderIp in ips
  {
  }

  /** Once a node has processed a heartbeat of the highest node, it follows it for the rest of the
      calm run; the highest node itself never follows anyone else. */
  lemma {:induction false} FollowsHighest(ips: seq<nat>, events: seq<Event>, ip: nat, top: nat)
    requires Calm(events) && Highest(ips, top) && ip in ips
    requires ip == top || exists i :: 0 <= i < |events| && Heard(Run(Start(ips), events[..i]), events[i], ip, top)
    ensures ip in Run(Start(ips), events).nodes
    ensures Run(Start(ips), events).nodes[ip].view.leaderIp == top
  {
    hide Apply, Heard, AllSettled;
    CalmSettled(ips, events);
    if events != [] {
      var init, last := events[..|events| - 1], events[|events| - 1];
      var c := Run(Start(ips), init);
      CalmSettled(ips, init);
      MembersPresent(c, ips, ip);
      LeaderStep(c, ips, last, ip);
      if ip != top {
        var i :| 0 <= i < |events| && Heard(Run(Start(ips), events[..i]), events[i], ip, top);
        if i < |init| {
          assert init[..i] == events[..i] && init[i] == events[i];
          FollowsHighest(ips, init, ip, top);
        }
      } else {
        FollowsHighest(ips, init, ip, top);
      }
    }
  }

  lemma MembersPresent(c: Cluster, ips: seq<nat>, ip: nat)
    requires AllSettled(c, ips) && ip in ips
    ensures ip in c.nodes
  {
  }

  /** In a calm run the highest node always leads, and once every other node has processed one of
      its heartbeats it is the only leader. */
  lemma OnlyHighestLeads(ips: seq<nat>, events: seq<Event>, top: nat)
    requires Calm(events) && Highest(ips, top)
    ensures var c := Run(Start(ips), events);
            && top in c.nodes && c.nodes[top].leader
            && ((forall ip :: ip in ips && ip != top ==>
                   exists i :: 0 <= i < |events| && Heard(Run(Start(ips), events[..i]), events[i], ip, top)) ==>
                forall ip :: ip in c.nodes && c.nodes[ip].leader ==> ip == top)
  {
    hide Run, Start, Heard;
    var c := Run(Start(ips), events);
    LeadershipCoherent(ips, events);
    FollowsHighest(ips, events, top, top);
    assert Coherent(c.nodes[top]);
    if forall ip :: ip in ips && ip != top ==>
         exists i :: 0 <= i < |events| && Heard(Run(Start(ips), events[..i]), events[i], ip, top)
    {
      forall ip | ip in c.nodes && c.nodes[ip].leader ensures ip == top {
        FollowsHighest(ips, events, ip, top);
        assert Coherent(c.nodes[ip]);
      }
    }
  }

  // ---------------------------------------------------------------- how often leadership changes

  /** How many of the listed addresses lie above x. */
  function Above(ips: seq<nat>, x: nat): nat {
    if ips == [] then 0
    else Above(ips[..|ips| - 1], x) + (if ips[|ips| - 1] > x then 1 else 0)
  }

  /** Upgrades still possible for the nodes in `some`. */
  function Slack(c: Cluster, ips: seq<nat>, some: seq<nat>): nat
    requires forall ip :: ip in some ==> ip in c.nodes
  {
    if some == [] then 0
    else Slack(c, ips, some[..|some| - 1]) + Above(ips, c.nodes[some[|some| - 1]].view.leaderIp)
  }

  predicate LeadershipMoved(c: Cluster, c': Cluster) {
    exists ip :: ip in c.nodes && ip in c'.nodes && c.nodes[ip].view.leaderIp != c'.nodes[ip].view.leaderIp
  }

  /** How many steps of the run changed some node's leader. */
  function Changes(c: Cluster, events: seq<Event>): nat {
    if events == [] then 0
    else
      var init := events[..|events| - 1];
      Changes(c, init) + (if LeadershipMoved(Run(c, init), Run(c, events)) then 1 else 0)
  }

  lemma {:induction false} AboveDecreases(ips: seq<nat>, x: nat, y: nat)
    requires x <= y
    ensures Above(ips, y) <= Above(ips, x)
    ensures x < y && y in ips ==> Above(ips, y) < Above(ips, x)
  {
    if ips != [] {
      AboveDecreases(ips[..|ips| - 1], x, y);
      assert ips == ips[..|ips| - 1] + [ips[|ips| - 1]];
    }
  }

  lemma {:induction false} SlackDecreases(c: Cluster, c': Cluster, ips: seq<nat>, some: seq<nat>)
    requires forall ip :: ip in some ==> ip in c.nodes && ip in c'.nodes
    requires forall ip :: ip in some ==> c.nodes[ip].view.leaderIp <= c'.nodes[ip].view.leaderIp
    requires forall ip :: ip in some ==> c'.nodes[ip].view.leaderIp in ips
    ensures Slack(c', ips, some) <= Slack(c, ips, some)
    ensures (exists ip :: ip in some && c.nodes[ip].view.leaderIp != c'.nodes[ip].view.leaderIp) ==>
              Slack(c', ips, some) < Slack(c, ips, some)
  {
    if some != [] {
      var init, x := some[..|some| - 1], some[|some| - 1];
      assert some == init + [x];
      SlackDecreases(c, c', ips, init);
      AboveDecreases(ips, c.nodes[x].view.leaderIp, c'.nodes[x].view.leaderIp);
    }
  }

  lemma AllPresent(c: Cluster, ips: seq<nat>)
    requires AllSettled(c, ips)
    ensures forall ip :: ip in ips <==> ip in c.nodes
  {
  }

  lemma LeadersRise(c: Cluster, ips: seq<nat>, e: Event)
    requires AllSettled(c, ips) && (e.Broadcast? || e.Deliver?)
    ensures forall ip :: ip in ips ==> ip in c.nodes && ip in Apply(c, e).nodes
    ensures forall ip :: ip in ips ==> c.nodes[ip].view.leaderIp <= Apply(c, e).nodes[ip].view.leaderIp
    ensures forall ip :: ip in ips ==> Apply(c, e).nodes[ip].view.leaderIp in ips
  {
    hide Apply, AllSettled;
    AllPresent(c, ips);
    forall ip | ip in ips
      ensures ip in Apply(c, e).nodes
      ensures c.nodes[ip].view.leaderIp <= Apply(c, e).nodes[ip].view.leaderIp
      ensures Apply(c, e).nodes[ip].view.leaderIp in ips
    {
      LeaderStep(c, ips, e, ip);
    }
  }

  /** A step that changes a leader uses up slack. */
  lemma ChangeStep(c: Cluster, ips: seq<nat>, e: Event)
    requires AllSettled(c, ips) && (e.Broadcast? || e.Deliver?)
    ensures AllSettled(Apply(c, e), ips)
    ensures forall ip :: ip in ips ==> ip in c.nodes && ip in Apply(c, e).nodes
    ensures Slack(Apply(c, e), ips, ips) + (if LeadershipMoved(c, Apply(c, e)) then 1 else 0) <= Slack(c, ips, ips)
  {
    hide Apply, AllSettled, Slack, LeadershipMoved;
    var c' := Apply(c, e);
    SettledApply(c, ips, e);
    LeadersRise(c, ips, e);
    SlackDecreases(c, c', ips, ips);
    if LeadershipMoved(c, c') {
      AllPresent(c, ips);
      var ip := WhoMoved(c, c', ips);
    }
  }

  lemma WhoMoved(c: Cluster, c': Cluster, ips: seq<nat>) returns (ip: nat)
    requires LeadershipMoved(c, c') && forall ip :: ip in ips <==> ip in c.nodes
    ensures ip in ips && ip in c'.nodes && c.nodes[ip].view.leaderIp != c'.nodes[ip].view.leaderIp
  {
    ip :| ip in c.nodes && ip in c'.nodes && c.nodes[ip].view.leaderIp != c'.nodes[ip].view.leaderIp;
  }

  lemma {:induction false} ChangesBounded(ips: seq<nat>, events: seq<Event>)
    requires Calm(events)
    ensures AllSettled(Start(ips), ips) && AllSettled(Run(Start(ips), events), ips)
    ensures forall ip :: ip in ips ==> ip in Start(ips).nodes && ip in Run(Start(ips), events).nodes
    ensures Changes(Start(ips), events) + Slack(Run(Start(ips), events), ips, ips) <= Slack(Start(ips), ips, ips)
  {
    hide Apply, AllSettled, Slack, Start, LeadershipMoved;
    SettledStart(ips);
    AllPresent(Start(ips), ips);
    if events != [] {
      var init, last := events[..|events| - 1], events[|events| - 1];
      ChangesBounded(ips, init);
      ChangeStep(Run(Start(ips), init), ips, last);
    }
  }

  /** Each of `some` distinct addresses against the whole list, one address at a time. */
  lemma {:induction false} AboveAll(ips: seq<nat>, x: nat)
    requires x !in ips
    ensures Above(ips, x) + Below(ips, x) == |ips|
  {
    if ips != [] {
      AboveAll(ips[..|ips| - 1], x);
    }
  }

  function Below(ips: seq<nat>, x: nat): nat {
    if ips == [] then 0
    else Below(ips[..|ips| - 1], x) + (if ips[|ips| - 1] < x then 1 else 0)
  }

  /** Total upgrades possible when every node follows itself. */
  function Pairs(ips: seq<nat>, some: seq<nat>): nat {
    if some == [] then 0 else Pairs(ips, some[..|some| - 1]) + Above(ips, some[|some| - 1])
  }

  lemma {:induction false} PairsSnoc(ips: seq<nat>, x: nat, some: seq<nat>)
    ensures Pairs(ips + [x], some) == Pairs(ips, some) + Below(some, x)
  {
    if some != [] {
      PairsSnoc(ips, x, some[..|some| - 1]);
      assert (ips + [x])[..|ips|] == ips;
    }
  }

  lemma {:induction false} PairsTotal(ips: seq<nat>)
    requires AllDistinct(ips)
    ensures 2 * Pairs(ips, ips) == |ips| * (|ips| - 1)
  {
    if ips != [] {
      var init, x := ips[..|ips| - 1], ips[|ips| - 1];
      assert ips == init + [x];
      PairsTotal(init);
      PairsSnoc(init, x, init);
      AboveAll(init, x);
      Triangle(|init|, Pairs(init, init));
    }
  }

  lemma Triangle(n: nat, pairs: nat)
    requires 2 * pairs == n * (n - 1)
    ensures 2 * (pairs + n) == (n + 1) * n
  {
  }

  lemma {:induction false} StartSlack(ips: seq<nat>, some: seq<nat>)
    requires forall ip :: ip in some ==> ip in ips
    ensures forall ip :: ip in some ==> ip in Start(ips).nodes
    ensures Slack(Start(ips), ips, some) == Pairs(ips, some)
  {
    if some != [] {
      assert some[|some| - 1] in some;
      StartSlack(ips, some[..|some| - 1]);
    }
  }

  /** In every calm run of n nodes with distinct addresses, leadership changes at most n(n-1)/2 times. */
  lemma LeadershipChangesBounded(ips: seq<nat>, events: seq<Event>)
    requires Calm(events)
    requires AllDistinct(ips)
    ensures 2 * Changes(Start(ips), events) <= |ips| * (|ips| - 1)
  {
    hide Changes, Start, Slack, Pairs;
    ChangesBounded(ips, events);
    StartSlack(ips, ips);
    PairsTotal(ips);
  }
}
