/** One data-plane node as a value: the fields of `States` (data_plane/state.py) and `Raft`
    (data_plane/raft/_raft.py) that elections and shard assignment read and write, and the
    effect of each handler on them. The classes in DataPlane.dfy are proved against these functions. */
module Membership {
  import opened Shards

  /** The text of an address field: a valid IPv4 address, ordered as a number, or anything else. */
  datatype Host = Ip(addr: nat) | Name(text: string)

  /** One entry of the insertion-ordered dictionary `nodes`. */
  datatype Member = Member(host: Host, rank: int)

  /** A heartbeat as `beatHandler` sees it: fewer than three parts or ranks that are no numbers,
      or `sender;rank;lastRank`. */
  datatype Beat = Malformed | Beat(sender: Host, rank: int, lastRank: int)

  datatype View = View(
    self: nat,
    nodes: seq<Member>,
    rank: int,
    lastRank: int,
    mLastRank: int,
    nodeCount: int,
    leaderIp: nat,
    own: set<char>)

  datatype Node = Node(view: View, leader: bool, followerCount: int)

  // ---------------------------------------------------------------- the ordered dictionary

  predicate Has(nodes: seq<Member>, h: Host) {
    exists i :: 0 <= i < |nodes| && nodes[i].host == h
  }

  /** `nodes.get(h, default)` */
  function RankOr(nodes: seq<Member>, h: Host, default: int): int {
    if nodes == [] then default
    else if nodes[|nodes| - 1].host == h then nodes[|nodes| - 1].rank
    else RankOr(nodes[..|nodes| - 1], h, default)
  }

  /** `nodes[h] = rank`: an existing key keeps its place. */
  function Assign(nodes: seq<Member>, h: Host, rank: int): seq<Member> {
    if nodes == [] then [Member(h, rank)]
    else if nodes[0].host == h then [Member(h, rank)] + nodes[1..]
    else [nodes[0]] + Assign(nodes[1..], h, rank)
  }

  /** `del nodes[h]` */
  function Delete(nodes: seq<Member>, h: Host): seq<Member> {
    if nodes == [] then []
    else Delete(nodes[..|nodes| - 1], h) + (if nodes[|nodes| - 1].host == h then [] else [nodes[|nodes| - 1]])
  }

  /** Ranks 1, 2, 3, ... in insertion order. */
  function Renumber(nodes: seq<Member>): (r: seq<Member>)
    ensures |r| == |nodes|
  {
    seq(|nodes|, i requires 0 <= i < |nodes| => Member(nodes[i].host, i + 1))
  }

  // ---------------------------------------------------------------- States

  function Members(ips: seq<nat>): set<nat> {
    set ip | ip in ips
  }

  /** The member list collected from the IP files, in file order; a repeated IP keeps its place and
      takes the later rank. */
  function Register(ips: seq<nat>): seq<Member> {
    if ips == [] then []
    else Assign(Register(ips[..|ips| - 1]), Ip(ips[|ips| - 1]), |ips|)
  }

  /** `States.__init__` on a node whose address is `self`. */
  function Boot(ips: seq<nat>, self: nat): View {
    var nodes := if ips == [] then [Member(Ip(self), 1)] else Register(ips);
    var last := if ips == [] then 1 else |ips|;
    var rank := RankOr(nodes, Ip(self), 1);
    View(self, nodes, rank, last, last, |nodes|, self, ShardsOf(|nodes|, rank, last))
  }

  function UpdateRank(v: View, rank: int, lastRank: int): View {
    v.(rank := rank, lastRank := lastRank, own := ShardsOf(v.nodeCount, rank, lastRank))
  }

  function RemoveNode(v: View, h: Host): View {
    if !Has(v.nodes, h) then v
    else
      var nodes := Renumber(Delete(v.nodes, h));
      var rank := RankOr(nodes, Ip(v.self), 1);
      v.(nodes := nodes, nodeCount := |nodes|, rank := rank, lastRank := |nodes|,
         own := ShardsOf(|nodes|, rank, |nodes|))
  }

  // ---------------------------------------------------------------- Raft

  function Followers(nodes: seq<Member>): int {
    if |nodes| == 0 then 0 else |nodes| - 1
  }

  /** A fresh `Raft`: every node starts as a self-declared leader. */
  function Fresh(ips: seq<nat>, self: nat): Node {
    var v := Boot(ips, self);
    Node(v, true, Followers(v.nodes))
  }

  /** `beatHandler`: registering an unknown sender. */
  function Admit(v: View, sender: Host): View {
    if Has(v.nodes, sender) then v
    else v.(mLastRank := v.mLastRank + 1, nodes := v.nodes + [Member(sender, v.mLastRank + 1)])
  }

  /** `beatHandler` */
  function OnBeat(n: Node, b: Beat): Node {
    match b
    case Malformed => n
    case Beat(sender, rank, lastRank) =>
      var v := Admit(n.view, sender);
      var n1 := n.(view := v, followerCount := Followers(v.nodes));
      if sender.Name? then n1
      else
        var higher := sender.addr > v.leaderIp;
        var v1 := if higher then v.(leaderIp := sender.addr) else v;
        var v2 := if v1.rank != rank || v1.lastRank != lastRank then UpdateRank(v1, rank, lastRank) else v1;
        Node(v2, n.leader && !higher, Followers(v.nodes))
  }

  /** The promotion branch of `raftHeart`, before the new leader's own heartbeat. */
  function OnTimeout(n: Node): Node {
    if n.leader then n
    else
      var v := RemoveNode(n.view, Ip(n.view.leaderIp)).(leaderIp := n.view.self);
      var rank := RankOr(v.nodes, Ip(v.self), 1);
      n.(view := UpdateRank(v, rank, v.lastRank), leader := true)
  }

  /** `sendBeat`: what a node sends, in order. Every recipient is told its own rank. */
  function BeatsFrom(v: View, nodes: seq<Member>): seq<(Host, Beat)> {
    if nodes == [] then []
    else
      var m := nodes[|nodes| - 1];
      BeatsFrom(v, nodes[..|nodes| - 1])
      + (if m.host == Ip(v.self) then [] else [(m.host, Beat(Ip(v.self), m.rank, v.lastRank))])
  }

  // ---------------------------------------------------------------- facts

  /** A node never follows a lower address than its own, and leads exactly when it follows itself. */
  predicate Coherent(n: Node) {
    && n.view.self <= n.view.leaderIp
    && (n.leader <==> n.view.leaderIp == n.view.self)
  }

  lemma CoherentSteps(n: Node, b: Beat)
    requires Coherent(n)
    ensures Coherent(OnBeat(n, b)) && Coherent(OnTimeout(n))
    ensures OnBeat(n, b).view.self == n.view.self && OnTimeout(n).view.self == n.view.self
    ensures OnBeat(n, b).view.leaderIp >= n.view.leaderIp
  {
  }

  lemma {:induction false} AssignHas(nodes: seq<Member>, h: Host, rank: int, g: Host)
    ensures Has(Assign(nodes, h, rank), g) <==> Has(nodes, g) || g == h
    ensures |Assign(nodes, h, rank)| == |nodes| + (if Has(nodes, h) then 0 else 1)
  {
    var r := Assign(nodes, h, rank);
    if nodes != [] {
      assert nodes == [nodes[0]] + nodes[1..];
      HasCons(nodes[0], nodes[1..], g);
      HasCons(nodes[0], nodes[1..], h);
      HasCons(r[0], r[1..], g);
      assert r == [r[0]] + r[1..];
      if nodes[0].host != h {
        AssignHas(nodes[1..], h, rank, g);
        assert r[1..] == Assign(nodes[1..], h, rank);
      } else {
        assert r[1..] == nodes[1..];
      }
    } else {
      assert r[0].host == h;
    }
  }

  lemma HasCons(m: Member, nodes: seq<Member>, g: Host)
    ensures Has([m] + nodes, g) <==> m.host == g || Has(nodes, g)
  {
    var s := [m] + nodes;
    assert s[0] == m;
    forall i | 0 <= i < |nodes| ensures nodes[i] == s[i + 1] {}
    if Has(nodes, g) {
      var i :| 0 <= i < |nodes| && nodes[i].host == g;
      assert s[i + 1].host == g;
    }
    if Has(s, g) && m.host != g {
      var i :| 0 <= i < |s| && s[i].host == g;
      assert nodes[i - 1].host == g;
    }
  }

  lemma {:induction false} RankOrCons(m: Member, nodes: seq<Member>, g: Host, default: int)
    ensures RankOr([m] + nodes, g, default)
         == RankOr(nodes, g, if m.host == g then m.rank else default)
  {
    var s := [m] + nodes;
    if nodes == [] {
      assert s[..|s| - 1] == [];
    } else {
      assert s[..|s| - 1] == [m] + nodes[..|nodes| - 1];
      RankOrCons(m, nodes[..|nodes| - 1], g, default);
    }
  }

  /** Keys of a dictionary are unique. */
  predicate Distinct(nodes: seq<Member>) {
    forall i, j :: 0 <= i < j < |nodes| ==> nodes[i].host != nodes[j].host
  }

  lemma {:induction false} AssignDistinct(nodes: seq<Member>, h: Host, rank: int)
    requires Distinct(nodes)
    ensures Distinct(Assign(nodes, h, rank))
  {
    if nodes != [] && nodes[0].host != h {
      AssignDistinct(nodes[1..], h, rank);
      var r := Assign(nodes[1..], h, rank);
      AssignHas(nodes[1..], h, rank, nodes[0].host);
      assert forall i :: 0 <= i < |r| ==> r[i].host != nodes[0].host;
    }
  }

  lemma {:induction false} AbsentRank(nodes: seq<Member>, g: Host, default: int)
    requires !Has(nodes, g)
    ensures RankOr(nodes, g, default) == default
  {
    if nodes != [] {
      assert nodes[|nodes| - 1].host != g;
      var init := nodes[..|nodes| - 1];
      assert forall i :: 0 <= i < |init| ==> init[i] == nodes[i];
      AbsentRank(init, g, default);
    }
  }

  lemma {:induction false} AssignRank(nodes: seq<Member>, h: Host, rank: int, g: Host, default: int)
    requires Distinct(nodes)
    ensures RankOr(Assign(nodes, h, rank), g, default) == if g == h then rank else RankOr(nodes, g, default)
  {
    if nodes == [] {
      assert [Member(h, rank)][..0] == [];
    } else {
      assert nodes == [nodes[0]] + nodes[1..];
      var d := if nodes[0].host == g then nodes[0].rank else default;
      RankOrCons(nodes[0], nodes[1..], g, default);
      if nodes[0].host == h {
        RankOrCons(Member(h, rank), nodes[1..], g, default);
        if g == h {
          assert !Has(nodes[1..], g);
          AbsentRank(nodes[1..], g, rank);
        }
      } else {
        RankOrCons(nodes[0], Assign(nodes[1..], h, rank), g, default);
        AssignRank(nodes[1..], h, rank, g, d);
      }
    }
  }

  /** A heartbeat round reaches every other member, tells it its own rank, and reaches nobody else. */
  lemma {:induction false} BeatsReach(v: View, nodes: seq<Member>, h: Host, rank: int)
    ensures (h, Beat(Ip(v.self), rank, v.lastRank)) in BeatsFrom(v, nodes)
       <==> Member(h, rank) in nodes && h != Ip(v.self)
    ensures forall d :: d in BeatsFrom(v, nodes) ==> d.1.Beat? && d.1.sender == Ip(v.self) && d.1.lastRank == v.lastRank
  {
    if nodes != [] {
      assert nodes == nodes[..|nodes| - 1] + [nodes[|nodes| - 1]];
      BeatsReach(v, nodes[..|nodes| - 1], h, rank);
    }
  }

  lemma {:induction false} DeleteKeeps(nodes: seq<Member>, h: Host, m: Member)
    ensures m in Delete(nodes, h) <==> m in nodes && m.host != h
  {
    if nodes != [] {
      assert nodes == nodes[..|nodes| - 1] + [nodes[|nodes| - 1]];
      DeleteKeeps(nodes[..|nodes| - 1], h, m);
    }
  }

  lemma {:induction false} DeleteDistinct(nodes: seq<Member>, h: Host)
    requires Distinct(nodes)
    ensures Distinct(Delete(nodes, h))
    ensures |Delete(nodes, h)| == |nodes| - (if Has(nodes, h) then 1 else 0)
  {
    if nodes != [] {
      var init, m := nodes[..|nodes| - 1], nodes[|nodes| - 1];
      DeleteDistinct(init, h);
      var d := Delete(init, h);
      forall i | 0 <= i < |d| ensures d[i].host != m.host {
        DeleteKeeps(init, h, d[i]);
        var j :| 0 <= j < |init| && init[j] == d[i];
        assert nodes[j] == init[j];
      }
      HasSnoc(nodes, h);
    }
  }

  lemma HasSnoc(nodes: seq<Member>, h: Host)
    requires nodes != []
    ensures Has(nodes, h) <==> Has(nodes[..|nodes| - 1], h) || nodes[|nodes| - 1].host == h
    ensures Distinct(nodes) && nodes[|nodes| - 1].host == h ==> !Has(nodes[..|nodes| - 1], h)
  {
    var init := nodes[..|nodes| - 1];
    if Has(init, h) {
      var i :| 0 <= i < |init| && init[i].host == h;
      assert nodes[i].host == h;
    }
    if Has(nodes, h) && nodes[|nodes| - 1].host != h {
      var i :| 0 <= i < |nodes| && nodes[i].host == h;
      assert init[i].host == h;
    }
  }

  /** Removing a listed node leaves the others in their order with ranks 1, 2, 3, ..., one fewer in all,
      and the node's own rank and shards read off the new list. */
  lemma RemovedRanks(v: View, h: Host)
    requires Distinct(v.nodes) && Has(v.nodes, h)
    ensures var after := RemoveNode(v, h);
            && Distinct(after.nodes) && !Has(after.nodes, h)
            && (forall i :: 0 <= i < |after.nodes| ==>
                  after.nodes[i].rank == i + 1 && Has(v.nodes, after.nodes[i].host))
            && after.nodeCount == after.lastRank == |after.nodes| == |v.nodes| - 1
            && after.own == ShardsOf(after.nodeCount, after.rank, after.lastRank)
            && (Has(after.nodes, Ip(v.self)) ==>
                  1 <= after.rank <= after.lastRank && after.nodes[after.rank - 1].host == Ip(v.self))
  {
    hide Delete, ShardsOf, RankOr;
    var kept := Delete(v.nodes, h);
    var nodes := Renumber(kept);
    DeleteDistinct(v.nodes, h);
    forall i | 0 <= i < |nodes| ensures nodes[i].host != h && Has(v.nodes, nodes[i].host) {
      DeleteKeeps(v.nodes, h, kept[i]);
    }
    if Has(nodes, Ip(v.self)) {
      var i :| 0 <= i < |nodes| && nodes[i].host == Ip(v.self);
      RankAt(nodes, i, 1);
    }
  }

  lemma {:induction false} RankAt(nodes: seq<Member>, i: nat, default: int)
    requires Distinct(nodes) && i < |nodes|
    ensures RankOr(nodes, nodes[i].host, default) == nodes[i].rank
  {
    if i < |nodes| - 1 {
      RankAt(nodes[..|nodes| - 1], i, default);
    }
  }

  /** The last position of x in the list, counted from 1; 0 when absent. */
  function LastPlace(ips: seq<nat>, x: nat): (p: nat)
    ensures p <= |ips|
    ensures p > 0 ==> ips[p - 1] == x
    ensures forall i :: p <= i < |ips| ==> ips[i] != x
  {
    if ips == [] then 0
    else if ips[|ips| - 1] == x then |ips| else LastPlace(ips[..|ips| - 1], x)
  }

  /** Registration in closed form: the members are the listed IPs, each ranked by its last file. */
  lemma {:induction false} Registered(ips: seq<nat>, h: Host, default: int)
    ensures Distinct(Register(ips))
    ensures Has(Register(ips), h) <==> h.Ip? && h.addr in ips
    ensures RankOr(Register(ips), h, default)
         == if h.Ip? && h.addr in ips then LastPlace(ips, h.addr) else default
  {
    if ips != [] {
      var init, x := ips[..|ips| - 1], ips[|ips| - 1];
      assert ips == init + [x];
      Registered(init, h, default);
      AssignDistinct(Register(init), Ip(x), |ips|);
      AssignHas(Register(init), Ip(x), |ips|, h);
      AssignRank(Register(init), Ip(x), |ips|, h, default);
    }
  }

  // ---------------------------------------------------------------- places in the member list

  /** The position of a member in insertion order, counted from 1; 0 when absent. */
  function Place(nodes: seq<Member>, h: Host): (p: nat)
    ensures p <= |nodes|
    ensures p > 0 ==> nodes[p - 1].host == h
    ensures p == 0 ==> forall i :: 0 <= i < |nodes| ==> nodes[i].host != h
  {
    if nodes == [] then 0
    else if nodes[|nodes| - 1].host == h then |nodes| else Place(nodes[..|nodes| - 1], h)
  }

  lemma {:induction false} DeleteAbsent(nodes: seq<Member>, h: Host)
    requires !Has(nodes, h)
    ensures Delete(nodes, h) == nodes
  {
    if nodes != [] {
      HasSnoc(nodes, h);
      DeleteAbsent(nodes[..|nodes| - 1], h);
    }
  }

  lemma DistinctInit(nodes: seq<Member>)
    requires nodes != [] && Distinct(nodes)
    ensures Distinct(nodes[..|nodes| - 1])
  {
  }

  /** Deleting a member moves those behind it up by one. */
  lemma {:induction false} DeletePlaces(nodes: seq<Member>, h: Host, g: Host)
    requires Distinct(nodes) && Has(nodes, h) && Has(nodes, g) && g != h
    ensures Place(Delete(nodes, h), g) == RankWithout(Place(nodes, g), Place(nodes, h))
  {
    assert nodes != [];
    hide Has, Distinct;
    var init, m := nodes[..|nodes| - 1], nodes[|nodes| - 1];
    HasSnoc(nodes, h);
    HasSnoc(nodes, g);
    DistinctInit(nodes);
    if m.host == h {
      DeleteAbsent(init, h);
      assert init + [] == init;
    } else {
      PlaceSnoc(Delete(init, h), m, g);
      if m.host == g {
        DeleteDistinct(init, h);
      } else {
        DeletePlaces(init, h, g);
      }
    }
  }

  lemma PlaceSnoc(nodes: seq<Member>, m: Member, h: Host)
    ensures Place(nodes + [m], h) == if m.host == h then |nodes| + 1 else Place(nodes, h)
  {
    assert (nodes + [m])[..|nodes|] == nodes;
  }

  lemma RenumberRank(nodes: seq<Member>, h: Host)
    requires Distinct(nodes) && Place(nodes, h) > 0
    ensures RankOr(Renumber(nodes), h, 1) == Place(nodes, h)
  {
    hide RankOr;
    RankAt(Renumber(nodes), Place(nodes, h) - 1, 1);
  }

  /** A follower that times out owns the slice of its place among the members without the leader. */
  lemma TimeoutShards(n: Node)
    requires Distinct(n.view.nodes) && !n.leader && n.view.leaderIp != n.view.self
    requires Has(n.view.nodes, Ip(n.view.self)) && Has(n.view.nodes, Ip(n.view.leaderIp))
    ensures var m, place := |n.view.nodes|, Place(n.view.nodes, Ip(n.view.self));
            OnTimeout(n).view.own
            == ShardsOf(m - 1, RankWithout(place, Place(n.view.nodes, Ip(n.view.leaderIp))), m - 1)
  {
    hide Has, ShardsOf, Delete, RankOr;
    var nodes, self, leader := n.view.nodes, Ip(n.view.self), Ip(n.view.leaderIp);
    DeletePlaces(nodes, leader, self);
    DeleteDistinct(nodes, leader);
    PlaceHas(nodes, self);
    PlaceHas(nodes, leader);
    RenumberRank(Delete(nodes, leader), self);
  }

  lemma PlaceHas(nodes: seq<Member>, h: Host)
    ensures Has(nodes, h) <==> Place(nodes, h) > 0
  {
  }

  lemma PlaceIs(nodes: seq<Member>, i: nat)
    requires Distinct(nodes) && i < |nodes|
    ensures Place(nodes, nodes[i].host) == i + 1
  {
    var p := Place(nodes, nodes[i].host);
    assert p > 0;
  }

  /** `nodes[h] = rank` keeps every member in its place. */
  lemma {:induction false} AssignPlaces(nodes: seq<Member>, h: Host, rank: int)
    ensures var r := Assign(nodes, h, rank);
            |r| >= |nodes| && forall i :: 0 <= i < |nodes| ==> r[i].host == nodes[i].host
  {
    if nodes != [] && nodes[0].host != h {
      AssignPlaces(nodes[1..], h, rank);
    }
  }

  /** The first k addresses of the list are not repeated later. */
  predicate Unrepeated(ips: seq<nat>, k: nat) {
    forall i, j :: 0 <= i < j < |ips| && i < k ==> ips[i] != ips[j]
  }

  /** Addresses that are not repeated keep their file's place in the member list. */
  lemma {:induction false} UnrepeatedPlaces(ips: seq<nat>, k: nat)
    requires k <= |ips| && Unrepeated(ips, k)
    ensures k <= |Register(ips)| <= |ips| && (k < |ips| ==> k < |Register(ips)|)
    ensures forall i :: 0 <= i < k ==> Register(ips)[i].host == Ip(ips[i])
  {
    if ips != [] {
      var init, x := ips[..|ips| - 1], ips[|ips| - 1];
      var before := Register(init);
      UnrepeatedPlaces(init, if k < |ips| then k else k - 1);
      AssignPlaces(before, Ip(x), |ips|);
      AssignHas(before, Ip(x), |ips|, Ip(x));
      if k == |ips| {
        NewPlace(ips, before);
      } else if k == |init| {
        assert ips[k] == x;
        var r := Assign(before, Ip(x), |ips|);
        var i :| 0 <= i < |r| && r[i].host == Ip(x);
        assert i < k ==> ips[i] != x;
      }
    }
  }

  lemma NewPlace(ips: seq<nat>, before: seq<Member>)
    requires ips != [] && Unrepeated(ips, |ips|) && before == Register(ips[..|ips| - 1])
    requires |before| == |ips| - 1
    ensures |Register(ips)| == |ips| && Register(ips)[|ips| - 1].host == Ip(ips[|ips| - 1])
  {
    var init, x := ips[..|ips| - 1], ips[|ips| - 1];
    Registered(init, Ip(x), 1);
    AssignHas(before, Ip(x), |ips|, Ip(x));
    AssignPlaces(before, Ip(x), |ips|);
    var r := Assign(before, Ip(x), |ips|);
    var i :| 0 <= i < |r| && r[i].host == Ip(x);
  }

  /** An unrepeated address has its file's rank as its place, and the others come after. */
  lemma PlaceOfFile(ips: seq<nat>, k: nat, x: nat)
    requires k <= |ips| && Unrepeated(ips, k) && x in ips
    ensures var place, last := Place(Register(ips), Ip(x)), LastPlace(ips, x);
            && 1 <= place <= |Register(ips)| && 1 <= last <= |ips|
            && (place == last || (place > k && last > k))
  {
    hide Register, Has;
    var nodes, last := Register(ips), LastPlace(ips, x);
    UnrepeatedPlaces(ips, k);
    Registered(ips, Ip(x), 1);
    PlaceHas(nodes, Ip(x));
    var place := Place(nodes, Ip(x));
    if last <= k {
      PlaceIs(nodes, last - 1);
    }
  }

  // ---------------------------------------------------------------- what a heartbeat does

  /** A node's shards are those of its rank, its last rank and its node count. */
  predicate Consistent(v: View) {
    v.own == ShardsOf(v.nodeCount, v.rank, v.lastRank)
  }

  lemma ConsistentSteps(n: Node, b: Beat)
    requires Consistent(n.view)
    ensures Consistent(OnBeat(n, b).view) && Consistent(OnTimeout(n).view)
  {
    hide ShardsOf, Has, RankOr, Delete;
  }

  lemma ConsistentBoot(ips: seq<nat>, self: nat)
    ensures Consistent(Boot(ips, self))
  {
    hide ShardsOf, Register, RankOr;
  }

  /** Whom a heartbeat makes known: an unknown sender is listed last with the next rank, a known one changes
      nothing, and the other members are counted afresh. */
  lemma BeatRegisters(n: Node, b: Beat)
    ensures b.Malformed? ==> OnBeat(n, b) == n
    ensures b.Beat? ==>
              var v, n' := n.view, OnBeat(n, b);
              && (if Has(v.nodes, b.sender) then n'.view.nodes == v.nodes && n'.view.mLastRank == v.mLastRank
                  else n'.view.nodes == v.nodes + [Member(b.sender, v.mLastRank + 1)]
                       && n'.view.mLastRank == v.mLastRank + 1)
              && n'.followerCount + 1 == |n'.view.nodes| && n'.view.nodeCount == v.nodeCount
    ensures b.Beat? && b.sender.Name? ==>
              OnBeat(n, b).leader == n.leader && OnBeat(n, b).view.leaderIp == n.view.leaderIp
              && OnBeat(n, b).view.rank == n.view.rank && OnBeat(n, b).view.lastRank == n.view.lastRank
  {
    hide ShardsOf;
    if b.Beat? && Has(n.view.nodes, b.sender) { assert |n.view.nodes| >= 1; }
  }

  /** Where a heartbeat of an IPv4 sender puts its recipient: at the rank it is told, so that in a cluster of
      several nodes it owns exactly the letters of that rank's slice, and behind the higher leader. */
  lemma BeatAssigns(n: Node, sender: nat, rank: int, lastRank: int, p: nat)
    requires Consistent(n.view)
    ensures var n' := OnBeat(n, Beat(Ip(sender), rank, lastRank));
            && n'.view.rank == rank && n'.view.lastRank == lastRank
            && (n.view.nodeCount != 1 && 1 <= rank <= lastRank && p < TOTAL_LETTERS ==>
                  (ALPHABET[p] in n'.view.own <==> InSlice(TOTAL_LETTERS, rank, lastRank, p)))
            && n'.view.leaderIp == (if sender > n.view.leaderIp then sender else n.view.leaderIp)
            && (n'.leader <==> n.leader && sender <= n.view.leaderIp)
  {
    hide ShardsOf, Has, InSlice;
    ConsistentSteps(n, Beat(Ip(sender), rank, lastRank));
    if n.view.nodeCount != 1 && 1 <= rank <= lastRank && p < TOTAL_LETTERS {
      OwnsLetter(n.view.nodeCount, rank, lastRank, p);
    }
  }

  /** A node that finds no IP file is alone and owns everything. */
  lemma LoneNode(self: nat, p: nat)
    requires p < TOTAL_LETTERS
    ensures var n := Fresh([], self);
            && n.view.nodes == [Member(Ip(self), 1)] && n.leader && n.followerCount == 0
            && n.view.leaderIp == self && ALPHABET[p] in n.view.own
  {
    assert ALPHABET[p] in Letters(ALPHABET);
  }

  /** A timeout is nothing to a leader; it takes the old leader off a follower's list and touches neither its
      count of followers nor its next free rank. */
  lemma TimeoutForgets(n: Node)
    requires Distinct(n.view.nodes)
    ensures n.leader ==> OnTimeout(n) == n
    ensures OnTimeout(n).leader
    ensures !n.leader ==>
              var n' := OnTimeout(n);
              && n'.view.leaderIp == n.view.self && n'.followerCount == n.followerCount
              && n'.view.mLastRank == n.view.mLastRank && !Has(n'.view.nodes, Ip(n.view.leaderIp))
  {
    hide ShardsOf, RankOr, Delete, Renumber, Has;
    if Has(n.view.nodes, Ip(n.view.leaderIp)) { RemovedRanks(n.view, Ip(n.view.leaderIp)); }
  }
}
