/** The data-plane objects as the source has them: `States` (data_plane/state.py), `Raft`
    (data_plane/raft/_raft.py), `Reader` (data_plane/read/_read.py) and `Writer`
    (data_plane/write/_writer.py), each method proved against the functions the protocol
    theorems are about. */
module DataPlane {
  import opened Text
  import opened Shards
  import opened Membership
  import opened Records
  import opened Storage
  import R = Replication
  import opened Timers

  /** The addresses found in the IP files; a blank or unreadable file is skipped. */
  function Readable(files: seq<Option<nat>>): seq<nat> {
    if files == [] then []
    else Readable(files[..|files| - 1]) + (if files[|files| - 1].Some? then [files[|files| - 1].value] else [])
  }

  /** The files are taken in order: a readable one comes right after the readable ones before it. */
  lemma {:induction false} ReadableInOrder(files: seq<Option<nat>>, i: nat)
    requires i < |files| && files[i].Some?
    ensures |Readable(files[..i])| < |Readable(files)| && Readable(files)[|Readable(files[..i])|] == files[i].value
  {
    if i < |files| - 1 {
      ReadableInOrder(files[..|files| - 1], i);
      assert files[..|files| - 1][..i] == files[..i];
    }
  }

  lemma {:induction false} ReadableCount(files: seq<Option<nat>>)
    ensures |Readable(files)| == |set i | 0 <= i < |files| && files[i].Some?|
  {
    if files != [] {
      var n := |files| - 1;
      ReadableCount(files[..n]);
      var before, all := set i | 0 <= i < n && files[..n][i].Some?, set i | 0 <= i < |files| && files[i].Some?;
      assert all == before + (if files[n].Some? then {n} else {});
    }
  }

  class States {
    const selfIp: nat
    var nodes: seq<Member>
    var rank: int
    var lastRank: int
    var mLastRank: int
    var nodeCount: int
    var leaderIp: nat
    var selfRecords: set<char>
    var records: Table

    function Viewed(): View
      reads this
    {
      View(selfIp, nodes, rank, lastRank, mLastRank, nodeCount, leaderIp, selfRecords)
    }

    constructor (ipFiles: seq<Option<nat>>, self: nat)
      ensures Viewed() == Boot(Readable(ipFiles), self)
      ensures records == map[]
    {
      var found: seq<Member>, currRank := [], 0;
      for i := 0 to |ipFiles|
        invariant found == Register(Readable(ipFiles[..i])) && currRank == |Readable(ipFiles[..i])|
      {
        assert ipFiles[..i + 1][..i] == ipFiles[..i];
        match ipFiles[i]
        case None =>
          assert Readable(ipFiles[..i + 1]) == Readable(ipFiles[..i]);
        case Some(ip) =>
          var ips := Readable(ipFiles[..i]);
          assert Readable(ipFiles[..i + 1]) == ips + [ip] && (ips + [ip])[..|ips|] == ips;
          currRank := currRank + 1;
          found := Assign(found, Ip(ip), currRank);
      }
      assert ipFiles[..|ipFiles|] == ipFiles;
      RegisterEmpty(Readable(ipFiles));
      if found == [] {
        found, currRank := [Member(Ip(self), 1)], 1;
      }
      selfIp := self;
      nodes := found;
      rank := RankOr(found, Ip(self), 1);
      lastRank, mLastRank := currRank, currRank;
      nodeCount := |found|;
      leaderIp := self;
      selfRecords := ShardsOf(|found|, RankOr(found, Ip(self), 1), currRank);
      records := map[];
    }

    method UpdateRecordSet()
      modifies this`selfRecords
      ensures selfRecords == ShardsOf(nodeCount, rank, lastRank)
    {
      if nodeCount == 1 {
        selfRecords := Letters(ALPHABET);
        return;
      }
      if lastRank == 0 || rank == 0 {
        selfRecords := {};
        return;
      }
      var perNode, remainder := FloorDiv(TOTAL_LETTERS, lastRank), FloorMod(TOTAL_LETTERS, lastRank);
      var start := perNode * (rank - 1) + Min(rank - 1, remainder);
      var size := perNode + (if rank <= remainder then 1 else 0);
      selfRecords := Letters(Slice(ALPHABET, start, start + size));
    }

    method UpdateRank(rank: int, lastRank: int)
      modifies this`rank, this`lastRank, this`selfRecords
      ensures Viewed() == Membership.UpdateRank(old(Viewed()), rank, lastRank)
    {
      this.rank, this.lastRank := rank, lastRank;
      UpdateRecordSet();
    }

    method RemoveNode(h: Host)
      modifies this`nodes, this`nodeCount, this`rank, this`lastRank, this`selfRecords
      ensures Viewed() == Membership.RemoveNode(old(Viewed()), h)
    {
      hide Delete, RankOr, ShardsOf, Has;
      if !Has(nodes, h) { return; }
      nodes := Delete(nodes, h);
      nodeCount := |nodes|;
      ghost var kept := nodes;
      for i := 0 to |nodes|
        modifies this`nodes
        invariant |nodes| == |kept|
        invariant forall k :: 0 <= k < |kept| ==> nodes[k] == if k < i then Member(kept[k].host, k + 1) else kept[k]
      {
        nodes := nodes[i := Member(nodes[i].host, i + 1)];
      }
      assert nodes == Renumber(kept);
      rank := RankOr(nodes, Ip(selfIp), 1);
      lastRank := |nodes|;
      UpdateRecordSet();
    }
  }

  lemma {:induction false} RegisterEmpty(ips: seq<nat>)
    ensures Register(ips) == [] <==> ips == []
  {
    if ips != [] {
      AssignHas(Register(ips[..|ips| - 1]), Ip(ips[|ips| - 1]), |ips|, Ip(ips[|ips| - 1]));
    }
  }

  class Raft {
    const states: States
    var currLogNum: nat
    var followerCount: int
    var leader: bool
    var beatSent: bool
    var lastBeat: int

    function Viewed(): Membership.Node
      reads this, states
    {
      Membership.Node(states.Viewed(), leader, followerCount)
    }

    constructor (states: States, now: int)
      ensures this.states == states && currLogNum == 0 && lastBeat == now && !beatSent
      ensures Viewed() == Membership.Node(states.Viewed(), true, Followers(states.nodes))
    {
      this.states := states;
      currLogNum, lastBeat := 0, now;
      followerCount := if |states.nodes| - 1 > 0 then |states.nodes| - 1 else 0;
      leader, beatSent := true, false;
    }

    /** Every beat, even a malformed one, refreshes the timer. */
    method BeatHandler(beat: Beat, now: int)
      modifies this`lastBeat, this`followerCount, this`leader,
               states`nodes, states`mLastRank, states`leaderIp, states`rank, states`lastRank, states`selfRecords
      ensures Viewed() == OnBeat(old(Viewed()), beat)
      ensures lastBeat == now
    {
      lastBeat := now;
      if beat.Malformed? { return; }
      if !Has(states.nodes, beat.sender) {
        states.mLastRank := states.mLastRank + 1;
        states.nodes := states.nodes + [Member(beat.sender, states.mLastRank)];
      }
      followerCount := if |states.nodes| - 1 > 0 then |states.nodes| - 1 else 0;
      if beat.sender.Name? { return; }
      if beat.sender.addr > states.leaderIp {
        leader := false;
        states.leaderIp := beat.sender.addr;
      }
      if states.rank != beat.rank || states.lastRank != beat.lastRank {
        states.UpdateRank(beat.rank, beat.lastRank);
      }
    }

    method SendBeat() returns (out: seq<(Host, Beat)>)
      modifies this`beatSent
      ensures beatSent && out == BeatsFrom(states.Viewed(), states.nodes)
    {
      beatSent := true;
      out := [];
      var nodes := states.nodes;
      for i := 0 to |nodes|
        invariant out == BeatsFrom(states.Viewed(), nodes[..i])
      {
        assert nodes[..i + 1][..i] == nodes[..i];
        if nodes[i].host != Ip(states.selfIp) {
          out := out + [(nodes[i].host, Beat(Ip(states.selfIp), nodes[i].rank, states.lastRank))];
        }
      }
      assert nodes[..|nodes|] == nodes;
    }

    /** One turn of `raftHeart`. */
    method Heartbeat(now: int, nextBeat: int) returns (next: int, out: seq<(Host, Beat)>)
      modifies this`beatSent, this`leader, this`lastBeat,
               states`nodes, states`nodeCount, states`rank, states`lastRank, states`selfRecords, states`leaderIp
      ensures var expired := !old(leader) && Expires(old(lastBeat), now);
              && Viewed() == (if expired then OnTimeout(old(Viewed())) else old(Viewed()))
              && lastBeat == (if expired then now else old(lastBeat))
              && out == (if expired || (old(leader) && now >= nextBeat)
                         then BeatsFrom(states.Viewed(), states.nodes) else [])
              && next == (if expired || now >= nextBeat then now + 100 else nextBeat)
              && (beatSent <==> old(beatSent) || expired || (old(leader) && now >= nextBeat))
      ensures Expires(old(lastBeat), now) <==> now - old(lastBeat) >= 300
    {
      next, out := nextBeat, [];
      if now >= nextBeat {
        if leader { out := SendBeat(); }
        next := now + BEAT_INTERVAL;
      }
      if !leader && now - lastBeat >= LEADER_DEAD {
        states.RemoveNode(Ip(states.leaderIp));
        states.leaderIp := states.selfIp;
        var rank := RankOr(states.nodes, Ip(states.selfIp), 1);
        states.UpdateRank(rank, states.lastRank);
        leader := true;
        out := SendBeat();
        next := now + BEAT_INTERVAL;
        lastBeat := now;
      }
    }

    /** `sendToFollower`: the same line to every other node. */
    method SendToFollowers(line: string) returns (out: seq<(Host, string)>)
      ensures out == ToFollowers(states.nodes, states.selfIp, line)
    {
      out := [];
      var nodes := states.nodes;
      for i := 0 to |nodes|
        invariant out == ToFollowers(nodes[..i], states.selfIp, line)
      {
        assert nodes[..i + 1][..i] == nodes[..i];
        if nodes[i].host != Ip(states.selfIp) { out := out + [(nodes[i].host, line)]; }
      }
      assert nodes[..|nodes|] == nodes;
    }
  }

  function ToFollowers(nodes: seq<Member>, self: nat, line: string): seq<(Host, string)> {
    if nodes == [] then []
    else
      var m := nodes[|nodes| - 1];
      ToFollowers(nodes[..|nodes| - 1], self, line) + (if m.host == Ip(self) then [] else [(m.host, line)])
  }

  /** Each follower is sent the line exactly once per listing, and the sender never. */
  lemma {:induction false} FollowersReached(nodes: seq<Member>, self: nat, line: string, h: Host)
    ensures (h, line) in ToFollowers(nodes, self, line) <==> Has(nodes, h) && h != Ip(self)
    ensures forall d :: d in ToFollowers(nodes, self, line) ==> d.1 == line
  {
    if nodes != [] {
      var init, m := nodes[..|nodes| - 1], nodes[|nodes| - 1];
      FollowersReached(init, self, line, h);
      HasSnoc(nodes, h);
    }
  }

  /** A listed follower is sent the line exactly once, in the order of the list. */
  lemma {:induction false} FollowersOnce(nodes: seq<Member>, self: nat, line: string, h: Host)
    requires Distinct(nodes)
    ensures multiset(ToFollowers(nodes, self, line))[(h, line)] == if Has(nodes, h) && h != Ip(self) then 1 else 0
  {
    if nodes != [] {
      var init, m := nodes[..|nodes| - 1], nodes[|nodes| - 1];
      FollowersOnce(init, self, line, h);
      HasSnoc(nodes, h);
    }
  }

  lemma {:induction false} FollowersInOrder(nodes: seq<Member>, self: nat, line: string, i: nat)
    requires i < |nodes| && nodes[i].host != Ip(self)
    ensures var out, n := ToFollowers(nodes, self, line), |ToFollowers(nodes[..i], self, line)|;
            n < |out| && out[n] == (nodes[i].host, line)
  {
    if i < |nodes| - 1 {
      FollowersInOrder(nodes[..|nodes| - 1], self, line, i);
      assert nodes[..|nodes| - 1][..i] == nodes[..i];
    }
  }

  /** The records directory. */
  class Disk {
    var files: map<char, string>

    constructor ()
      ensures files == map[]
    {
      files := map[];
    }
  }

  lemma PutPlus(a: Table, b: Table, e: Option<(Key, string)>)
    ensures Put(a + b, e) == a + Put(b, e)
  {
  }

  class Reader {
    const states: States

    /** `order` is the order in which the set `selfRecords` happens to be iterated. */
    constructor (states: States, disk: Disk, order: seq<char>)
      modifies states`records
      ensures this.states == states
      ensures states.records == LoadAll(disk.files, order)
    {
      var records: Table := map[];
      for i := 0 to |order|
        invariant records == LoadAll(disk.files, order[..i])
      {
        assert order[..i + 1][..i] == order[..i];
        records := AddFile(records, FileText(disk.files, order[i]));
      }
      assert order[..|order|] == order;
      this.states := states;
      states.records := records;
    }

    /** The loop over the lines of one shard file. */
    static method AddFile(before: Table, content: string) returns (records: Table)
      ensures records == before + LoadFile(content)
    {
      hide LStrip, RStrip, Split;
      records := before;
      var lines := Lines(content);
      for j := 0 to |lines|
        invariant records == before + LoadLines(lines[..j])
      {
        assert lines[..j + 1] == lines[..j] + [lines[j]];
        LoadSnoc(lines[..j], lines[j]);
        PutPlus(before, LoadLines(lines[..j]), ParseLine(lines[j]));
        var line := Strip(lines[j]);
        if line != "" && line[0] != '#' {
          var parts := Split(line, ',');
          if |parts| == 3 {
            records := records[(Strip(parts[0]), Strip(parts[1])) := Strip(parts[2])];
          }
        }
      }
      assert lines[..|lines|] == lines;
    }

    method RecordResponse(domain: string, rtype: string) returns (answer: string)
      ensures answer == Respond(states.records, states.selfRecords, domain, rtype)
    {
      if domain == "" || LowerChar(domain[0]) !in states.selfRecords { return "N/A"; }
      var key := (Lower(Strip(domain)), Upper(Strip(rtype)));
      if key in states.records { return states.records[key]; }
      return "N/A";
    }
  }

  lemma NothingFound(domain: string)
    ensures !Found([], domain)
  {
  }

  class Writer {
    const states: States
    const disk: Disk
    var logs: map<string, string>
    var logAck: map<string, nat>

    constructor (states: States, disk: Disk)
      ensures this.states == states && this.disk == disk && logs == map[] && logAck == map[]
    {
      this.states, this.disk := states, disk;
      logs, logAck := map[], map[];
    }

    /** The write-side state of the node, given its Raft coordinator. */
    function Viewed(raft: Raft): R.Writer
      reads this, states, disk, raft
    {
      R.Writer(raft.currLogNum, logs, logAck, Store(disk.files, states.records), states.selfRecords)
    }

    /** The rewriting loop of `commitHandler`. */
    static method RewriteFile(content: string, domain: string, update: string) returns (after: string)
      requires domain == Domain(update)
      ensures after == Committed(content, update)
    {
      hide LStrip, RStrip, Split, Lines, Concat, Found, Domain;
      var old', lines, found := Lines(content), [], false;
      NothingFound(domain);
      for i := 0 to |old'|
        invariant lines == Rewrite(old'[..i], domain, update)
        invariant found <==> Found(old'[..i], domain)
      {
        assert old'[..i + 1][..i] == old'[..i];
        FoundSnoc(old'[..i + 1], domain);
        if Strip(Split(Strip(old'[i]), ',')[0]) == domain {
          lines := lines + [update + "\n"];
          found := true;
        } else {
          lines := lines + [old'[i]];
        }
      }
      assert old'[..|old'|] == old';
      if !found { lines := lines + [update + "\n"]; }
      after := Concat(lines);
    }

    method CommitHandler(num: string, raft: Raft, writable: bool)
      modifies disk`files, states`records
      ensures Viewed(raft) == R.CommitLog(old(Viewed(raft)), num, writable)
    {
      if num !in logs || logs[num] == "" { return; }
      var update := logs[num];
      var parts := Split(Strip(update), ',');
      if |parts| < 3 { return; }
      var domain, rtype, ip := Strip(parts[0]), Strip(parts[1]), Strip(parts[2]);
      if domain == "" || !writable { return; }
      var shard := LowerChar(domain[0]);
      var text := RewriteFile(FileText(disk.files, shard), domain, update);
      disk.files := disk.files[shard := text];
      states.records := states.records[(domain, rtype) := ip];
    }

    method WriteStarter(update: string, num: string, raft: Raft, writable: bool) returns (out: seq<(Host, string)>)
      requires raft.states == states
      modifies this`logs, raft`currLogNum, disk`files, states`records
      ensures var w := old(Viewed(raft));
              Viewed(raft) == R.CommitLog(w.(currLogNum := Parse(num), logs := w.logs[num := update]), num, writable)
      ensures out == ToFollowers(states.nodes, states.selfIp, R.Line(num, update))
    {
      logs := logs[num := update];
      raft.currLogNum := Parse(num);
      out := raft.SendToFollowers("2;" + (num + ";" + update) + "\n");
      assert "2;" + (num + ";" + update) + "\n" == R.Line(num, update);
      CommitHandler(num, raft, writable);
    }

    /** `writeHandler`, with everything it sends to other nodes. */
    method WriteHandler(query: string, raft: Raft, writable: bool) returns (out: seq<(Host, string)>)
      requires raft.states == states
      modifies this`logs, this`logAck, raft`currLogNum, disk`files, states`records
      ensures Viewed(raft) == R.Handle(old(Viewed(raft)), query, writable).after
      ensures var e := R.Handle(old(Viewed(raft)), query, writable); var parts := R.Parts(query);
              out == if e.sent.Some? then ToFollowers(states.nodes, states.selfIp, e.sent.value)
                     else if parts[0] == "2" && |parts| >= 3 && !raft.leader
                     then [(Ip(states.leaderIp), "3;" + parts[1] + "\n")] else []
    {
      hide LStrip, RStrip, Split, Print, Parse, R.CommitLog, R.Line, ToFollowers;
      out := [];
      var parts := Split(Strip(query), ';');
      assert parts == R.Parts(query);
      if parts[0] == "1" {
        if |parts| >= 2 {
          out := WriteStarter(parts[1], Print(raft.currLogNum + 1), raft, writable);
        }
      } else if parts[0] == "2" {
        if |parts| >= 3 {
          var num, update := parts[1], parts[2];
          logs := logs[num := update];
          var f := Split(Strip(update), ',');
          if |f| == 3 && f[0] != "" && LowerChar(f[0][0]) in states.selfRecords {
            states.records := states.records[(Strip(f[0]), Strip(f[1])) := Strip(f[2])];
          }
          if !raft.leader { out := [(Ip(states.leaderIp), "3;" + num + "\n")]; }
        }
      } else if parts[0] == "3" {
        if |parts| >= 2 {
          logAck := logAck[parts[1] := (if parts[1] in logAck then logAck[parts[1]] else 0) + 1];
        }
      } else if parts[0] == "4" {
        if |parts| >= 2 { CommitHandler(parts[1], raft, writable); }
      }
    }

    /** `newRecord`. `resolved` is what live resolution gives, and `raft` is null until the first write message
        has arrived; without either the failure is caught and nothing changes. A name with an empty first
        field is logged and broadcast before its commit raises, so it is answered like a failure. */
    method NewRecord(domain: string, resolved: Option<string>, raft: Raft?, writable: bool)
        returns (answer: string, out: seq<(Host, string)>)
      requires raft != null ==> raft.states == states
      modifies this`logs, disk`files, states`records, (if raft == null then {} else {raft})`currLogNum
      ensures raft == null || resolved.None? ==>
                && answer == "N/A" && out == []
                && logs == old(logs) && disk.files == old(disk.files) && states.records == old(states.records)
                && (raft != null ==> raft.currLogNum == old(raft.currLogNum))
      ensures raft != null && resolved.Some? ==>
                var e := R.NewRecord(old(Viewed(raft)), domain, resolved.value, writable);
                && Viewed(raft) == e.after
                && out == ToFollowers(states.nodes, states.selfIp, e.sent.value)
                && answer == if Domain(domain + ",A," + resolved.value) == "" then "N/A" else resolved.value
    {
      if resolved.None? || raft == null { return "N/A", []; }
      var update := domain + ",A," + resolved.value;
      out := WriteStarter(update, Print(raft.currLogNum + 1), raft, writable);
      answer := if Domain(update) == "" then "N/A" else resolved.value;
    }
  }
}
