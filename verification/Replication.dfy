/** The write pipeline: log numbering on the leader, type-2 replication lines, and the followers' logs
    and tables (data_plane/write/_writer.py, `sendLog` in data_plane/raft/_raft.py). */
module Replication {
  import opened Text
  import opened Records
  import opened Storage

  /** A node's write-side state. */
  datatype Writer = Writer(
    currLogNum: nat,
    logs: map<string, string>,
    acks: map<string, nat>,
    store: Store,
    own: set<char>)

  /** The handler's effect and the line it sends to every other node, if any. */
  datatype Effect = Effect(after: Writer, sent: Option<string>)

  /** `'2;' + f'{num};{update}' + '\n'` */
  function Line(num: string, update: string): string {
    "2;" + num + ";" + update + "\n"
  }

  /** `commitHandler(num)`: an unknown number or an empty entry is reported and skipped. */
  function CommitLog(w: Writer, num: string, writable: bool): Writer {
    if num !in w.logs || w.logs[num] == "" then w
    else w.(store := Commit(w.store, w.logs[num], writable))
  }

  /** A new write: `currLogNum += 1`, `writeStarter`, `sendLog` and the leader's own commit. */
  function Begin(w: Writer, update: string, writable: bool): Effect {
    var num := Print(w.currLogNum + 1);
    var logged := w.(currLogNum := Parse(num), logs := w.logs[num := update]);
    Effect(CommitLog(logged, num, writable), Some(Line(num, update)))
  }

  /** The entry a follower stores for an update: exactly three fields and a letter of its own shards. */
  function ReplicaEntry(own: set<char>, update: string): Option<(Key, string)> {
    var f := Fields(update);
    if |f| == 3 && f[0] != "" && LowerChar(f[0][0]) in own
    then Some(((Strip(f[0]), Strip(f[1])), Strip(f[2]))) else None
  }

  /** A replicated log entry arriving at a follower. */
  function Replicate(w: Writer, num: string, update: string): Writer {
    w.(logs := w.logs[num := update],
       store := w.store.(records := Put(w.store.records, ReplicaEntry(w.own, update))))
  }

  function Acked(w: Writer, num: string): Writer {
    w.(acks := w.acks[num := (if num in w.acks then w.acks[num] else 0) + 1])
  }

  function Parts(query: string): (parts: seq<string>)
    ensures |parts| >= 1
  {
    Split(Strip(query), ';')
  }

  /** `writeHandler` */
  function Handle(w: Writer, query: string, writable: bool): Effect {
    var parts := Parts(query);
    if parts[0] == "1" && |parts| >= 2 then Begin(w, parts[1], writable)
    else if parts[0] == "2" && |parts| >= 3 then Effect(Replicate(w, parts[1], parts[2]), None)
    else if parts[0] == "3" && |parts| >= 2 then Effect(Acked(w, parts[1]), None)
    else if parts[0] == "4" && |parts| >= 2 then Effect(CommitLog(w, parts[1], writable), None)
    else Effect(w, None)
  }

  /** `newRecord` once the name has resolved to `ip`. */
  function NewRecord(w: Writer, domain: string, ip: string, writable: bool): Effect {
    Begin(w, domain + ",A," + ip, writable)
  }

  // ---------------------------------------------------------------- the line on the wire

  /** What `writeHandler` takes out of a type-2 line for the update that was put in. */
  function Wire(update: string): string {
    Split(RStrip(update), ';')[0]
  }

  lemma LineStripped(n: nat, update: string)
    ensures Strip(Line(Print(n), update)) == "2;" + Print(n) + ";" + RStrip(update)
  {
    var head := "2;" + Print(n) + ";";
    var line := Line(Print(n), update);
    assert line == head + (update + "\n");
    assert line[0] == '2' && head[|head| - 1] == ';';
    LStripId(line);
    RStripGlue(head, update + "\n");
    RStripDrop(update, "\n");
  }

  /** A type-2 line splits back into its number and the update as far as the wire carries it. */
  lemma LineParts(n: nat, update: string)
    ensures Parts(Line(Print(n), update)) == ["2", Print(n)] + Split(RStrip(update), ';')
  {
    hide Strip, RStrip, Split, Print;
    LineStripped(n, update);
    ParsePrint(n);
    var rest := RStrip(update);
    assert "2;" + Print(n) + ";" + rest == "2" + [';'] + (Print(n) + [';'] + rest);
    SplitCons("2", ';', Print(n) + [';'] + rest);
    SplitCons(Print(n), ';', rest);
  }

  /** The update survives the encode/split round trip exactly when it holds no `;` and no trailing space. */
  lemma WireExact(update: string)
    ensures Wire(update) == update <==> ';' !in update && (update == "" || !IsSpace(update[|update| - 1]))
  {
    var k := RStripShape(update);
    SplitHead(RStrip(update), ';');
    if ';' !in update {
      SplitNone(RStrip(update), ';');
      RStripId(RStrip(update));
    }
  }

  /** An update taken from a two-field client line is of that kind. */
  lemma ClientUpdateExact(query: string)
    requires |Parts(query)| == 2
    ensures Wire(Parts(query)[1]) == Parts(query)[1]
  {
    var s, u := Strip(query), Parts(query)[1];
    SplitClean(s, ';');
    SplitHead(s, ';');
    var h := Split(s, ';')[0];
    SplitCons(h, ';', s[|h| + 1..]);
    SplitHead(s[|h| + 1..], ';');
    var i, j := StripShape(query);
    assert u == s[|h| + 1..];
    WireExact(u);
  }

  // ---------------------------------------------------------------- one leader, many followers

  /** `sent[i]` is the i-th line the leader broadcast. Any line may reach any follower never, once,
      or many times, in any order. */
  datatype System = System(leader: Writer, followers: map<nat, Writer>, sent: seq<string>)

  datatype Event =
    | Client(query: string, writable: bool)                  // a line for the leader's write port
    | Live(domain: string, ip: string, writable: bool)       // a miss resolved by the leader
    | Arrive(follower: nat, i: nat)                          // sent[i] reaches a follower

  function Broadcast(s: System, e: Effect): System {
    s.(leader := e.after, sent := s.sent + (if e.sent.Some? then [e.sent.value] else []))
  }

  /** The leader is never sent a type-2 line: only the leader itself produces them. */
  function Step(s: System, e: Event): System {
    match e
    case Client(query, writable) =>
      if Parts(query)[0] == "2" then s else Broadcast(s, Handle(s.leader, query, writable))
    case Live(domain, ip, writable) =>
      Broadcast(s, NewRecord(s.leader, domain, ip, writable))
    case Arrive(f, i) =>
      if f in s.followers && i < |s.sent|
      then s.(followers := s.followers[f := Handle(s.followers[f], s.sent[i], true).after]) else s
  }

  function Run(s: System, events: seq<Event>): System {
    if events == [] then s else Step(Run(s, events[..|events| - 1]), events[|events| - 1])
  }

  predicate Initial(s: System) {
    && s.leader.currLogNum == 0 && s.leader.logs == map[] && s.sent == []
    && forall f :: f in s.followers ==> s.followers[f].logs == map[]
  }

  /** Log numbers are 1..currLogNum, each with one entry and one broadcast line. */
  predicate Numbered(s: System) {
    && |s.sent| == s.leader.currLogNum
    && (forall num :: num in s.leader.logs ==> 1 <= Parse(num) <= s.leader.currLogNum && num == Print(Parse(num)))
    && (forall i :: 0 <= i < |s.sent| ==> Logged(s.leader.logs, i + 1, s.sent[i]))
  }

  predicate Logged(logs: map<string, string>, n: nat, line: string) {
    Print(n) in logs && line == Line(Print(n), logs[Print(n)])
  }

  /** Every entry of a follower's log is the leader's entry as the wire carries it. */
  predicate Mirrors(w: Writer, leader: Writer) {
    forall num :: num in w.logs ==> num in leader.logs && w.logs[num] == Wire(leader.logs[num])
  }

  predicate AllMirror(s: System) {
    forall f :: f in s.followers ==> Mirrors(s.followers[f], s.leader)
  }

  lemma StillLogged(logs: map<string, string>, n: nat, line: string, m: nat, update: string)
    requires Logged(logs, n, line) && n != m
    ensures Logged(logs[Print(m) := update], n, line)
  {
    hide Print, Line;
    ParsePrint(n);
    ParsePrint(m);
  }

  /** A write takes the next number, which no earlier entry has, and leaves those entries alone. */
  lemma BeginNumbers(s: System, update: string, writable: bool)
    requires Numbered(s) && AllMirror(s)
    ensures var s' := Broadcast(s, Begin(s.leader, update, writable)); var n := s.leader.currLogNum + 1;
            && Numbered(s') && AllMirror(s') && s'.leader.currLogNum == n
            && Print(n) !in s.leader.logs && s'.leader.logs == s.leader.logs[Print(n) := update]
  {
    hide Print, Parse, Line, Commit, Wire, Logged;
    var n := s.leader.currLogNum + 1;
    ParsePrint(n);
    var s' := Broadcast(s, Begin(s.leader, update, writable));
    assert s'.leader.logs == s.leader.logs[Print(n) := update];
    forall i | 0 <= i < |s'.sent| ensures Logged(s'.leader.logs, i + 1, s'.sent[i]) {
      if i < |s.sent| {
        assert Logged(s.leader.logs, i + 1, s.sent[i]);
        StillLogged(s.leader.logs, i + 1, s.sent[i], n, update);
      } else {
        FreshlyLogged(s.leader.logs, n, update);
      }
    }
  }

  lemma FreshlyLogged(logs: map<string, string>, n: nat, update: string)
    ensures Logged(logs[Print(n) := update], n, Line(Print(n), update))
  {
  }

  lemma LineReplicates(w: Writer, n: nat, update: string)
    ensures Handle(w, Line(Print(n), update), true) == Effect(Replicate(w, Print(n), Wire(update)), None)
  {
    hide Split, RStrip, Replicate, Parts, Line;
    LineParts(n, update);
  }

  /** A client line either starts a write or leaves the log, its number and the network alone. */
  lemma ClientEffect(w: Writer, query: string, writable: bool)
    requires Parts(query)[0] != "2"
    ensures (Parts(query)[0] == "1" && |Parts(query)| >= 2
             && Handle(w, query, writable) == Begin(w, Parts(query)[1], writable))
         || (Handle(w, query, writable).sent == None
             && Handle(w, query, writable).after.logs == w.logs
             && Handle(w, query, writable).after.currLogNum == w.currLogNum)
  {
    hide Parts, Begin, Commit;
  }

  lemma ArriveKeeps(s: System, f: nat, i: nat)
    requires Numbered(s) && AllMirror(s) && f in s.followers && i < |s.sent|
    ensures AllMirror(Step(s, Arrive(f, i))) && Step(s, Arrive(f, i)).leader == s.leader
    ensures Step(s, Arrive(f, i)).sent == s.sent
  {
    hide Print, Handle, Wire, Line;
    assert Logged(s.leader.logs, i + 1, s.sent[i]);
    LineReplicates(s.followers[f], i + 1, s.leader.logs[Print(i + 1)]);
  }

  lemma StepKeeps(s: System, e: Event)
    requires Numbered(s) && AllMirror(s)
    ensures Numbered(Step(s, e)) && AllMirror(Step(s, e))
    ensures forall num :: num in s.leader.logs ==>
              num in Step(s, e).leader.logs && Step(s, e).leader.logs[num] == s.leader.logs[num]
  {
    hide Parts, Print, Parse, Handle, Begin, Wire, Logged;
    match e
    case Client(query, writable) =>
      if Parts(query)[0] != "2" {
        ClientEffect(s.leader, query, writable);
        BeginNumbers(s, if |Parts(query)| >= 2 then Parts(query)[1] else "", writable);
      }
    case Live(domain, ip, writable) =>
      BeginNumbers(s, domain + ",A," + ip, writable);
    case Arrive(f, i) =>
      if f in s.followers && i < |s.sent| { ArriveKeeps(s, f, i); }
  }

  /** With one leader receiving all writes: log numbers are 1, 2, 3, ... with no gap, entries are never
      overwritten, and under any loss, duplication and reordering of the replication lines every
      follower's log is the leader's log, entry by entry, as the wire carries it. */
  lemma {:induction false} FollowersMirror(s: System, events: seq<Event>)
    requires Initial(s)
    ensures Numbered(Run(s, events)) && AllMirror(Run(s, events))
  {
    hide Step, Print, Parse, Line, Wire;
    if events != [] {
      FollowersMirror(s, events[..|events| - 1]);
      StepKeeps(Run(s, events[..|events| - 1]), events[|events| - 1]);
    }
  }

  lemma {:induction false} LogGrows(s: System, events: seq<Event>, more: seq<Event>, num: string)
    requires Initial(s) && num in Run(s, events).leader.logs
    ensures num in Run(s, events + more).leader.logs
    ensures Run(s, events + more).leader.logs[num] == Run(s, events).leader.logs[num]
  {
    hide Step, Numbered, AllMirror;
    if more == [] {
      assert events + more == events;
    } else {
      var all := events + more;
      assert all[..|all| - 1] == events + more[..|more| - 1];
      LogGrows(s, events, more[..|more| - 1], num);
      FollowersMirror(s, all[..|all| - 1]);
      StepKeeps(Run(s, all[..|all| - 1]), all[|all| - 1]);
    }
  }

  // ---------------------------------------------------------------- the writes of a run

  datatype Write = Write(update: string, writable: bool)

  /** The write an event starts on the leader, if any. */
  function WriteOf(e: Event): Option<Write> {
    match e
    case Client(query, writable) =>
      if Parts(query)[0] == "1" && |Parts(query)| >= 2 then Some(Write(Parts(query)[1], writable)) else None
    case Live(domain, ip, writable) => Some(Write(domain + ",A," + ip, writable))
    case Arrive(_, _) => None
  }

  function Writes(events: seq<Event>): seq<Write> {
    if events == [] then []
    else
      var w := WriteOf(events[|events| - 1]);
      Writes(events[..|events| - 1]) + (if w.Some? then [w.value] else [])
  }

  lemma {:induction false} WritesConcat(a: seq<Event>, b: seq<Event>)
    ensures Writes(a + b) == Writes(a) + Writes(b)
  {
    hide WriteOf;
    if b == [] {
      assert a + b == a;
    } else {
      assert (a + b)[..|a + b| - 1] == a + b[..|b| - 1];
      WritesConcat(a, b[..|b| - 1]);
    }
  }

  /** What an event does to the leader: its write, if it starts one, and else nothing to the log. */
  lemma StepWrites(s: System, e: Event)
    ensures match WriteOf(e)
            case Some(w) => Step(s, e) == Broadcast(s, Begin(s.leader, w.update, w.writable))
            case None => Step(s, e).leader.logs == s.leader.logs && Step(s, e).leader.currLogNum == s.leader.currLogNum
  {
    hide Parts, Begin, Commit;
    if e.Client? && Parts(e.query)[0] != "2" { ClientEffect(s.leader, e.query, e.writable); }
  }

  /** The n-th write of a run has log number n, and nothing else is logged. */
  lemma {:induction false} LogIsWrites(s: System, events: seq<Event>)
    requires Initial(s)
    ensures Run(s, events).leader.currLogNum == |Writes(events)|
    ensures Run(s, events).leader.logs.Keys == set i | 0 <= i < |Writes(events)| :: NumKey(i)
    ensures forall i :: 0 <= i < |Writes(events)| ==>
              NumKey(i) in Run(s, events).leader.logs
              && Run(s, events).leader.logs[NumKey(i)] == Writes(events)[i].update
  {
    hide Step, Numbered, AllMirror, WriteOf, NumKey, Broadcast, Begin;
    if events != [] {
      var init, e := events[..|events| - 1], events[|events| - 1];
      var t := Run(s, init);
      LogIsWrites(s, init);
      FollowersMirror(s, init);
      StepWrites(t, e);
      match WriteOf(e)
      case Some(w) =>
        BeginNumbers(t, w.update, w.writable);
        NextKey(t.leader.currLogNum);
      case None =>
    }
  }

  lemma NextKey(n: nat)
    ensures NumKey(n) == Print(n + 1)
    ensures forall i: nat :: i != n ==> NumKey(i) != NumKey(n)
  {
    forall i: nat | i != n ensures NumKey(i) != NumKey(n) {
      ParsePrint(i + 1);
      ParsePrint(n + 1);
    }
  }

  /** A write whose update survives the wire: a client line without further parts, or a name and an address
      without semicolons and trailing blanks. */
  predicate Tidy(e: Event) {
    match e
    case Client(query, _) => Parts(query)[0] == "1" ==> |Parts(query)| <= 2
    case Live(domain, ip, _) => ';' !in domain && ';' !in ip && (ip == "" || !IsSpace(ip[|ip| - 1]))
    case Arrive(_, _) => true
  }

  lemma TidyExact(e: Event)
    requires Tidy(e) && WriteOf(e).Some?
    ensures Wire(WriteOf(e).value.update) == WriteOf(e).value.update && ';' !in WriteOf(e).value.update
  {
    hide Wire, Split, Strip;
    WireExact(WriteOf(e).value.update);
    if e.Client? { ClientUpdateExact(e.query); }
  }

  lemma {:induction false} TidyWrites(events: seq<Event>)
    requires forall i :: 0 <= i < |events| ==> Tidy(events[i])
    ensures forall i :: 0 <= i < |Writes(events)| ==>
              Wire(Writes(events)[i].update) == Writes(events)[i].update && ';' !in Writes(events)[i].update
  {
    hide Tidy, WriteOf, Wire;
    if events != [] {
      TidyWrites(events[..|events| - 1]);
      if WriteOf(events[|events| - 1]).Some? { TidyExact(events[|events| - 1]); }
    }
  }

  /** When all writes are tidy, every follower's log is a sub-map of the leader's. */
  lemma FollowersSubMap(s: System, events: seq<Event>, f: nat)
    requires Initial(s) && f in Run(s, events).followers
    requires forall i :: 0 <= i < |events| ==> Tidy(events[i])
    ensures var w, l := Run(s, events).followers[f].logs, Run(s, events).leader.logs;
            forall num :: num in w ==> num in l && w[num] == l[num]
  {
    hide Run, Wire, Numbered, Tidy, Writes, NumKey;
    FollowersMirror(s, events);
    LogIsWrites(s, events);
    TidyWrites(events);
    assert Mirrors(Run(s, events).followers[f], Run(s, events).leader);
  }

  // ---------------------------------------------------------------- tables agree after in-order delivery

  /** The entry the leader's own commit stores. */
  function LeaderEntry(update: string): Option<(Key, string)> {
    if Committable(update) then Some((UpdateKey(update), Address(update))) else None
  }

  /** Leader and follower store the same entry for an update of the follower's shards, exactly when it
      has three fields: the leader also commits longer ones. */
  lemma EntriesAgree(own: set<char>, update: string)
    requires ';' !in update && Committable(update) && Home(Domain(update)) in own
    ensures ReplicaEntry(own, Wire(update)) == LeaderEntry(update) <==> |Fields(update)| == 3
  {
    WireFields(update);
    FieldHead(update);
  }

  /** An update of four or more fields is committed by the leader and ignored by every follower. */
  lemma LongUpdateSplits(own: set<char>, d: string, t: string, ip: string, rest: string)
    requires Trimmed(d) && Trimmed(t) && Trimmed(ip) && d != "" && rest != "" && !IsSpace(rest[|rest| - 1])
    requires ',' !in d && ',' !in t && ',' !in ip && ';' !in d + "," + t + "," + ip + "," + rest
    ensures var u := d + "," + t + "," + ip + "," + rest;
            LeaderEntry(u) == Some(((d, t), ip)) && ReplicaEntry(own, Wire(u)) == None
  {
    hide Fields, Domain, RType, Address, Wire;
    MoreFields(d, t, ip, rest);
    WireFields(d + "," + t + "," + ip + "," + rest);
  }

  lemma WireFields(update: string)
    requires ';' !in update
    ensures Fields(Wire(update)) == Fields(update)
  {
    var k := RStripShape(update);
    SplitNone(RStrip(update), ';');
    assert update == "" + update[..k] + update[k..];
    StripMargins("", update[..k], update[k..]);
  }

  /** The first field starts with the domain's first letter. */
  lemma FieldHead(update: string)
    ensures Domain(update) != "" <==> Fields(update)[0] != ""
    ensures Domain(update) != "" ==> Domain(update)[0] == Fields(update)[0][0]
  {
    var i, j := StripShape(update);
    var s := Strip(update);
    SplitHead(s, ',');
    var h := Split(s, ',')[0];
    if h != "" {
      assert h[0] == s[0];
      StripHead(h);
    }
  }

  function Fold(records: Table, entries: seq<Option<(Key, string)>>): Table {
    if entries == [] then records
    else Put(Fold(records, entries[..|entries| - 1]), entries[|entries| - 1])
  }

  function ReplicaEntries(own: set<char>, log: seq<string>): (r: seq<Option<(Key, string)>>)
    ensures |r| == |log|
  {
    seq(|log|, i requires 0 <= i < |log| => ReplicaEntry(own, Wire(log[i])))
  }

  /** Entries 1..n are logged. */
  predicate Filled(logs: map<string, string>, n: nat) {
    forall i :: 0 <= i < n ==> NumKey(i) in logs
  }

  /** The key of the i-th log entry. */
  function NumKey(i: nat): string {
    Print(i + 1)
  }

  /** The first n logged updates, in order. */
  function LogOf(logs: map<string, string>, n: nat): (log: seq<string>)
    requires Filled(logs, n)
    ensures |log| == n
  {
    seq(n, i requires 0 <= i < n => logs[NumKey(i)])
  }

  lemma NumberedFilled(s: System)
    requires Numbered(s)
    ensures Filled(s.leader.logs, s.leader.currLogNum)
  {
    hide Print, Line, Parse;
    forall i | 0 <= i < |s.sent| ensures NumKey(i) in s.leader.logs {
      assert Logged(s.leader.logs, i + 1, s.sent[i]);
    }
  }

  /** How many lines have reached f. */
  function Received(events: seq<Event>, f: nat): nat {
    if events == [] then 0
    else
      var e := events[|events| - 1];
      Received(events[..|events| - 1], f) + (if e.Arrive? && e.follower == f then 1 else 0)
  }

  /** Every line that reaches f is the next one in sending order: no loss, no repetition. */
  predicate InOrder(s: System, events: seq<Event>, f: nat) {
    events == [] ||
    (var init, e := events[..|events| - 1], events[|events| - 1];
     InOrder(s, init, f) &&
     (e.Arrive? && e.follower == f ==> e.i == Received(init, f) < |Run(s, init).sent|))
  }

  lemma {:induction false} ReceivedBounded(s: System, events: seq<Event>, f: nat)
    requires Initial(s) && InOrder(s, events, f)
    ensures Received(events, f) <= |Run(s, events).sent|
  {
    hide Handle, NewRecord, Parts;
    if events != [] {
      ReceivedBounded(s, events[..|events| - 1], f);
    }
  }

  lemma LogStable(logs: map<string, string>, logs': map<string, string>, n: nat)
    requires Filled(logs, n)
    requires forall num :: num in logs ==> num in logs' && logs'[num] == logs[num]
    ensures Filled(logs', n) && LogOf(logs', n) == LogOf(logs, n)
  {
    hide Print;
  }

  /** One more line in order. */
  lemma ReplayStep(s: System, f: nat, i: nat, start: Table)
    requires Numbered(s) && f in s.followers && i < |s.sent| && Filled(s.leader.logs, i + 1) && Filled(s.leader.logs, i)
    requires s.followers[f].store.records == Fold(start, ReplicaEntries(s.followers[f].own, LogOf(s.leader.logs, i)))
    ensures var w := Step(s, Arrive(f, i)).followers[f];
            && w.own == s.followers[f].own
            && w.store.records == Fold(start, ReplicaEntries(w.own, LogOf(s.leader.logs, i + 1)))
  {
    hide Print, Parse, Line, Handle, Wire, ReplicaEntry;
    var log, own := LogOf(s.leader.logs, i + 1), s.followers[f].own;
    assert Logged(s.leader.logs, i + 1, s.sent[i]);
    LineReplicates(s.followers[f], i + 1, log[i]);
    var es := ReplicaEntries(own, log);
    assert log[..i] == LogOf(s.leader.logs, i);
    assert es[..i] == ReplicaEntries(own, log[..i]);
  }

  /** In every run whose lines reach f in order and without loss, f's table is its starting table folded
      with the delivered prefix of the leader's log, restricted to f's own shards. */
  lemma {:induction false} ReplicaFolds(s: System, events: seq<Event>, f: nat)
    requires Initial(s) && InOrder(s, events, f) && f in s.followers
    ensures f in Run(s, events).followers && Run(s, events).followers[f].own == s.followers[f].own
    ensures Filled(Run(s, events).leader.logs, Received(events, f))
    ensures Run(s, events).followers[f].store.records
         == Fold(s.followers[f].store.records,
                 ReplicaEntries(s.followers[f].own, LogOf(Run(s, events).leader.logs, Received(events, f))))
  {
    hide Numbered, AllMirror, Handle, NewRecord, Parts, ReplicaEntries, Filled, LogOf, Broadcast;
    if events == [] {
      NothingReplicated(s.followers[f].own);
    } else {
      var init, e := events[..|events| - 1], events[|events| - 1];
      var t := Run(s, init);
      ReplicaFolds(s, init, f);
      FollowersMirror(s, init);
      FollowersMirror(s, events);
      StepKeeps(t, e);
      var n := Received(init, f);
      LogStable(t.leader.logs, Run(s, events).leader.logs, n);
      if e.Arrive? && e.follower == f {
        NumberedFilled(t);
        ReceivedBounded(s, init, f);
        FilledPrefix(t, n + 1);
        ReplayStep(t, f, n, s.followers[f].store.records);
      } else {
        OthersUntouched(t, e, f);
      }
    }
  }

  lemma NothingReplicated(own: set<char>)
    ensures Filled(map[], 0) && ReplicaEntries(own, LogOf(map[], 0)) == []
  {
  }

  lemma FilledPrefix(s: System, n: nat)
    requires Numbered(s) && n <= |s.sent|
    ensures Filled(s.leader.logs, n)
  {
    hide Print;
    NumberedFilled(s);
  }

  lemma OthersUntouched(s: System, e: Event, f: nat)
    requires f in s.followers && !(e.Arrive? && e.follower == f)
    ensures f in Step(s, e).followers && Step(s, e).followers[f] == s.followers[f]
  {
    hide Handle, NewRecord, Parts;
  }

  /** The entry a write stores on the leader: none when the file cannot be written. */
  function Stored(w: Write): Option<(Key, string)> {
    if w.writable then LeaderEntry(w.update) else None
  }

  function StoredEntries(ws: seq<Write>): (r: seq<Option<(Key, string)>>)
    ensures |r| == |ws|
  {
    seq(|ws|, i requires 0 <= i < |ws| => Stored(ws[i]))
  }

  lemma BeginStores(w: Writer, update: string, writable: bool)
    ensures Begin(w, update, writable).after.store.records == Put(w.store.records, Stored(Write(update, writable)))
  {
    hide Committed, Fields, Print, Parse, Domain, Strip;
    if update == "" { NothingCommittable(); }
  }

  lemma NothingCommittable()
    ensures !Committable("")
  {
  }

  /** No type-4 line, which would commit an old entry again, reaches the leader. */
  predicate NoReplay(events: seq<Event>) {
    forall i :: 0 <= i < |events| && events[i].Client? ==> Parts(events[i].query)[0] != "4"
  }

  lemma QuietStep(s: System, e: Event)
    requires WriteOf(e) == None && (e.Client? ==> Parts(e.query)[0] != "4")
    ensures Step(s, e).leader.store == s.leader.store
  {
    hide Parts, Begin, CommitLog;
  }

  /** The leader's table is its starting table folded with all its writes. */
  lemma {:induction false} LeaderFolds(s: System, events: seq<Event>)
    requires Initial(s) && NoReplay(events)
    ensures Run(s, events).leader.store.records == Fold(s.leader.store.records, StoredEntries(Writes(events)))
  {
    hide Step, WriteOf, Begin, Stored, Put;
    if events != [] {
      var init, e := events[..|events| - 1], events[|events| - 1];
      var t, ws, es := Run(s, init), Writes(events), StoredEntries(Writes(events));
      LeaderFolds(s, init);
      StepWrites(t, e);
      match WriteOf(e)
      case Some(w) =>
        BeginStores(t.leader, w.update, w.writable);
        assert es[..|es| - 1] == StoredEntries(Writes(init));
      case None =>
        assert ws == Writes(init);
        QuietStep(t, e);
    }
  }

  predicate Sets(e: Option<(Key, string)>, k: Key) {
    e.Some? && e.value.0 == k
  }

  /** A folded table holds, for every key, the last entry that sets it. */
  lemma {:induction false} FoldLast(t: Table, es: seq<Option<(Key, string)>>, i: nat, k: Key)
    requires i < |es| && Sets(es[i], k) && forall j :: i < j < |es| ==> !Sets(es[j], k)
    ensures k in Fold(t, es) && Fold(t, es)[k] == es[i].value.1
  {
    var n := |es| - 1;
    if i < n { FoldLast(t, es[..n], i, k); }
  }

  // ---------------------------------------------------------------- what followers make of an update

  /** The first part, and what follows its delimiter. */
  lemma SplitOff(m: string, t: string, d: char) returns (rest: string)
    requires |Split(m, d)| >= 2
    ensures Split(m, d) == [Split(m, d)[0]] + Split(rest, d)
    ensures Split(m + t, d) == [Split(m, d)[0]] + Split(rest + t, d)
  {
    SplitHead(m, d);
    hide Split;
    var a := Split(m, d)[0];
    rest := m[|a| + 1..];
    SplitCons(a, d, rest);
    assert m + t == a + [d] + (rest + t);
    SplitCons(a, d, rest + t);
  }

  /** Text behind the second delimiter does not reach the first two parts. */
  lemma SplitTwo(m: string, t: string, d: char)
    requires |Split(m, d)| >= 3
    ensures |Split(m + t, d)| >= 3 && Split(m + t, d)[0] == Split(m, d)[0] && Split(m + t, d)[1] == Split(m, d)[1]
  {
    hide Split;
    var rest := SplitOff(m, t, d);
    var last := SplitOff(rest, t, d);
  }

  /** Stripping a text that ends in no space keeps the stripped front and all that follows it. */
  lemma StripFront(h: string, rest: string) returns (cut: string)
    requires !Blank(h) && rest != "" && !IsSpace(rest[|rest| - 1])
    ensures Strip(h + rest) == Strip(h) + cut
  {
    hide Strip;
    StripNonBlank(h);
    var i, j := StripShape(h);
    cut := h[j..] + rest;
    var core := h[i..j] + cut;
    assert core[0] == h[i..j][0] && core[|core| - 1] == rest[|rest| - 1];
    assert h + rest == h[..i] + core + "";
    StripCore(h[..i], core, "");
  }

  /** What the wire cuts off an update lies behind what a follower sees of it. */
  lemma WirePrefix(update: string) returns (cut: string)
    requires !Blank(Wire(update))
    ensures Strip(update) == Strip(Wire(update)) + cut
  {
    var r, h := RStrip(update), Wire(update);
    var k := RStripShape(update);
    SplitHead(r, ';');
    hide RStrip, Split, Strip, Blank;
    StripRight(update);
    assert r == h + r[|h|..];
    if |h| == |r| {
      cut := "";
    } else {
      cut := StripFront(h, r[|h|..]);
    }
  }

  /** Whatever key a follower sets for an update, the leader sets as well. */
  lemma ReplicaSets(own: set<char>, update: string, k: Key)
    requires Sets(ReplicaEntry(own, Wire(update)), k)
    ensures Committable(update) && UpdateKey(update) == k
  {
    var h := Wire(update);
    hide Wire, Strip;
    NotBlank(h);
    var cut := WirePrefix(update);
    SplitTwo(Strip(h), cut, ',');
    FieldHead(h);
  }

  lemma NotBlank(h: string)
    ensures |Fields(h)| >= 3 ==> !Blank(h)
  {
    if Blank(h) { BlankStrip(h); }
  }

  /** Write i is the last one of the key. */
  predicate LastWrite(ws: seq<Write>, k: Key, i: nat) {
    && i < |ws| && Writing(ws[i].update, k)
    && forall j :: i < j < |ws| ==> !Writing(ws[j].update, k)
  }

  predicate Writing(update: string, k: Key) {
    Committable(update) && UpdateKey(update) == k
  }

  function Updates(ws: seq<Write>): (r: seq<string>)
    ensures |r| == |ws|
  {
    seq(|ws|, i requires 0 <= i < |ws| => ws[i].update)
  }

  /** On the leader the last write of a key decides, if its file write succeeds. */
  lemma LeaderHolds(s: System, events: seq<Event>, k: Key, i: nat)
    requires Initial(s) && NoReplay(events) && LastWrite(Writes(events), k, i) && Writes(events)[i].writable
    ensures var t := Run(s, events).leader.store.records;
            k in t && t[k] == Address(Writes(events)[i].update)
  {
    hide Run, Writes, NoReplay, Committable, UpdateKey, Address;
    LeaderFolds(s, events);
    var es := StoredEntries(Writes(events));
    assert forall j :: i < j < |es| ==> !Sets(es[j], k);
    FoldLast(s.leader.store.records, es, i, k);
  }

  /** On a follower that owns the key's letter and has received every line in order, the last write of the key
      decides, if it has three fields and no semicolon. */
  lemma OwnerHolds(s: System, events: seq<Event>, f: nat, k: Key, i: nat)
    requires Initial(s) && f in s.followers && InOrder(s, events, f) && Received(events, f) == |Writes(events)|
    requires LastWrite(Writes(events), k, i) && Home(k.0) in s.followers[f].own
    requires ';' !in Writes(events)[i].update && |Fields(Writes(events)[i].update)| == 3
    ensures f in Run(s, events).followers
    ensures var t := Run(s, events).followers[f].store.records;
            k in t && t[k] == Address(Writes(events)[i].update)
  {
    hide Run, Writes, InOrder, Received, Wire, ReplicaEntry, NumKey, Numbered, AllMirror, Fields;
    var ws, own := Writes(events), s.followers[f].own;
    LogIsWrites(s, events);
    ReplicaFolds(s, events, f);
    var log := LogOf(Run(s, events).leader.logs, |ws|);
    assert log == Updates(ws);
    EntriesAgree(own, log[i]);
    forall j | i < j < |ws| ensures !Sets(ReplicaEntry(own, Wire(log[j])), k) {
      if Sets(ReplicaEntry(own, Wire(log[j])), k) { ReplicaSets(own, log[j], k); }
    }
    FoldLast(s.followers[f].store.records, ReplicaEntries(own, log), i, k);
  }

  /** Once every line has reached a follower in order, it and the leader hold the address of the last
      write of every key of its shards, whatever tables the two started from and whatever else was written. */
  lemma OwnerAndLeaderAgree(s: System, events: seq<Event>, f: nat, k: Key, i: nat)
    requires Initial(s) && NoReplay(events) && f in s.followers
    requires InOrder(s, events, f) && Received(events, f) == |Writes(events)|
    requires LastWrite(Writes(events), k, i) && Home(k.0) in s.followers[f].own
    requires var w := Writes(events)[i]; w.writable && ';' !in w.update && |Fields(w.update)| == 3
    ensures f in Run(s, events).followers
    ensures var a, b := Run(s, events).leader.store.records, Run(s, events).followers[f].store.records;
            k in a && k in b && a[k] == b[k] == Address(Writes(events)[i].update)
  {
    hide Run, Writes, InOrder, Received, LastWrite, Fields, NoReplay;
    LeaderHolds(s, events, k, i);
    OwnerHolds(s, events, f, k, i);
  }

  // ---------------------------------------------------------------- the leader's files

  /** `num` is one of the log numbers 1..n, as they are printed. */
  predicate IsNumber(num: string, n: nat) {
    1 <= Parse(num) <= n && Print(Parse(num)) == num
  }

  /** What an event makes the leader commit: its write, or the old entry that a type-4 line names. */
  function CommitOf(before: seq<Event>, e: Event): seq<(string, bool)> {
    if WriteOf(e).Some? then [(WriteOf(e).value.update, WriteOf(e).value.writable)]
    else if e.Client? && Parts(e.query)[0] == "4" && |Parts(e.query)| >= 2
            && IsNumber(Parts(e.query)[1], |Writes(before)|)
    then [(Writes(before)[Parse(Parts(e.query)[1]) - 1].update, e.writable)]
    else []
  }

  /** Everything the leader commits in a run, in order. */
  function Commits(events: seq<Event>): seq<(string, bool)> {
    if events == [] then []
    else
      var init := events[..|events| - 1];
      Commits(init) + CommitOf(init, events[|events| - 1])
  }

  lemma BeginCommits(w: Writer, update: string, writable: bool)
    ensures Begin(w, update, writable).after.store == Commit(w.store, update, writable)
  {
    hide Committed, Fields, Print, Parse, Domain, Strip;
    if update == "" { NothingCommittable(); }
  }

  lemma CommitLogCommits(w: Writer, num: string, writable: bool)
    ensures CommitLog(w, num, writable).store
         == if num in w.logs then Commit(w.store, w.logs[num], writable) else w.store
  {
    hide Committed, Fields, Domain;
    NothingCommittable();
  }

  lemma QuietCommits(s: System, e: Event)
    requires WriteOf(e).None?
    ensures Step(s, e).leader.store
         == if e.Client? && Parts(e.query)[0] == "4" && |Parts(e.query)| >= 2
            then CommitLog(s.leader, Parts(e.query)[1], e.writable).store else s.leader.store
  {
    hide Parts, Begin, CommitLog;
  }

  lemma NumberKey(num: string, n: nat)
    ensures IsNumber(num, n) ==> NumKey(Parse(num) - 1) == num
    ensures (exists i :: 0 <= i < n && NumKey(i) == num) ==> IsNumber(num, n)
  {
    hide Print, Parse;
    if i :| 0 <= i < n && NumKey(i) == num { ParsePrint(i + 1); }
  }

  lemma StepCommits(s: System, init: seq<Event>, e: Event)
    requires Initial(s)
    ensures Run(s, init + [e]).leader.store == CommitAll(Run(s, init).leader.store, CommitOf(init, e))
  {
    hide Step, Run, WriteOf, Commit, CommitLog, Begin, Parts, IsNumber, NumKey, Writes, Broadcast, Parse;
    assert (init + [e])[..|init|] == init;
    RunUnrolls(s, init, e);
    var t := Run(s, init);
    StepWrites(t, e);
    if WriteOf(e).Some? {
      var w := WriteOf(e).value;
      BeginCommits(t.leader, w.update, w.writable);
      BroadcastLeader(t, Begin(t.leader, w.update, w.writable));
      CommitOne(t.leader.store, w.update, w.writable);
    } else {
      QuietCommits(t, e);
      if e.Client? && Parts(e.query)[0] == "4" && |Parts(e.query)| >= 2 {
        var num := Parts(e.query)[1];
        CommitLogCommits(t.leader, num, e.writable);
        LogIsWrites(s, init);
        NumberKey(num, |Writes(init)|);
        if IsNumber(num, |Writes(init)|) {
          NumberBounds(num, |Writes(init)|);
          CommitOne(t.leader.store, Writes(init)[Parse(num) - 1].update, e.writable);
        }
      }
    }
  }

  lemma NumberBounds(num: string, n: nat)
    requires IsNumber(num, n)
    ensures 1 <= Parse(num) <= n
  {
  }

  lemma RunUnrolls(s: System, init: seq<Event>, e: Event)
    ensures Run(s, init + [e]) == Step(Run(s, init), e)
  {
    assert (init + [e])[..|init|] == init;
  }

  lemma BroadcastLeader(s: System, e: Effect)
    ensures Broadcast(s, e).leader == e.after
  {
  }

  lemma CommitOne(s: Store, update: string, writable: bool)
    ensures CommitAll(s, [(update, writable)]) == Commit(s, update, writable)
  {
    assert [(update, writable)][..0] == [];
  }

  lemma {:induction false} CommitAllConcat(s: Store, a: seq<(string, bool)>, b: seq<(string, bool)>)
    ensures CommitAll(s, a + b) == CommitAll(CommitAll(s, a), b)
  {
    hide Commit;
    if b == [] {
      assert a + b == a;
    } else {
      assert (a + b)[..|a + b| - 1] == a + b[..|b| - 1];
      CommitAllConcat(s, a, b[..|b| - 1]);
    }
  }

  /** In every run, the leader's files and table are its starting ones after all its commits, in order: those of
      its writes and those that type-4 lines repeat. */
  lemma {:induction false} LeaderStore(s: System, events: seq<Event>)
    requires Initial(s)
    ensures Run(s, events).leader.store == CommitAll(s.leader.store, Commits(events))
  {
    hide Step, CommitOf, Commit;
    if events != [] {
      var init, e := events[..|events| - 1], events[|events| - 1];
      assert events == init + [e];
      LeaderStore(s, init);
      StepCommits(s, init, e);
      CommitAllConcat(s.leader.store, Commits(init), CommitOf(init, e));
    }
  }

  predicate Written(ws: seq<Write>, update: string) {
    exists j :: 0 <= j < |ws| && ws[j].update == update
  }

  lemma CommitIsWrite(init: seq<Event>, e: Event, c: (string, bool))
    requires c in CommitOf(init, e)
    ensures Written(Writes(init + [e]), c.0)
  {
    hide WriteOf, Parts, IsNumber;
    assert (init + [e])[..|init|] == init;
    var ws := Writes(init + [e]);
    if WriteOf(e).Some? {
      assert ws[|Writes(init)|].update == c.0;
    } else {
      NumberBounds(Parts(e.query)[1], |Writes(init)|);
      assert ws[Parse(Parts(e.query)[1]) - 1].update == c.0;
    }
  }

  lemma WrittenStays(init: seq<Event>, e: Event, update: string)
    requires Written(Writes(init), update)
    ensures Written(Writes(init + [e]), update)
  {
    hide WriteOf;
    assert (init + [e])[..|init|] == init;
    var j :| 0 <= j < |Writes(init)| && Writes(init)[j].update == update;
    assert Writes(init + [e])[j] == Writes(init)[j];
  }

  /** Only what was written is ever committed. */
  lemma {:induction false} CommitsAreWrites(events: seq<Event>, c: (string, bool))
    requires c in Commits(events)
    ensures Written(Writes(events), c.0)
  {
    hide CommitOf, Written, Writes;
    var init, e := events[..|events| - 1], events[|events| - 1];
    assert events == init + [e];
    if c in Commits(init) {
      CommitsAreWrites(init, c);
      WrittenStays(init, e, c.0);
    } else {
      CommitIsWrite(init, e, c);
    }
  }

  /** The leader has loaded its files, each line of them filed under its letter with one type per domain, and
      all writes are of that kind. */
  predicate Loaded(s: System, events: seq<Event>, own: set<char>, order: seq<char>, typeOf: string -> string) {
    && AllKept(s.leader.store.files, typeOf)
    && s.leader.store.records == LoadAll(s.leader.store.files, order)
    && (forall c :: c in own ==> !IsSpace(c) && c in order)
    && forall i :: 0 <= i < |Writes(events)| ==> Regular(Writes(events)[i].update, typeOf)
  }

  /** After any run of the write pipeline, with any file writes failing and any old entries committed again, the
      leader answers every query as it would after a restart that reloads its files in any order. */
  lemma LeaderRestarts(s: System, events: seq<Event>, own: set<char>, order: seq<char>, reorder: seq<char>,
                       typeOf: string -> string, domain: string, rtype: string)
    requires Initial(s) && Loaded(s, events, own, order, typeOf) && forall c :: c in own ==> c in reorder
    ensures var after := Run(s, events).leader.store;
            Respond(after.records, own, domain, rtype) == Respond(LoadAll(after.files, reorder), own, domain, rtype)
  {
    hide Run, Commits, CommitAll, LoadAll, Respond, Regular, Writes, AllKept;
    LeaderStore(s, events);
    forall i | 0 <= i < |Commits(events)| ensures Regular(Commits(events)[i].0, typeOf) {
      CommitsAreWrites(events, Commits(events)[i]);
    }
    RestartAgrees(s.leader.store.files, own, order, reorder, Commits(events), typeOf, domain, rtype);
  }

  /** So the last write of a key of the node's own shards survives a restart. */
  lemma LastWriteSurvives(s: System, events: seq<Event>, own: set<char>, order: seq<char>, reorder: seq<char>,
                          typeOf: string -> string, domain: string, rtype: string, i: nat)
    requires Initial(s) && Loaded(s, events, own, order, typeOf) && forall c :: c in own ==> c in reorder
    requires NoReplay(events) && domain != "" && Home(domain) in own
    requires LastWrite(Writes(events), (Lower(Strip(domain)), Upper(Strip(rtype))), i) && Writes(events)[i].writable
    ensures Respond(LoadAll(Run(s, events).leader.store.files, reorder), own, domain, rtype)
         == Address(Writes(events)[i].update)
  {
    hide Run, Writes, LoadAll, Loaded, NoReplay, LastWrite, Strip, Fields;
    LeaderRestarts(s, events, own, order, reorder, typeOf, domain, rtype);
    LeaderHolds(s, events, (Lower(Strip(domain)), Upper(Strip(rtype))), i);
  }

  // ---------------------------------------------------------------- what replication leaves alone

  /** Replication reaches a follower's log and table, never its files, its acks or its own numbering. */
  lemma {:induction false} FollowerFrame(s: System, events: seq<Event>, f: nat)
    requires Initial(s) && f in s.followers
    ensures f in Run(s, events).followers
    ensures var w, w' := s.followers[f], Run(s, events).followers[f];
            w'.store.files == w.store.files && w'.acks == w.acks && w'.currLogNum == w.currLogNum && w'.own == w.own
  {
    hide Handle, Parts, Numbered, AllMirror, NewRecord;
    if events != [] {
      var init, e := events[..|events| - 1], events[|events| - 1];
      FollowerFrame(s, init, f);
      FollowersMirror(s, init);
      if e.Arrive? && e.follower == f && e.i < |Run(s, init).sent| {
        ArriveFrame(Run(s, init), f, e.i);
      }
    }
  }

  lemma ArriveFrame(s: System, f: nat, i: nat)
    requires Numbered(s) && f in s.followers && i < |s.sent|
    ensures var w, w' := s.followers[f], Step(s, Arrive(f, i)).followers[f];
            w'.store.files == w.store.files && w'.acks == w.acks && w'.currLogNum == w.currLogNum && w'.own == w.own
  {
    hide Print, Handle, Wire, Line;
    assert Logged(s.leader.logs, i + 1, s.sent[i]);
    LineReplicates(s.followers[f], i + 1, s.leader.logs[Print(i + 1)]);
  }

  lemma ForeignEntry(own: set<char>, update: string, k: Key)
    requires k.0 != "" && Home(k.0) !in own
    ensures !Sets(ReplicaEntry(own, update), k)
  {
    hide Strip;
    FieldHead(update);
  }

  lemma ArriveForeign(s: System, f: nat, i: nat, k: Key)
    requires Numbered(s) && f in s.followers && i < |s.sent| && k.0 != "" && Home(k.0) !in s.followers[f].own
    ensures Same(Step(s, Arrive(f, i)).followers[f].store.records, s.followers[f].store.records, k)
  {
    hide Print, Handle, Wire, Line, ReplicaEntry;
    assert Logged(s.leader.logs, i + 1, s.sent[i]);
    var u := s.leader.logs[Print(i + 1)];
    LineReplicates(s.followers[f], i + 1, u);
    ForeignEntry(s.followers[f].own, Wire(u), k);
  }

  /** Whatever lines reach it, a follower's table never changes on keys of other nodes' shards. */
  lemma {:induction false} ForeignKeysUntouched(s: System, events: seq<Event>, f: nat, k: Key)
    requires Initial(s) && f in s.followers && k.0 != "" && Home(k.0) !in s.followers[f].own
    ensures f in Run(s, events).followers
    ensures Same(Run(s, events).followers[f].store.records, s.followers[f].store.records, k)
  {
    hide Step, Numbered, AllMirror;
    if events != [] {
      var init, e := events[..|events| - 1], events[|events| - 1];
      ForeignKeysUntouched(s, init, f, k);
      FollowerFrame(s, init, f);
      FollowerFrame(s, events, f);
      FollowersMirror(s, init);
      if e.Arrive? && e.follower == f && e.i < |Run(s, init).sent| {
        ArriveForeign(Run(s, init), f, e.i, k);
      } else {
        Unreached(Run(s, init), e, f);
      }
    }
  }

  lemma Unreached(s: System, e: Event, f: nat)
    requires f in s.followers && !(e.Arrive? && e.follower == f && e.i < |s.sent|)
    ensures f in Step(s, e).followers && Step(s, e).followers[f] == s.followers[f]
  {
    hide Handle, NewRecord, Parts;
  }

  /** A follower that restarts has forgotten every replicated write: it answers from the files it had at first. */
  lemma FollowerForgets(s: System, events: seq<Event>, f: nat, own: set<char>, order: seq<char>, domain: string, rtype: string)
    requires Initial(s) && f in s.followers
    ensures f in Run(s, events).followers
    ensures Respond(LoadAll(Run(s, events).followers[f].store.files, order), own, domain, rtype)
         == Respond(LoadAll(s.followers[f].store.files, order), own, domain, rtype)
  {
    hide Run, LoadAll, Respond;
    FollowerFrame(s, events, f);
  }

  // ---------------------------------------------------------------- acks

  function AcksOf(acks: map<string, nat>, num: string): nat {
    if num in acks then acks[num] else 0
  }

  /** How many lines `3;<num>` the leader has been sent. */
  function AckLines(events: seq<Event>, num: string): nat {
    if events == [] then 0
    else
      var e := events[|events| - 1];
      AckLines(events[..|events| - 1], num)
      + (if e.Client? && |Parts(e.query)| >= 2 && Parts(e.query)[..2] == ["3", num] then 1 else 0)
  }

  lemma StepAcks(s: System, e: Event, num: string)
    ensures AcksOf(Step(s, e).leader.acks, num) == AcksOf(s.leader.acks, num)
         + (if e.Client? && |Parts(e.query)| >= 2 && Parts(e.query)[..2] == ["3", num] then 1 else 0)
  {
    hide Parts, Commit, Print, Parse, Line;
  }

  /** The leader counts the acks of every entry. */
  lemma {:induction false} AcksCounted(s: System, events: seq<Event>, num: string)
    ensures AcksOf(Run(s, events).leader.acks, num) == AcksOf(s.leader.acks, num) + AckLines(events, num)
  {
    hide Step, Parts;
    if events != [] {
      AcksCounted(s, events[..|events| - 1], num);
      StepAcks(Run(s, events[..|events| - 1]), events[|events| - 1], num);
    }
  }
}
