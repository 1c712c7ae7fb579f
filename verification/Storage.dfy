/** A node's record store: the shard files on disk and the dictionary in memory, kept in step by
    `commitHandler` and rebuilt by `Reader` after a restart. */
module Storage {
  import opened Text
  import opened Records

  datatype Store = Store(files: map<char, string>, records: Table)

  /** The shard a domain belongs to: `domain[0].lower()`. */
  function Home(domain: string): char
    requires domain != ""
  {
    LowerChar(domain[0])
  }

  /** A missing file reads like an empty one. */
  function FileText(files: map<char, string>, shard: char): string {
    if shard in files then files[shard] else ""
  }

  /** `commitHandler` on a log entry. `writable` is false when opening the file raises `OSError`. */
  function Commit(s: Store, update: string, writable: bool): Store {
    if !Committable(update) || !writable then s
    else
      var shard := Home(Domain(update));
      Store(s.files[shard := Committed(FileText(s.files, shard), update)],
            s.records[UpdateKey(update) := Address(update)])
  }

  function CommitAll(s: Store, log: seq<(string, bool)>): Store {
    if log == [] then s
    else
      var last := log[|log| - 1];
      Commit(CommitAll(s, log[..|log| - 1]), last.0, last.1)
  }

  /** `Reader.__init__`: the shard files loaded one after the other, later entries winning. */
  function LoadAll(files: map<char, string>, order: seq<char>): Table {
    if order == [] then map[]
    else LoadAll(files, order[..|order| - 1]) + LoadFile(FileText(files, order[|order| - 1]))
  }

  /** `Reader.recordResponse`. */
  function Respond(records: Table, own: set<char>, domain: string, rtype: string): string {
    if domain == "" || Home(domain) !in own then "N/A"
    else
      var key := (Lower(Strip(domain)), Upper(Strip(rtype)));
      if key in records then records[key] else "N/A"
  }

  // ---------------------------------------------------------------- what commits preserve

  /** A shard file whose entries are all filed under its own letter, with one type per domain,
      and which ends in a newline (or blanks). */
  predicate Kept(content: string, shard: char, typeOf: string -> string) {
    && Blank(Tail(content))
    && forall k :: k in LoadFile(content) ==> k.0 != "" && Home(k.0) == shard && k.1 == typeOf(k.0)
  }

  predicate AllKept(files: map<char, string>, typeOf: string -> string) {
    forall shard :: shard in files ==> Kept(files[shard], shard, typeOf)
  }

  /** A single line that is either no update at all, or three fields, not a comment, of the domain's type. */
  predicate Regular(update: string, typeOf: string -> string) {
    && '\n' !in update
    && (Committable(update) ==>
          |Fields(update)| == 3 && Domain(update)[0] != '#' && RType(update) == typeOf(Domain(update)))
  }

  /** Memory and files agree on every key of the node's own shards. */
  ghost predicate InSync(s: Store, own: set<char>) {
    forall k: Key :: k.0 != "" && Home(k.0) in own ==>
      Same(s.records, LoadFile(FileText(s.files, Home(k.0))), k)
  }

  predicate Same(a: Table, b: Table, k: Key) {
    (k in a <==> k in b) && (k in a && k in b ==> a[k] == b[k])
  }

  lemma EmptyKept(shard: char, typeOf: string -> string)
    ensures Kept("", shard, typeOf)
  {
  }

  lemma TailCommitted(content: string, update: string)
    requires '\n' !in update && Blank(Tail(content))
    ensures Blank(Tail(Committed(content, update)))
  {
    hide Domain, FirstField, Committed, Lines, Concat;
    var lines := Lines(content);
    LinesProper(content);
    if Found(lines, Domain(update)) || Tail(content) == "" {
      CommittedLines(content, update);
    } else {
      GluedLines(content, update);
    }
  }

  lemma CommitKeeps(content: string, update: string, typeOf: string -> string)
    requires Committable(update) && Regular(update, typeOf)
    requires Kept(content, Home(Domain(update)), typeOf)
    ensures LoadFile(Committed(content, update)) == LoadFile(content)[UpdateKey(update) := Address(update)]
    ensures Kept(Committed(content, update), Home(Domain(update)), typeOf)
  {
    hide Committed, LoadFile, Domain, RType, Lines, Fields;
    TailCommitted(content, update);
    CommitThenReload(content, update);
  }

  lemma CommitInSync(s: Store, update: string, writable: bool, own: set<char>, typeOf: string -> string)
    requires Regular(update, typeOf) && AllKept(s.files, typeOf) && InSync(s, own)
    ensures AllKept(Commit(s, update, writable).files, typeOf) && InSync(Commit(s, update, writable), own)
  {
    hide Committed, LoadFile, Domain, Kept, Fields, Tail;
    if Committable(update) && writable {
      var shard := Home(Domain(update));
      EmptyKept(shard, typeOf);
      CommitKeeps(FileText(s.files, shard), update, typeOf);
      var s' := Commit(s, update, writable);
      forall k: Key | k.0 != "" && Home(k.0) in own
        ensures Same(s'.records, LoadFile(FileText(s'.files, Home(k.0))), k)
      {
        assert Same(s.records, LoadFile(FileText(s.files, Home(k.0))), k);
      }
    }
  }

  lemma {:induction false} CommitAllInSync(s: Store, log: seq<(string, bool)>, own: set<char>, typeOf: string -> string)
    requires forall i :: 0 <= i < |log| ==> Regular(log[i].0, typeOf)
    requires AllKept(s.files, typeOf) && InSync(s, own)
    ensures AllKept(CommitAll(s, log).files, typeOf) && InSync(CommitAll(s, log), own)
  {
    hide Commit, Regular, AllKept, InSync;
    if log != [] {
      CommitAllInSync(s, log[..|log| - 1], own, typeOf);
      var last := log[|log| - 1];
      CommitInSync(CommitAll(s, log[..|log| - 1]), last.0, last.1, own, typeOf);
    }
  }

  /** Loading shard files in any order gives each key what its own shard file holds. */
  lemma {:induction false} LoadAllLookup(files: map<char, string>, order: seq<char>, k: Key, typeOf: string -> string)
    requires AllKept(files, typeOf)
    requires k.0 != "" && Home(k.0) in order
    ensures Same(LoadAll(files, order), LoadFile(FileText(files, Home(k.0))), k)
  {
    hide LoadFile, Tail;
    var init, last := order[..|order| - 1], order[|order| - 1];
    EmptyKept(last, typeOf);
    if Home(k.0) in init {
      LoadAllLookup(files, init, k, typeOf);
    } else {
      LoadAllForeign(files, init, k, typeOf);
    }
  }

  lemma {:induction false} LoadAllForeign(files: map<char, string>, order: seq<char>, k: Key, typeOf: string -> string)
    requires AllKept(files, typeOf)
    requires k.0 != "" && Home(k.0) !in order
    ensures k !in LoadAll(files, order)
  {
    hide LoadFile, Tail;
    if order != [] {
      EmptyKept(order[|order| - 1], typeOf);
      LoadAllForeign(files, order[..|order| - 1], k, typeOf);
    }
  }

  /** Where files disagree on a key, the one loaded last wins. */
  lemma {:induction false} LaterFileWins(files: map<char, string>, order: seq<char>, i: nat, k: Key)
    requires i < |order| && k in LoadFile(FileText(files, order[i]))
    requires forall j :: i < j < |order| ==> k !in LoadFile(FileText(files, order[j]))
    ensures k in LoadAll(files, order) && LoadAll(files, order)[k] == LoadFile(FileText(files, order[i]))[k]
  {
    hide LoadFile;
    if i < |order| - 1 { LaterFileWins(files, order[..|order| - 1], i, k); }
  }

  lemma LoadedInSync(files: map<char, string>, order: seq<char>, own: set<char>, typeOf: string -> string)
    requires AllKept(files, typeOf)
    requires forall c :: c in own ==> c in order
    ensures InSync(Store(files, LoadAll(files, order)), own)
  {
    hide LoadFile, LoadAll, AllKept;
    forall k: Key | k.0 != "" && Home(k.0) in own
      ensures Same(LoadAll(files, order), LoadFile(FileText(files, Home(k.0))), k)
    {
      LoadAllLookup(files, order, k, typeOf);
    }
  }

  /** `recordResponse` only ever reads keys of the node's own shards. */
  lemma RespondKey(domain: string, own: set<char>)
    requires domain != "" && Home(domain) in own
    requires forall c :: c in own ==> !IsSpace(c)
    ensures Lower(Strip(domain)) != "" && Home(Lower(Strip(domain))) in own
  {
    StripHead(domain);
  }

  /** After any sequence of commits, with any of them failing to open the file, a node answers every
      query as a restarted node would, in whatever order either of them loads the shard files. */
  lemma RestartAgrees(files: map<char, string>, own: set<char>, boot: seq<char>, reboot: seq<char>,
                      log: seq<(string, bool)>, typeOf: string -> string, domain: string, rtype: string)
    requires AllKept(files, typeOf)
    requires forall c :: c in own ==> !IsSpace(c) && c in boot && c in reboot
    requires forall i :: 0 <= i < |log| ==> Regular(log[i].0, typeOf)
    ensures var after := CommitAll(Store(files, LoadAll(files, boot)), log);
            Respond(after.records, own, domain, rtype) == Respond(LoadAll(after.files, reboot), own, domain, rtype)
  {
    hide LoadFile, LoadAll, AllKept, CommitAll, Strip, Regular;
    var start := Store(files, LoadAll(files, boot));
    var after := CommitAll(start, log);
    LoadedInSync(files, boot, own, typeOf);
    CommitAllInSync(start, log, own, typeOf);
    LoadedInSync(after.files, reboot, own, typeOf);
    if domain != "" && Home(domain) in own {
      RespondKey(domain, own);
      var k := (Lower(Strip(domain)), Upper(Strip(rtype)));
      assert Same(after.records, LoadFile(FileText(after.files, Home(k.0))), k);
      assert Same(LoadAll(after.files, reboot), LoadFile(FileText(after.files, Home(k.0))), k);
    }
  }
}
