/** Record files and the dictionary loaded from them: data_plane/read/_read.py and the
    rewriting done by `Writer.commitHandler` in data_plane/write/_writer.py. */
module Records {
  import opened Text

  /** (domain, record type) */
  type Key = (string, string)
  type Table = map<Key, string>

  // ---------------------------------------------------------------- lines of a file

  /** The lines a text file yields when iterated: each keeps its newline, the last may lack one. */
  function Lines(content: string): seq<string> {
    if content == "" then []
    else
      var i := Find(content, '\n');
      if i == |content| then [content] else [content[..i + 1]] + Lines(content[i + 1..])
  }

  /** `writelines`. */
  function Concat(lines: seq<string>): string {
    if lines == [] then "" else lines[0] + Concat(lines[1..])
  }

  predicate Terminated(line: string) {
    line != "" && line[|line| - 1] == '\n' && '\n' !in line[..|line| - 1]
  }

  predicate Unterminated(line: string) {
    line != "" && '\n' !in line
  }

  /** A list of lines that reading a file can give. */
  predicate Proper(lines: seq<string>) {
    forall i :: 0 <= i < |lines| ==> Terminated(lines[i]) || (i == |lines| - 1 && Unterminated(lines[i]))
  }

  /** What follows the last newline. */
  function Tail(content: string): string {
    var lines := Lines(content);
    if lines != [] && Unterminated(lines[|lines| - 1]) then lines[|lines| - 1] else ""
  }

  lemma {:induction false} LinesProper(content: string)
    ensures Proper(Lines(content)) && Concat(Lines(content)) == content
  {
    hide Find;
    if content != "" {
      var i := Find(content, '\n');
      if i == |content| {
        assert content[..i] == content;
        assert Lines(content)[1..] == [];
      } else {
        LinesProper(content[i + 1..]);
        assert content[..i + 1][..i] == content[..i];
        assert content == content[..i + 1] + content[i + 1..];
        assert Lines(content)[1..] == Lines(content[i + 1..]);
      }
    }
  }

  lemma LinesCons(line: string, rest: string)
    requires Terminated(line)
    ensures Lines(line + rest) == [line] + Lines(rest)
  {
    var a := line[..|line| - 1];
    assert line + rest == a + ['\n'] + rest;
    FindFirst(a, '\n', rest);
    assert (line + rest)[..|line|] == line && (line + rest)[|line|..] == rest;
  }

  lemma {:induction false} LinesOfConcat(lines: seq<string>)
    requires Proper(lines)
    ensures Lines(Concat(lines)) == lines
  {
    if lines != [] {
      LinesOfConcat(lines[1..]);
      if Terminated(lines[0]) {
        LinesCons(lines[0], Concat(lines[1..]));
      } else {
        assert lines[1..] == [];
        assert Concat(lines) == lines[0];
        FindNone(lines[0], '\n');
        assert lines == [lines[0]];
      }
    }
  }

  lemma {:induction false} ConcatAppend(a: seq<string>, b: seq<string>)
    ensures Concat(a + b) == Concat(a) + Concat(b)
  {
    if a == [] {
      assert a + b == b;
    } else {
      assert (a + b)[0] == a[0] && (a + b)[1..] == a[1..] + b;
      ConcatAppend(a[1..], b);
    }
  }

  // ---------------------------------------------------------------- loading

  /** One turn of the Reader's inner loop: the entry a line contributes, if any. */
  function ParseLine(line: string): Option<(Key, string)> {
    var l := Strip(line);
    if l == "" || l[0] == '#' then None
    else
      var parts := Split(l, ',');
      if |parts| == 3 then Some(((Strip(parts[0]), Strip(parts[1])), Strip(parts[2]))) else None
  }

  function Put(m: Table, e: Option<(Key, string)>): Table {
    match e
    case None => m
    case Some(kv) => m[kv.0 := kv.1]
  }

  function LoadLines(lines: seq<string>): Table {
    if lines == [] then map[]
    else Put(LoadLines(lines[..|lines| - 1]), ParseLine(lines[|lines| - 1]))
  }

  function LoadFile(content: string): Table {
    LoadLines(Lines(content))
  }

  lemma LoadSnoc(lines: seq<string>, line: string)
    ensures LoadLines(lines + [line]) == Put(LoadLines(lines), ParseLine(line))
  {
    assert (lines + [line])[..|lines|] == lines;
  }

  /** Where lines of a file disagree on a key, the last one wins. */
  lemma {:induction false} LaterLineWins(lines: seq<string>, i: nat)
    requires i < |lines| && ParseLine(lines[i]).Some?
    requires forall j :: i < j < |lines| && ParseLine(lines[j]).Some? ==>
               ParseLine(lines[j]).value.0 != ParseLine(lines[i]).value.0
    ensures var (k, v) := ParseLine(lines[i]).value; k in LoadLines(lines) && LoadLines(lines)[k] == v
  {
    hide ParseLine;
    if i < |lines| - 1 { LaterLineWins(lines[..|lines| - 1], i); }
  }

  // ---------------------------------------------------------------- updates

  /** An update is `domain,type,ip`. */
  function Fields(update: string): (parts: seq<string>)
    ensures |parts| >= 1
  {
    Split(Strip(update), ',')
  }

  function Domain(update: string): string {
    Strip(Fields(update)[0])
  }

  /** What `commitHandler` accepts: at least three fields and a domain with a first letter. */
  predicate Committable(update: string) {
    |Fields(update)| >= 3 && Domain(update) != ""
  }

  function RType(update: string): string
    requires |Fields(update)| >= 3
  {
    Strip(Fields(update)[1])
  }

  function Address(update: string): string
    requires |Fields(update)| >= 3
  {
    Strip(Fields(update)[2])
  }

  function UpdateKey(update: string): Key
    requires |Fields(update)| >= 3
  {
    (Domain(update), RType(update))
  }

  /** `line.strip().split(',')[0].strip()`, the field `commitHandler` compares with the domain. */
  function FirstField(line: string): string {
    Strip(Split(Strip(line), ',')[0])
  }

  predicate Found(lines: seq<string>, domain: string) {
    exists i :: 0 <= i < |lines| && FirstField(lines[i]) == domain
  }

  function Replace(line: string, domain: string, update: string): string {
    if FirstField(line) == domain then update + "\n" else line
  }

  function Rewrite(lines: seq<string>, domain: string, update: string): (r: seq<string>)
    ensures |r| == |lines|
  {
    seq(|lines|, i requires 0 <= i < |lines| => Replace(lines[i], domain, update))
  }

  /** The list `lines` that `commitHandler` writes back. */
  function NewLines(lines: seq<string>, update: string): seq<string> {
    var r := Rewrite(lines, Domain(update), update);
    if Found(lines, Domain(update)) then r else r + [update + "\n"]
  }

  /** The shard file after `commitHandler`. */
  function Committed(content: string, update: string): string {
    Concat(NewLines(Lines(content), update))
  }

  // ---------------------------------------------------------------- facts about one line

  lemma ParsedDomain(line: string)
    ensures ParseLine(line).Some? ==> ParseLine(line).value.0.0 == FirstField(line)
  {
  }

  /** The line an update leaves in the file loads back as the update, unless it has extra
      fields or reads as a comment, in which case it loads as nothing. */
  lemma UpdateLine(update: string)
    requires Committable(update)
    ensures FirstField(update + "\n") == Domain(update)
    ensures ParseLine(update + "\n")
         == if |Fields(update)| == 3 && Domain(update)[0] != '#'
            then Some((UpdateKey(update), Address(update))) else None
  {
    StripLine(update);
    var s := Strip(update);
    SplitHead(s, ',');
    var h := Split(s, ',')[0];
    StripNonBlank(h);
    assert h != "";
    var i, j := StripShape(update);
    StripHead(h);
  }

  lemma GluedCommaLine(t: string, update: string)
    requires ',' in t && |Fields(update)| >= 3
    ensures FirstField(t + update) == FirstField(t)
    ensures |Fields(t + update)| > 3
  {
    StripSplit(t + update, ',');
    StripSplit(t, ',');
    StripSplit(update, ',');
    SplitCount(t, update, ',');
    SplitHead(t, ',');
    SplitSuffix(t, update, ',');
  }

  lemma GluedPlainLine(t: string, update: string)
    requires ',' !in t && !Blank(t) && Domain(update) != ""
    ensures FirstField(t + update) != Domain(update)
  {
    StripSplit(t + update, ',');
    StripSplit(update, ',');
    SplitPrefix(t, update, ',');
    var h := Split(update, ',')[0];
    StripNonBlank(h);
    StripLonger(t, h);
  }

  /** Gluing an update onto an unterminated line of another domain hides it from that domain. */
  lemma GluedLine(t: string, update: string)
    requires Committable(update) && !Blank(t)
    requires FirstField(t) != Domain(update)
    ensures FirstField(t + update + "\n") != Domain(update)
    ensures ParseLine(t + update + "\n").Some? ==> ParseLine(t + update + "\n").value.0.0 != Domain(update)
  {
    StripLine(t + update);
    ParsedDomain(t + update + "\n");
    if ',' in t {
      GluedCommaLine(t, update);
    } else {
      GluedPlainLine(t, update);
    }
  }

  lemma BlankGlue(t: string, update: string)
    requires Blank(t)
    ensures FirstField(t + update + "\n") == FirstField(update + "\n")
    ensures ParseLine(t + update + "\n") == ParseLine(update + "\n")
  {
    StripMargins(t, update, "\n");
    StripLine(update);
  }

  // ---------------------------------------------------------------- facts about the rewrite

  lemma FoundSnoc(lines: seq<string>, domain: string)
    requires lines != []
    ensures Found(lines, domain)
       <==> Found(lines[..|lines| - 1], domain) || FirstField(lines[|lines| - 1]) == domain
  {
    var init := lines[..|lines| - 1];
    if Found(lines, domain) {
      var i :| 0 <= i < |lines| && FirstField(lines[i]) == domain;
      if i < |init| { assert init[i] == lines[i]; }
    }
    if Found(init, domain) {
      var i :| 0 <= i < |init| && FirstField(init[i]) == domain;
      assert lines[i] == init[i];
    }
  }

  /** Every entry except those of `domain`. */
  function Others(m: Table, domain: string): Table {
    map k | k in m && k.0 != domain :: m[k]
  }

  function Entry(e: Option<(Key, string)>): Table {
    Put(map[], e)
  }

  /** One more line, rewritten or kept, on both sides. */
  lemma RewriteStep(m: Table, found: bool, hit: bool, p: Option<(Key, string)>, e: Option<(Key, string)>, d: string)
    requires p.Some? ==> (p.value.0.0 == d <==> hit)
    requires e.Some? ==> e.value.0.0 == d
    ensures Put(Others(m, d) + (if found then Entry(e) else map[]), if hit then e else p)
         == Others(Put(m, p), d) + (if found || hit then Entry(e) else map[])
  {
    if !hit && p.Some? {
      assert Others(Put(m, p), d) == Put(Others(m, d), p);
    } else {
      assert Others(Put(m, p), d) == Others(m, d);
    }
  }

  /** Loading rewritten lines: other domains as before, and of `domain` only the update's entry. */
  lemma {:induction false} RewriteLoad(lines: seq<string>, update: string)
    requires Committable(update)
    ensures LoadLines(Rewrite(lines, Domain(update), update))
         == Others(LoadLines(lines), Domain(update))
            + (if Found(lines, Domain(update)) then Entry(ParseLine(update + "\n")) else map[])
  {
    hide ParseLine, FirstField, Fields, Committable;
    if lines != [] {
      var d, init, last := Domain(update), lines[..|lines| - 1], lines[|lines| - 1];
      var r := Rewrite(lines, d, update);
      assert r[..|r| - 1] == Rewrite(init, d, update);
      RewriteLoad(init, update);
      FoundSnoc(lines, d);
      ParsedDomain(last);
      ParsedDomain(update + "\n");
      UpdateLine(update);
      RewriteStep(LoadLines(init), Found(init, d), FirstField(last) == d,
                  ParseLine(last), ParseLine(update + "\n"), d);
    }
  }

  lemma {:induction false} AbsentDomain(lines: seq<string>, domain: string)
    requires !Found(lines, domain)
    ensures forall k :: k in LoadLines(lines) ==> k.0 != domain
    ensures forall update :: Rewrite(lines, domain, update) == lines
  {
    if lines != [] {
      FoundSnoc(lines, domain);
      AbsentDomain(lines[..|lines| - 1], domain);
      ParsedDomain(lines[|lines| - 1]);
      assert lines == lines[..|lines| - 1] + [lines[|lines| - 1]];
    }
  }

  lemma NewLinesProper(lines: seq<string>, update: string)
    requires Proper(lines) && '\n' !in update
    requires Found(lines, Domain(update)) || lines == [] || Terminated(lines[|lines| - 1])
    ensures Proper(NewLines(lines, update))
  {
    hide FirstField, Domain;
    var line := update + "\n";
    assert line[..|line| - 1] == update;
    assert Terminated(line);
  }

  /** The file that `commitHandler` leaves when the domain has a line or the file ends in a newline. */
  lemma CommittedLines(content: string, update: string)
    requires '\n' !in update
    requires Found(Lines(content), Domain(update)) || Tail(content) == ""
    ensures Lines(Committed(content, update)) == NewLines(Lines(content), update)
  {
    LinesProper(content);
    NewLinesProper(Lines(content), update);
    LinesOfConcat(NewLines(Lines(content), update));
  }

  lemma ConcatGlue(init: seq<string>, t: string, line: string)
    ensures Concat(init + [t] + [line]) == Concat(init + [t + line])
  {
    ConcatAppend(init + [t], [line]);
    ConcatAppend(init, [t]);
    ConcatAppend(init, [t + line]);
    assert Concat([t]) == t && Concat([line]) == line && Concat([t + line]) == t + line;
    assert (Concat(init) + t) + line == Concat(init) + (t + line);
  }

  /** When the domain is new and the old file does not end in a newline, the update is glued to the
      unterminated last line. */
  lemma GluedLines(content: string, update: string)
    requires '\n' !in update
    requires !Found(Lines(content), Domain(update)) && Tail(content) != ""
    ensures Lines(content) != [] && Tail(content) == Lines(content)[|Lines(content)| - 1]
    ensures Lines(Committed(content, update))
         == Lines(content)[..|Lines(content)| - 1] + [Tail(content) + update + "\n"]
  {
    hide FirstField, Domain;
    var lines := Lines(content);
    LinesProper(content);
    AbsentDomain(lines, Domain(update));
    var init, t := lines[..|lines| - 1], lines[|lines| - 1];
    assert lines == init + [t];
    var glued := t + update + "\n";
    assert glued == t + (update + "\n");
    assert glued[..|glued| - 1] == t + update;
    ConcatGlue(init, t, update + "\n");
    LinesOfConcat(init + [glued]);
  }

  // ---------------------------------------------------------------- one commit and a reload

  /** Something `commitHandler`'s caller can check about the shard file and the update. */
  predicate Durable(content: string, update: string)
    requires Committable(update)
  {
    && |Fields(update)| == 3
    && Domain(update)[0] != '#'
    && (forall k :: k in LoadFile(content) && k.0 == Domain(update) ==> k.1 == RType(update))
    && (Found(Lines(content), Domain(update)) || Blank(Tail(content)))
  }

  /** A blank tail is swallowed by the line glued to it. */
  lemma BlankTailLoad(content: string, update: string)
    requires Committable(update) && '\n' !in update
    requires !Found(Lines(content), Domain(update)) && Tail(content) != "" && Blank(Tail(content))
    ensures LoadFile(Committed(content, update)) == Put(LoadFile(content), ParseLine(update + "\n"))
  {
    hide ParseLine, FirstField, Lines, Committed, Committable, Domain, LoadLines;
    var lines, t := Lines(content), Tail(content);
    GluedLines(content, update);
    var init := lines[..|lines| - 1];
    assert lines == init + [t];
    LoadSnoc(init, t);
    LoadSnoc(init, t + update + "\n");
    BlankGlue(t, update);
    BlankLine(t);
  }

  lemma BlankLine(t: string)
    requires Blank(t)
    ensures ParseLine(t) == None
  {
    BlankStrip(t);
  }

  /** The table the rewritten file loads when the update gets a line of its own. */
  lemma CommittedLoad(content: string, update: string)
    requires Committable(update) && '\n' !in update
    requires Found(Lines(content), Domain(update)) || Blank(Tail(content))
    ensures LoadFile(Committed(content, update))
         == Others(LoadFile(content), Domain(update)) + Entry(ParseLine(update + "\n"))
  {
    hide FirstField, Lines, Committed, Committable, LoadLines, ParseLine, Domain;
    var lines, d, e := Lines(content), Domain(update), ParseLine(update + "\n");
    if Found(lines, d) {
      CommittedLines(content, update);
      RewriteLoad(lines, update);
    } else {
      AbsentDomain(lines, d);
      if Tail(content) == "" {
        CommittedLines(content, update);
        LoadSnoc(lines, update + "\n");
      } else {
        BlankTailLoad(content, update);
      }
      assert Others(LoadFile(content), d) == LoadFile(content);
      assert Put(LoadFile(content), e) == LoadFile(content) + Entry(e);
    }
  }

  lemma GluedLoad(content: string, update: string)
    requires Committable(update) && '\n' !in update
    requires !Found(Lines(content), Domain(update)) && !Blank(Tail(content))
    ensures UpdateKey(update) !in LoadFile(Committed(content, update))
  {
    var lines, d := Lines(content), Domain(update);
    GluedLines(content, update);
    var after, init := Lines(Committed(content, update)), lines[..|lines| - 1];
    assert after[..|after| - 1] == init;
    FoundSnoc(lines, d);
    AbsentDomain(init, d);
    GluedLine(Tail(content), update);
  }

  /** Rewriting the shard file and reloading it equals loading it and then setting the update's key,
      exactly when the update is durable for that file. */
  lemma CommitThenReload(content: string, update: string)
    requires Committable(update) && '\n' !in update
    ensures LoadFile(Committed(content, update)) == LoadFile(content)[UpdateKey(update) := Address(update)]
       <==> Durable(content, update)
  {
    hide Lines, Committed, LoadFile, ParseLine, FirstField, Found;
    var d, k := Domain(update), UpdateKey(update);
    var before, after := LoadFile(content), LoadFile(Committed(content, update));
    UpdateLine(update);
    if Found(Lines(content), d) || Blank(Tail(content)) {
      CommittedLoad(content, update);
      if Durable(content, update) {
        assert after == before[k := Address(update)];
      } else if k in after {
        var k' :| k' in before && k'.0 == d && k'.1 != RType(update);
        assert k' !in after;
      }
    } else {
      GluedLoad(content, update);
    }
  }

  lemma SecondCommitSame(content: string, update: string)
    requires Committable(update) && '\n' !in update
    requires Found(Lines(content), Domain(update)) || Tail(content) == ""
    ensures Committed(Committed(content, update), update) == Committed(content, update)
  {
    hide Strip, Split, Lines, Concat, Tail, Proper;
    var d, lines, line := Domain(update), Lines(content), update + "\n";
    var after := NewLines(lines, update);
    CommittedLines(content, update);
    LinesProper(Committed(content, update));
    StripLine(update);
    if Found(lines, d) {
      var i :| 0 <= i < |lines| && FirstField(lines[i]) == d;
      assert after[i] == line;
    } else {
      assert after[|after| - 1] == line;
    }
    assert Rewrite(after, d, update) == after;
  }

  /** Committing the same update again leaves the file alone, exactly when the domain already had a
      line or the file ended in a newline. */
  lemma CommitIdempotent(content: string, update: string)
    requires Committable(update) && '\n' !in update
    ensures Committed(Committed(content, update), update) == Committed(content, update)
       <==> Found(Lines(content), Domain(update)) || Tail(content) == ""
  {
    if Found(Lines(content), Domain(update)) || Tail(content) == "" {
      SecondCommitSame(content, update);
    } else {
      SecondCommitGrows(content, update);
    }
  }

  /** The failing half: after a commit glued onto an unterminated line, a second commit changes the file. */
  lemma SecondCommitGrows(content: string, update: string)
    requires Committable(update) && '\n' !in update
    requires !Found(Lines(content), Domain(update)) && Tail(content) != ""
    ensures Committed(Committed(content, update), update) != Committed(content, update)
  {
    hide Strip, Split;
    var d, once := Domain(update), Committed(content, update);
    var lines, after := Lines(content), Lines(once);
    var init, t := lines[..|lines| - 1], Tail(content);
    var glued := t + update + "\n";
    GluedLines(content, update);
    LinesProper(once);
    assert after[..|after| - 1] == init && after[|after| - 1] == glued;
    FoundSnoc(lines, d);
    FoundSnoc(after, d);
    assert Tail(once) == "" by { assert glued[|glued| - 1] == '\n'; }
    CommittedLines(once, update);
    UpdateLine(update);
    var twice := Lines(Committed(once, update));
    if Blank(t) {
      BlankGlue(t, update);
        assert twice[|after| - 1] == update + "\n";
      assert twice != after;
    } else {
      GluedLine(t, update);
      assert |twice| == |after| + 1;
    }
  }

  /** `f'{domain},{rtype},{ip}'` splits back into its three parts. */
  lemma ThreeFields(d: string, t: string, ip: string)
    requires Trimmed(d) && Trimmed(t) && Trimmed(ip) && d != "" && ip != ""
    requires ',' !in d && ',' !in t && ',' !in ip
    ensures Fields(d + "," + t + "," + ip) == [d, t, ip]
    ensures Committable(d + "," + t + "," + ip)
    ensures UpdateKey(d + "," + t + "," + ip) == (d, t) && Address(d + "," + t + "," + ip) == ip
  {
    hide LStrip, RStrip;
    var u := d + "," + t + "," + ip;
    assert u[0] == d[0] && u[|u| - 1] == ip[|ip| - 1];
    StripId(u);
    StripId(d);
    StripId(t);
    StripId(ip);
    assert u == d + [','] + (t + [','] + ip);
    SplitCons(d, ',', t + [','] + ip);
    SplitCons(t, ',', ip);
    SplitNone(ip, ',');
  }

  /** Further fields change neither the key nor the address, and are committed all the same. */
  lemma MoreFields(d: string, t: string, ip: string, rest: string)
    requires Trimmed(d) && Trimmed(t) && Trimmed(ip) && d != "" && rest != "" && !IsSpace(rest[|rest| - 1])
    requires ',' !in d && ',' !in t && ',' !in ip
    ensures var u := d + "," + t + "," + ip + "," + rest;
            |Fields(u)| >= 4 && Committable(u) && UpdateKey(u) == (d, t) && Address(u) == ip
  {
    hide LStrip, RStrip;
    var u := d + "," + t + "," + ip + "," + rest;
    assert u[0] == d[0] && u[|u| - 1] == rest[|rest| - 1];
    StripId(u);
    StripId(d);
    StripId(t);
    StripId(ip);
    assert u == d + [','] + (t + [','] + (ip + [','] + rest));
    SplitCons(d, ',', t + [','] + (ip + [','] + rest));
    SplitCons(t, ',', ip + [','] + rest);
    SplitCons(ip, ',', rest);
  }

  /** A file that does not end in a newline loses a new domain. */
  lemma UnterminatedFileLosesUpdate()
    ensures var content, update := "b" + "," + "A" + "," + "1", "a" + "," + "A" + "," + "2";
            Committable(update) && '\n' !in update
            && UpdateKey(update) !in LoadFile(Committed(content, update))
            && LoadFile(content)[UpdateKey(update) := Address(update)] != LoadFile(Committed(content, update))
  {
    var content, update := "b" + "," + "A" + "," + "1", "a" + "," + "A" + "," + "2";
    ThreeFields("b", "A", "1");
    ThreeFields("a", "A", "2");
    FindNone(content, '\n');
    assert Lines(content) == [content];
    assert !IsSpace(content[0]);
    GluedLoad(content, update);
  }
}
