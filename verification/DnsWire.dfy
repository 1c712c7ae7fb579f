/** DNS packets on the wire: `DnsRequestParser` and `DnsResponseBuilder`
    (dns-control-plane/src/main/java/com/dns/dns), and a reference decoder for the message format of
    section 4 of RFC 1035. */
module DnsWire {
  import opened Text

  type Byte = b: int | 0 <= b < 256

  type Label = seq<Byte>

  const HEADER_SIZE := 12
  const TTL_SECONDS := 60

  /** A big-endian pair of bytes. */
  function Pair(high: int, low: int): int {
    high * 256 + low
  }

  function Word(m: seq<Byte>, i: nat): int
    requires i + 1 < |m|
  {
    Pair(m[i], m[i + 1])
  }

  /** Bytes read as characters. */
  function Chars(s: seq<Byte>): string {
    seq(|s|, i requires 0 <= i < |s| => s[i] as char)
  }

  // ---------------------------------------------------------------- the three walks over QNAME

  /** `parseDomain`'s loop: labels joined with dots until a zero byte, a compression pointer or the end. */
  function Walk(packet: seq<Byte>, pos: nat, name: string): Option<string>
    decreases |packet| - pos
  {
    if pos >= |packet| || packet[pos] == 0 || packet[pos] >= 0xC0 then Some(name)
    else
      var next := pos + 1 + packet[pos];
      if next > |packet| then None
      else Walk(packet, next, Append(name, Chars(packet[pos + 1..next])))
  }

  /** A dot between labels, none in front. */
  function Append(name: string, text: string): string {
    if name != "" then name + "." + text else text
  }

  /** `parseQType`'s loop: the position after the terminating zero byte, or past the end. */
  function Skip(packet: seq<Byte>, pos: nat): (end: nat)
    ensures end >= pos
    decreases |packet| - pos
  {
    if pos >= |packet| then pos
    else if packet[pos] == 0 then pos + 1
    else Skip(packet, pos + 1 + packet[pos])
  }

  /** `buildResponse`'s loop: the first zero byte, or the end. */
  function ZeroFrom(packet: seq<Byte>, pos: nat): (end: nat)
    requires pos <= |packet|
    ensures pos <= end <= |packet|
    ensures forall i :: pos <= i < end ==> packet[i] != 0
    ensures end < |packet| ==> packet[end] == 0
    decreases |packet| - pos
  {
    if pos < |packet| && packet[pos] != 0 then ZeroFrom(packet, pos + 1) else pos
  }

  function Domain(packet: seq<Byte>): Option<string> {
    if |packet| < HEADER_SIZE then None
    else
      match Walk(packet, HEADER_SIZE, "")
      case None => None
      case Some(name) => if name == "" then None else Some(Lower(name))
  }

  /** -1 when unreadable. */
  function QType(packet: seq<Byte>): int {
    if |packet| < HEADER_SIZE then -1
    else
      var pos := Skip(packet, HEADER_SIZE);
      if pos + 1 >= |packet| then -1 else Word(packet, pos)
  }

  method ParseDomain(request: seq<Byte>) returns (domain: Option<string>)
    ensures domain == Domain(request)
  {
    hide Chars, Lower;
    if |request| < HEADER_SIZE { return None; }
    var name, pos := "", HEADER_SIZE;
    while pos < |request|
      invariant Walk(request, pos, name) == Walk(request, HEADER_SIZE, "")
      decreases |request| - pos
    {
      var labelLen: nat := request[pos];
      if labelLen == 0 || labelLen >= 0xC0 { break; }
      pos := pos + 1;
      if pos + labelLen > |request| { return None; }
      ghost var before := name;
      if |name| > 0 { name := name + "."; }
      name := name + Chars(request[pos..pos + labelLen]);
      assert name == Append(before, Chars(request[pos..pos + labelLen]));
      pos := pos + labelLen;
    }
    return if name == "" then None else Some(Lower(name));
  }

  method ParseQType(request: seq<Byte>) returns (qtype: int)
    ensures qtype == QType(request)
  {
    if |request| < HEADER_SIZE { return -1; }
    var pos: nat := HEADER_SIZE;
    while pos < |request|
      invariant Skip(request, pos) == Skip(request, HEADER_SIZE)
      decreases |request| - pos
    {
      var labelLen := request[pos];
      if labelLen == 0 {
        pos := pos + 1;
        break;
      }
      pos := pos + 1 + labelLen;
    }
    assert pos == Skip(request, HEADER_SIZE);
    if pos + 1 >= |request| { return -1; }
    return Word(request, pos);
  }

  // ---------------------------------------------------------------- the response

  /** The address argument of `buildResponse`: blank, four octets, or a name that does not resolve. */
  datatype Address = NoAddress | Octets(ip: seq<Byte>) | Unresolvable

  function U16(n: nat): seq<Byte>
    requires n < 0x10000
  {
    [n / 256, n % 256]
  }

  function U32(n: nat): seq<Byte>
    requires n < 0x1_0000_0000
  {
    U16(n / 0x10000) + U16(n % 0x10000)
  }

  function Header(id: seq<Byte>, flags: nat, answers: nat): seq<Byte>
    requires flags < 0x10000 && answers < 0x10000
  {
    id + U16(flags) + U16(1) + U16(answers) + U16(0) + U16(0)
  }

  /** A resource record whose name is a pointer to offset 12. */
  function AnswerBytes(ip: seq<Byte>): seq<Byte> {
    [0xC0, 0x0C] + U16(1) + U16(1) + U32(TTL_SECONDS) + U16(4) + ip
  }

  function Response(query: seq<Byte>, address: Address): Option<seq<Byte>> {
    if |query| < HEADER_SIZE then None
    else
      var end := ZeroFrom(query, HEADER_SIZE);
      if end >= |query| || end + 5 > |query| then None
      else
        var question := query[HEADER_SIZE..end + 5];
        match address
        case NoAddress => Some(Header(query[..2], 0x8183, 0) + question)
        case Octets(ip) => Some(Header(query[..2], 0x8180, 1) + question + AnswerBytes(ip))
        case Unresolvable => None
  }

  method BuildResponse(query: seq<Byte>, address: Address) returns (response: Option<seq<Byte>>)
    ensures response == Response(query, address)
  {
    if |query| < HEADER_SIZE { return None; }
    var found := !address.NoAddress?;
    var out := Header(query[..2], if found then 0x8180 else 0x8183, if found then 1 else 0);
    var qnameEnd := HEADER_SIZE;
    while qnameEnd < |query| && query[qnameEnd] != 0
      invariant HEADER_SIZE <= qnameEnd <= |query|
      invariant ZeroFrom(query, qnameEnd) == ZeroFrom(query, HEADER_SIZE)
    {
      qnameEnd := qnameEnd + 1;
    }
    if qnameEnd >= |query| { return None; }
    var questionLen := (qnameEnd - HEADER_SIZE) + 1 + 4;
    if HEADER_SIZE + questionLen > |query| { return None; }
    out := out + query[HEADER_SIZE..HEADER_SIZE + questionLen];
    if found {
      if address.Unresolvable? { return None; }
      out := out + AnswerBytes(address.ip);
    }
    return Some(out);
  }

  // ---------------------------------------------------------------- names in a packet

  /** The packet holds these labels from `pos` on, with their terminating zero byte. */
  predicate NameAt(packet: seq<Byte>, pos: nat, labels: seq<Label>)
    decreases labels
  {
    if labels == [] then pos < |packet| && packet[pos] == 0
    else
      var next := pos + 1 + |labels[0]|;
      && next <= |packet| && packet[pos] == |labels[0]|
      && packet[pos + 1..next] == labels[0]
      && NameAt(packet, next, labels[1..])
  }

  /** Encoded length without the terminator. */
  function WireLength(labels: seq<Label>): nat {
    if labels == [] then 0 else 1 + |labels[0]| + WireLength(labels[1..])
  }

  predicate NoZero(l: Label) {
    forall i :: 0 <= i < |l| ==> l[i] != 0
  }

  /** The labels with dots between them. */
  function Dotted(labels: seq<Label>): string {
    if labels == [] then ""
    else if |labels| == 1 then Chars(labels[0])
    else Chars(labels[0]) + "." + Dotted(labels[1..])
  }

  /** Lengths both parsers take for a label; RFC 1035 allows the first 63. */
  predicate LabelSizes(labels: seq<Label>, most: nat) {
    forall i :: 0 <= i < |labels| ==> 1 <= |labels[i]| <= most
  }

  /** The name so far, continued with the labels. */
  function Continued(name: string, labels: seq<Label>): string {
    if labels == [] then name else Append(name, Dotted(labels))
  }

  lemma ContinuedStep(name: string, labels: seq<Label>)
    requires labels != [] && |labels[0]| > 0
    ensures Continued(Append(name, Chars(labels[0])), labels[1..]) == Continued(name, labels)
  {
    var l := Chars(labels[0]);
    assert l != "";
    if |labels| > 1 {
      var rest := Dotted(labels[1..]);
      assert name + "." + l + "." + rest == name + "." + (l + "." + rest);
    }
  }

  lemma {:induction false} WalkName(packet: seq<Byte>, pos: nat, labels: seq<Label>, name: string)
    requires NameAt(packet, pos, labels) && LabelSizes(labels, 0xBF)
    ensures Walk(packet, pos, name) == Some(Continued(name, labels))
    decreases labels
  {
    hide Append, Dotted, Chars;
    if labels != [] {
      ContinuedStep(name, labels);
      WalkName(packet, pos + 1 + |labels[0]|, labels[1..], Append(name, Chars(labels[0])));
    }
  }

  lemma {:induction false} SkipName(packet: seq<Byte>, pos: nat, labels: seq<Label>)
    requires NameAt(packet, pos, labels) && LabelSizes(labels, 0xFF)
    ensures Skip(packet, pos) == pos + WireLength(labels) + 1
    ensures pos + WireLength(labels) < |packet| && packet[pos + WireLength(labels)] == 0
    decreases labels
  {
    if labels != [] {
      SkipName(packet, pos + 1 + |labels[0]|, labels[1..]);
    }
  }

  predicate AllNoZero(labels: seq<Label>) {
    forall i :: 0 <= i < |labels| ==> NoZero(labels[i])
  }

  lemma {:induction false} ScanName(packet: seq<Byte>, pos: nat, labels: seq<Label>)
    requires NameAt(packet, pos, labels) && LabelSizes(labels, 0xFF) && pos <= |packet|
    ensures ZeroFrom(packet, pos) == pos + WireLength(labels) <==> AllNoZero(labels)
    decreases labels
  {
    if labels != [] {
      SkipName(packet, pos, labels);
      var l, next := labels[0], pos + 1 + |labels[0]|;
      ScanName(packet, next, labels[1..]);
      assert AllNoZero(labels) <==> NoZero(l) && AllNoZero(labels[1..]) by {
        assert labels == [l] + labels[1..];
      }
      assert forall i :: 0 <= i < |l| ==> packet[pos + 1 + i] == l[i];
      if NoZero(l) {
        ScanPast(packet, pos, next);
      } else {
        var i :| 0 <= i < |l| && l[i] == 0;
        assert packet[pos + 1 + i] == 0;
      }
    }
  }

  lemma {:induction false} ScanPast(packet: seq<Byte>, pos: nat, next: nat)
    requires pos <= next <= |packet| && forall i :: pos <= i < next ==> packet[i] != 0
    ensures ZeroFrom(packet, pos) == ZeroFrom(packet, next)
    decreases next - pos
  {
    if pos < next { ScanPast(packet, pos + 1, next); }
  }

  /** In every packet that holds a name of labels of 1 to 191 bytes after its header, the two label walks
      find the same end, and the zero-byte scan finds it too exactly when no label contains a zero byte. */
  lemma WalksAgree(packet: seq<Byte>, labels: seq<Label>)
    requires |packet| >= HEADER_SIZE && NameAt(packet, HEADER_SIZE, labels) && LabelSizes(labels, 0xBF)
    ensures Walk(packet, HEADER_SIZE, "") == Some(Dotted(labels))
    ensures Skip(packet, HEADER_SIZE) == HEADER_SIZE + WireLength(labels) + 1
    ensures ZeroFrom(packet, HEADER_SIZE) + 1 == Skip(packet, HEADER_SIZE) <==> AllNoZero(labels)
  {
    WalkName(packet, HEADER_SIZE, labels, "");
    SkipName(packet, HEADER_SIZE, labels);
    ScanName(packet, HEADER_SIZE, labels);
  }

  lemma {:induction false} NameCopied(a: seq<Byte>, b: seq<Byte>, pos: nat, labels: seq<Label>)
    requires NameAt(a, pos, labels) && LabelSizes(labels, 0xFF)
    requires pos + WireLength(labels) < |a| && pos + WireLength(labels) < |b|
    requires forall i :: pos <= i <= pos + WireLength(labels) ==> a[i] == b[i]
    ensures NameAt(b, pos, labels)
    decreases labels
  {
    if labels != [] {
      var next := pos + 1 + |labels[0]|;
      assert b[pos + 1..next] == a[pos + 1..next];
      NameCopied(a, b, next, labels[1..]);
    }
  }

  // ---------------------------------------------------------------- the echo

  /** A query for a name of one or more labels, with QTYPE and QCLASS, and anything after them. */
  predicate QueryFor(query: seq<Byte>, labels: seq<Label>, most: nat) {
    && |query| >= HEADER_SIZE + WireLength(labels) + 5
    && labels != [] && LabelSizes(labels, most) && AllNoZero(labels)
    && NameAt(query, HEADER_SIZE, labels)
  }

  lemma QuestionEnd(query: seq<Byte>, labels: seq<Label>)
    requires QueryFor(query, labels, 0xBF)
    ensures ZeroFrom(query, HEADER_SIZE) == HEADER_SIZE + WireLength(labels)
  {
    WalksAgree(query, labels);
  }

  /** The shape of every response: same id, same question, and the answer right behind it. */
  lemma ResponseShape(query: seq<Byte>, labels: seq<Label>, address: Address) returns (r: seq<Byte>)
    requires QueryFor(query, labels, 0xBF) && !address.Unresolvable?
    ensures Response(query, address) == Some(r)
    ensures var found := address.Octets?; var n := HEADER_SIZE + WireLength(labels) + 5;
            && |r| == n + (if found then |AnswerBytes(address.ip)| else 0)
            && r[..HEADER_SIZE] == Header(query[..2], if found then 0x8180 else 0x8183, if found then 1 else 0)
            && (forall i :: HEADER_SIZE <= i < n ==> r[i] == query[i])
            && (found ==> r[n..] == AnswerBytes(address.ip))
  {
    QuestionEnd(query, labels);
    r := Response(query, address).value;
  }

  /** The response to a well-formed query parses back to the same domain, query type and id. */
  lemma Echo(query: seq<Byte>, labels: seq<Label>, address: Address)
    requires QueryFor(query, labels, 0xBF) && !address.Unresolvable?
    ensures Response(query, address).Some?
    ensures var r := Response(query, address).value;
            && Domain(r) == Domain(query) == Some(Lower(Dotted(labels)))
            && QType(r) == QType(query) == Word(query, HEADER_SIZE + WireLength(labels) + 1)
            && |r| >= HEADER_SIZE && r[..2] == query[..2]
  {
    hide Response, NameAt, AnswerBytes, Walk, Skip;
    var r := ResponseShape(query, labels, address);
    NameCopied(query, r, HEADER_SIZE, labels);
    WalksAgree(query, labels);
    WalksAgree(r, labels);
    DottedNonEmpty(labels);
    assert r[..2] == r[..HEADER_SIZE][..2];
  }

  lemma DottedNonEmpty(labels: seq<Label>)
    requires LabelSizes(labels, 0xFF) && labels != []
    ensures Dotted(labels) != ""
  {
    assert |Chars(labels[0])| == |labels[0]|;
  }

  // ---------------------------------------------------------------- what the name spells

  /** The code of the character a name byte becomes. */
  function LowerCode(b: Byte): int {
    if 65 <= b <= 90 then b + 32 else b
  }

  /** Where the j-th label's first byte stands in a packet that holds the labels after its header. */
  function LabelOffset(labels: seq<Label>, j: nat): nat
    requires j <= |labels|
  {
    HEADER_SIZE + WireLength(labels[..j]) + 1
  }

  predicate NoDots(labels: seq<Label>) {
    forall j :: 0 <= j < |labels| ==> 46 !in labels[j]
  }

  lemma {:induction false} LabelBytes(packet: seq<Byte>, pos: nat, labels: seq<Label>, j: nat)
    requires NameAt(packet, pos, labels) && j < |labels|
    ensures var at := pos + WireLength(labels[..j]) + 1;
            at + |labels[j]| <= |packet| && packet[at..at + |labels[j]|] == labels[j]
    decreases labels
  {
    if j > 0 {
      LabelBytes(packet, pos + 1 + |labels[0]|, labels[1..], j - 1);
      assert labels[..j][1..] == labels[1..][..j - 1];
    }
  }

  lemma LowerJoin(a: string, b: string)
    ensures Lower(a + "." + b) == Lower(a) + ['.'] + Lower(b)
  {
    var s := a + "." + b;
    assert forall i :: 0 <= i < |a| ==> s[i] == a[i];
    assert s[|a|] == '.';
    assert forall i :: 0 <= i < |b| ==> s[|a| + 1 + i] == b[i];
  }

  lemma NoDotChars(l: Label)
    requires 46 !in l
    ensures '.' !in Lower(Chars(l))
  {
    var s := Lower(Chars(l));
    forall i | 0 <= i < |s| ensures s[i] != '.' {
      assert l[i] in l;
    }
  }

  /** Splitting the name at its dots gives the labels back. */
  lemma {:induction false} DottedParts(labels: seq<Label>, j: nat)
    requires NoDots(labels) && j < |labels|
    ensures |Split(Lower(Dotted(labels)), '.')| == |labels|
    ensures Split(Lower(Dotted(labels)), '.')[j] == Lower(Chars(labels[j]))
  {
    hide Lower, Chars, Split;
    NoDotChars(labels[0]);
    if |labels| == 1 {
      SplitNone(Lower(Chars(labels[0])), '.');
    } else {
      var rest := labels[1..];
      LowerJoin(Chars(labels[0]), Dotted(rest));
      SplitCons(Lower(Chars(labels[0])), '.', Lower(Dotted(rest)));
      DottedParts(rest, if j > 0 then j - 1 else 0);
    }
  }

  /** The parsed name, split at its dots, has one part per label, and each of its characters is the packet's
      byte at the same place of that label, in lower case. */
  lemma NameSpelled(query: seq<Byte>, labels: seq<Label>, j: nat, i: nat)
    requires QueryFor(query, labels, 0xBF) && NoDots(labels) && j < |labels| && i < |labels[j]|
    ensures Domain(query).Some?
    ensures var parts, at := Split(Domain(query).value, '.'), LabelOffset(labels, j);
            && |parts| == |labels| && |parts[j]| == |labels[j]|
            && at + i < |query| && query[at - 1] == |parts[j]|
            && parts[j][i] as int == LowerCode(query[at + i])
  {
    hide Walk, Split, NameAt, Dotted;
    WalksAgree(query, labels);
    DottedNonEmpty(labels);
    DottedParts(labels, j);
    LabelBytes(query, HEADER_SIZE, labels, j);
    LengthByte(query, HEADER_SIZE, labels, j);
    var at := LabelOffset(labels, j);
    assert query[at..at + |labels[j]|][i] == query[at + i];
  }

  lemma {:induction false} LengthByte(packet: seq<Byte>, pos: nat, labels: seq<Label>, j: nat)
    requires NameAt(packet, pos, labels) && j < |labels|
    ensures pos + WireLength(labels[..j]) < |packet| && packet[pos + WireLength(labels[..j])] == |labels[j]|
    decreases labels
  {
    if j > 0 {
      LengthByte(packet, pos + 1 + |labels[0]|, labels[1..], j - 1);
      assert labels[..j][1..] == labels[1..][..j - 1];
    }
  }

  // ---------------------------------------------------------------- every packet, malformed ones included

  /** The labels fill the packet from `pos` up to `end`. */
  predicate LabelsTo(packet: seq<Byte>, pos: nat, labels: seq<Label>, end: nat)
    decreases labels
  {
    if labels == [] then end == pos
    else
      var next := pos + 1 + |labels[0]|;
      && next <= |packet| && packet[pos] == |labels[0]|
      && packet[pos + 1..next] == labels[0]
      && LabelsTo(packet, next, labels[1..], end)
  }

  /** The end of the packet, a zero byte or a compression pointer. */
  predicate Stops(packet: seq<Byte>, end: nat) {
    end >= |packet| || packet[end] == 0 || packet[end] >= 0xC0
  }

  /** A length byte that promises more than the packet holds. */
  predicate Overflows(packet: seq<Byte>, end: nat) {
    end < |packet| && 1 <= packet[end] < 0xC0 && end + 1 + packet[end] > |packet|
  }

  lemma {:induction false} WalkExact(packet: seq<Byte>, pos: nat, name: string) returns (labels: seq<Label>, end: nat)
    requires pos <= |packet|
    ensures LabelsTo(packet, pos, labels, end) && LabelSizes(labels, 0xBF)
    ensures Stops(packet, end) || Overflows(packet, end)
    ensures Walk(packet, pos, name) == if Stops(packet, end) then Some(Continued(name, labels)) else None
    decreases |packet| - pos
  {
    hide Append, Dotted, Chars;
    labels, end := [], pos;
    if !Stops(packet, pos) && !Overflows(packet, pos) {
      var next := pos + 1 + packet[pos];
      var l := packet[pos + 1..next];
      var rest;
      rest, end := WalkExact(packet, next, Append(name, Chars(l)));
      labels := [l] + rest;
      assert labels[1..] == rest;
      ContinuedStep(name, labels);
    }
  }

  /** For every packet whatsoever: the parser reads labels up to the first byte that is none, and gives their
      dotted lower-case name, or nothing for a short packet, a packet without labels or a label that
      overflows the packet. */
  lemma DomainExact(packet: seq<Byte>) returns (labels: seq<Label>, end: nat)
    ensures |packet| < 12 ==> Domain(packet) == None && QType(packet) == -1
    ensures |packet| >= 12 ==>
              && LabelsTo(packet, 12, labels, end) && LabelSizes(labels, 191)
              && (Stops(packet, end) || Overflows(packet, end))
              && Domain(packet) == if Stops(packet, end) && labels != [] then Some(Lower(Dotted(labels))) else None
  {
    hide Walk, Dotted, Lower;
    labels, end := [], 0;
    if |packet| >= 12 {
      labels, end := WalkExact(packet, 12, "");
      if labels != [] { DottedNonEmpty(labels); }
    }
  }

  /** The query type is the big-endian word behind the name's zero byte, and -1 when the packet ends before it. */
  lemma QTypeExact(packet: seq<Byte>, labels: seq<Label>)
    requires |packet| >= HEADER_SIZE && NameAt(packet, HEADER_SIZE, labels) && LabelSizes(labels, 0xFF)
    ensures var p := 12 + WireLength(labels) + 1;
            QType(packet) == if p + 1 < |packet| then packet[p] as int * 256 + packet[p + 1] as int else -1
  {
    SkipName(packet, HEADER_SIZE, labels);
  }

  lemma HeaderBytes(id: seq<Byte>, found: bool)
    requires |id| == 2
    ensures Header(id, if found then 0x8180 else 0x8183, if found then 1 else 0)
         == [id[0], id[1], 0x81, if found then 0x80 else 0x83, 0, 1, 0, if found then 1 else 0, 0, 0, 0, 0]
  {
  }

  lemma RecordBytes(ip: seq<Byte>)
    ensures AnswerBytes(ip) == [0xC0, 0x0C, 0, 1, 0, 1, 0, 0, 0, 60, 0, 4] + ip
  {
  }

  /** A zero byte with four more behind it, and none before it. */
  predicate QuestionEndsAt(query: seq<Byte>, z: nat) {
    12 <= z && z + 5 <= |query| && query[z] == 0 && forall i :: 12 <= i < z ==> query[i] != 0
  }

  /** There is no response exactly for queries without a complete question and for unresolvable addresses. */
  lemma NoResponse(query: seq<Byte>, address: Address)
    ensures Response(query, address).None? <==> address.Unresolvable? || forall z :: !QuestionEndsAt(query, z)
  {
    hide Header, AnswerBytes;
    if |query| >= 12 {
      var z := ZeroFrom(query, 12);
      if z + 5 <= |query| { assert QuestionEndsAt(query, z); }
    }
  }

  /** The response byte by byte: the query's id, the flags, one question and its counts, the query's own
      question section, and the 16 bytes of the record where there is an address. */
  lemma ResponseBytes(query: seq<Byte>, address: Address, z: nat)
    requires QuestionEndsAt(query, z) && !address.Unresolvable?
    ensures var found := address.Octets?;
            Response(query, address)
            == Some([query[0], query[1], 0x81, if found then 0x80 else 0x83, 0, 1, 0, if found then 1 else 0, 0, 0, 0, 0]
                    + query[12..z + 5]
                    + (if found then [0xC0, 0x0C, 0, 1, 0, 1, 0, 0, 0, 60, 0, 4] + address.ip else []))
  {
    hide Header, AnswerBytes;
    assert ZeroFrom(query, 12) == z;
    HeaderBytes(query[..2], address.Octets?);
    if address.Octets? {
      RecordBytes(address.ip);
    } else {
      assert Response(query, address).value + [] == Response(query, address).value;
    }
  }

  // ---------------------------------------------------------------- a reference decoder

  datatype Question = Question(name: seq<Label>, qtype: int, qclass: int)
  datatype Rr = Rr(name: seq<Label>, rtype: int, rclass: int, ttl: int, rdata: seq<Byte>)
  datatype Message = Message(id: int, flags: int, questions: seq<Question>, answers: seq<Rr>, authority: int, additional: int)

  /** A name and the position after it. Pointers (section 4.1.4) must lead to before `limit`. */
  function DecodeName(m: seq<Byte>, pos: nat, limit: nat): Option<(seq<Label>, nat)>
    decreases limit, |m| - pos
  {
    if pos >= |m| then None
    else if m[pos] == 0 then Some(([], pos + 1))
    else if m[pos] >= 0xC0 then
      if pos + 1 >= |m| then None
      else
        var target := Pair(m[pos] - 0xC0, m[pos + 1]);
        if target >= limit then None
        else
          match DecodeName(m, target, target)
          case None => None
          case Some(named) => Some((named.0, pos + 2))
    else if m[pos] >= 0x40 then None
    else
      var next := pos + 1 + m[pos];
      if next > |m| then None
      else
        match DecodeName(m, next, limit)
        case None => None
        case Some(named) => Some(([m[pos + 1..next]] + named.0, named.1))
  }

  function DecodeQuestions(m: seq<Byte>, pos: nat, n: nat): Option<(seq<Question>, nat)>
    decreases n
  {
    if n == 0 then Some(([], pos))
    else
      match DecodeName(m, pos, pos)
      case None => None
      case Some(named) =>
        var p := named.1;
        if p + 4 > |m| then None
        else
          match DecodeQuestions(m, p + 4, n - 1)
          case None => None
          case Some(rest) => Some(([Question(named.0, Word(m, p), Word(m, p + 2))] + rest.0, rest.1))
  }

  function DecodeAnswers(m: seq<Byte>, pos: nat, n: nat): Option<(seq<Rr>, nat)>
    decreases n
  {
    if n == 0 then Some(([], pos))
    else
      match DecodeName(m, pos, pos)
      case None => None
      case Some(named) =>
        var p := named.1;
        if p + 10 > |m| || p + 10 + Word(m, p + 8) > |m| then None
        else
          var end := p + 10 + Word(m, p + 8);
          match DecodeAnswers(m, end, n - 1)
          case None => None
          case Some(rest) =>
            Some(([Rr(named.0, Word(m, p), Word(m, p + 2), Word(m, p + 4) * 0x10000 + Word(m, p + 6), m[p + 10..end])] + rest.0,
                  rest.1))
  }

  /** A whole message that ends with its answer section. */
  function Decode(m: seq<Byte>): Option<Message> {
    if |m| < HEADER_SIZE then None
    else
      match DecodeQuestions(m, HEADER_SIZE, Word(m, 4))
      case None => None
      case Some(qs) =>
        match DecodeAnswers(m, qs.1, Word(m, 6))
        case None => None
        case Some(rrs) =>
          if rrs.1 != |m| then None
          else Some(Message(Word(m, 0), Word(m, 2), qs.0, rrs.0, Word(m, 8), Word(m, 10)))
  }

  lemma {:induction false} DecodeNameAt(m: seq<Byte>, pos: nat, limit: nat, labels: seq<Label>)
    requires NameAt(m, pos, labels) && LabelSizes(labels, 0x3F)
    ensures DecodeName(m, pos, limit) == Some((labels, pos + WireLength(labels) + 1))
    decreases labels
  {
    if labels != [] {
      DecodeNameAt(m, pos + 1 + |labels[0]|, limit, labels[1..]);
      assert labels == [labels[0]] + labels[1..];
    }
  }

  lemma OneQuestion(m: seq<Byte>, labels: seq<Label>)
    requires |m| >= HEADER_SIZE && NameAt(m, HEADER_SIZE, labels) && LabelSizes(labels, 0x3F)
    requires HEADER_SIZE + WireLength(labels) + 5 <= |m|
    ensures var p := HEADER_SIZE + WireLength(labels) + 1;
            DecodeQuestions(m, HEADER_SIZE, 1) == Some(([Question(labels, Word(m, p), Word(m, p + 2))], p + 4))
  {
    DecodeNameAt(m, HEADER_SIZE, HEADER_SIZE, labels);
    hide NameAt, DecodeName, Word;
    var p := HEADER_SIZE + WireLength(labels) + 1;
    assert DecodeQuestions(m, p + 4, 0) == Some(([], p + 4));
    var q := [Question(labels, Word(m, p), Word(m, p + 2))];
    assert q + [] == q;
  }

  /** A pointer to offset 12 names what stands there. */
  lemma PointerName(m: seq<Byte>, pos: nat, labels: seq<Label>)
    requires HEADER_SIZE < pos && pos + 1 < |m| && m[pos] == 0xC0 && m[pos + 1] == 0x0C
    requires NameAt(m, HEADER_SIZE, labels) && LabelSizes(labels, 0x3F)
    ensures DecodeName(m, pos, pos) == Some((labels, pos + 2))
  {
    DecodeNameAt(m, HEADER_SIZE, HEADER_SIZE, labels);
    hide NameAt;
    assert Pair(m[pos] - 0xC0, m[pos + 1]) == HEADER_SIZE;
  }

  lemma AnswerWords(m: seq<Byte>, pos: nat, ip: seq<Byte>)
    requires |ip| == 4 && pos + 16 == |m| && m[pos..] == AnswerBytes(ip)
    ensures m[pos] == 0xC0 && m[pos + 1] == 0x0C
    ensures Word(m, pos + 2) == 1 && Word(m, pos + 4) == 1
    ensures Word(m, pos + 6) == 0 && Word(m, pos + 8) == TTL_SECONDS && Word(m, pos + 10) == 4
    ensures m[pos + 12..pos + 16] == ip
  {
    var a := AnswerBytes(ip);
    assert forall i :: 0 <= i < 16 ==> m[pos + i] == m[pos..][i];
    assert a[0] == 0xC0 && a[1] == 0x0C && a[2] == 0 && a[3] == 1 && a[4] == 0 && a[5] == 1;
    assert a[6] == 0 && a[7] == 0 && a[8] == 0 && a[9] == 60 && a[10] == 0 && a[11] == 4;
    assert a[12..] == ip;
    assert m[pos + 12..pos + 16] == m[pos..][12..];
  }

  lemma OneAnswer(m: seq<Byte>, pos: nat, labels: seq<Label>, ip: seq<Byte>)
    requires |ip| == 4 && pos > HEADER_SIZE && pos + 16 == |m| && m[pos..] == AnswerBytes(ip)
    requires NameAt(m, HEADER_SIZE, labels) && LabelSizes(labels, 0x3F)
    ensures DecodeAnswers(m, pos, 1) == Some(([Rr(labels, 1, 1, TTL_SECONDS, ip)], |m|))
  {
    hide NameAt, DecodeName, Word, AnswerBytes;
    AnswerWords(m, pos, ip);
    PointerName(m, pos, labels);
    assert DecodeAnswers(m, pos + 16, 0) == Some(([], pos + 16));
    var rr := [Rr(labels, 1, 1, TTL_SECONDS, ip)];
    assert rr + [] == rr;
  }

  lemma HeaderWords(m: seq<Byte>, id: seq<Byte>, flags: nat, answers: nat)
    requires |id| == 2 && flags < 0x10000 && answers < 0x10000
    requires |m| >= HEADER_SIZE && m[..HEADER_SIZE] == Header(id, flags, answers)
    ensures Word(m, 0) == Pair(id[0], id[1]) && Word(m, 2) == flags
    ensures Word(m, 4) == 1 && Word(m, 6) == answers && Word(m, 8) == 0 && Word(m, 10) == 0
  {
    var h := Header(id, flags, answers);
    assert forall i :: 0 <= i < 12 ==> m[i] == m[..HEADER_SIZE][i];
    assert h[0] == id[0] && h[1] == id[1] && h[2] == flags / 256 && h[3] == flags % 256;
    assert h[4] == 0 && h[5] == 1 && h[6] == answers / 256 && h[7] == answers % 256;
    assert h[8] == 0 && h[9] == 0 && h[10] == 0 && h[11] == 0;
  }

  /** For every query with RFC 1035 labels, the response is a well-formed message: the query's id, flags
      QR, RD and RA (AA clear), the query's own question, and either one A record of class IN for the
      queried name with the four octets, reached through the pointer, or NXDOMAIN and no record. */
  lemma ResponseDecodes(query: seq<Byte>, labels: seq<Label>, address: Address)
    requires QueryFor(query, labels, 0x3F)
    requires !address.Unresolvable? && (address.Octets? ==> |address.ip| == 4)
    ensures var p := HEADER_SIZE + WireLength(labels) + 1;
            && Response(query, address).Some?
            && Decode(Response(query, address).value)
               == Some(Message(Word(query, 0),
                               if address.Octets? then 0x8180 else 0x8183,
                               [Question(labels, Word(query, p), Word(query, p + 2))],
                               if address.Octets? then [Rr(labels, 1, 1, 60, address.ip)] else [],
                               0, 0))
  {
    hide Response, DecodeName, DecodeQuestions, DecodeAnswers, NameAt, AnswerBytes, Header;
    var found := address.Octets?;
    var r := ResponseShape(query, labels, address);
    NameCopied(query, r, HEADER_SIZE, labels);
    HeaderWords(r, query[..2], if found then 0x8180 else 0x8183, if found then 1 else 0);
    OneQuestion(r, labels);
    var n := HEADER_SIZE + WireLength(labels) + 5;
    if found {
      AnswerLength(address.ip);
      OneAnswer(r, n, labels, address.ip);
    } else {
      NoAnswers(r, n);
    }
  }

  lemma AnswerLength(ip: seq<Byte>)
    ensures |AnswerBytes(ip)| == 12 + |ip|
  {
  }

  lemma NoAnswers(m: seq<Byte>, pos: nat)
    ensures DecodeAnswers(m, pos, 0) == Some(([], pos))
  {
  }

  /** The flag word of every response: the comment beside it promises an authoritative answer, but the
      AA bit is clear. */
  lemma FlagBits(query: seq<Byte>, address: Address)
    requires Response(query, address).Some?
    ensures var r := Response(query, address).value;
            && |r| >= HEADER_SIZE
            && var flags := Word(r, 2);
               && flags / 0x8000 % 2 == 1    // QR
               && flags / 0x0400 % 2 == 0    // AA
               && flags / 0x0100 % 2 == 1    // RD
               && flags / 0x0080 % 2 == 1    // RA
               && flags % 0x10 == (if address.NoAddress? then 3 else 0)
  {
    hide ZeroFrom, AnswerBytes, Word;
    var found, r := !address.NoAddress?, Response(query, address).value;
    HeaderWords(r, query[..2], if found then 0x8180 else 0x8183, if found then 1 else 0);
  }
}
