/**
 The DNS packets of the Android bridge (packages/mobile/android/AndroidDnsBridge.kt).

 The bridge reads the question of a query and writes responses to a stream. Independently of it a
 decoder of complete messages is defined from sections 4.1.1 to 4.1.4 of RFC 1035, and what the
 bridge reads and writes is proved to be what this decoder sees.
 */
module DnsPacket {
  import opened Wrappers

  type Byte = x: int | 0 <= x < 256
  type Bytes = seq<Byte>

  const HEADER_SIZE: nat := 12
  const CLASS_IN: nat := 1
  const NAME_REFERENCE: nat := 0xc00c
  const TTL: nat := 60
  const NO_ERROR: nat := 0
  const SERVER_FAILURE: nat := 2

  /** Two bytes, most significant first. */
  function U16(bytes: Bytes, at: nat): (r: nat)
    requires at + 2 <= |bytes|
    ensures r < 0x1_0000
  {
    var high: int, low: int := bytes[at], bytes[at + 1];
    high * 256 + low
  }

  /** `writeShort` truncates to 16 bits. */
  function Short(v: nat): (r: Bytes)
    ensures |r| == 2
  {
    [v / 256 % 256, v % 256]
  }

  /** The third byte of a response, written without masks; see ResponseFlagsAreMasked. */
  function ResponseFlags(b: Byte): Byte {
    128 + 8 * (b / 8 % 16) + b % 2
  }

  // ---------------------------------------------------------------------
  // The reference decoder
  // ---------------------------------------------------------------------

  datatype Header = Header(
    id: nat, response: bool, opcode: nat, authoritative: bool, truncated: bool, recursionDesired: bool,
    recursionAvailable: bool, reserved: nat, rcode: nat,
    questions: nat, answers: nat, authorities: nat, additionals: nat)

  datatype Name = Name(labels: seq<Bytes>, next: nat, pointed: bool)
  datatype Question = Question(labels: seq<Bytes>, kind: nat, qclass: nat)
  datatype Record = Record(labels: seq<Bytes>, kind: nat, qclass: nat, ttl: nat, data: Bytes)
  datatype Message = Message(
    header: Header, questions: seq<Question>, answers: seq<Record>, authorities: seq<Record>, additionals: seq<Record>)

  /** Section 4.1.1. */
  function DecodeHeader(bytes: Bytes): Header
    requires |bytes| >= HEADER_SIZE
  {
    var flags, more := bytes[2], bytes[3];
    Header(
      U16(bytes, 0), flags / 128 == 1, flags / 8 % 16, flags / 4 % 2 == 1, flags / 2 % 2 == 1, flags % 2 == 1,
      more / 128 == 1, more / 16 % 8, more % 16,
      U16(bytes, 4), U16(bytes, 6), U16(bytes, 8), U16(bytes, 10))
  }

  /** Labels up to an empty one or a pointer (section 4.1.4), which has to point before the start. */
  function DecodeName(bytes: Bytes, at: nat, start: nat): (r: Option<Name>)
    requires at <= |bytes| && start <= |bytes|
    ensures r.Some? ==> at < r.value.next <= |bytes|
    decreases start, |bytes| - at
  {
    if at == |bytes| then None
    else
      var length := bytes[at];
      if length == 0 then Some(Name([], at + 1, false))
      else if length < 64 then
        if at + 1 + length > |bytes| then None
        else
          match DecodeName(bytes, at + 1 + length, start)
          case None => None
          case Some(rest) => Some(Name([bytes[at + 1..at + 1 + length]] + rest.labels, rest.next, rest.pointed))
      else if length >= 192 && at + 2 <= |bytes| && U16(bytes, at) - 0xc000 < start then
        match DecodeName(bytes, U16(bytes, at) - 0xc000, U16(bytes, at) - 0xc000)
        case None => None
        case Some(target) => Some(Name(target.labels, at + 2, true))
      else None
  }

  /** Section 4.1.2. The result comes with the position behind it. */
  function DecodeQuestion(bytes: Bytes, at: nat): (r: Option<(Question, nat)>)
    requires at <= |bytes|
    ensures r.Some? ==> r.value.1 <= |bytes|
  {
    match DecodeName(bytes, at, at)
    case None => None
    case Some(name) =>
      if name.next + 4 > |bytes| then None
      else Some((Question(name.labels, U16(bytes, name.next), U16(bytes, name.next + 2)), name.next + 4))
  }

  function DecodeQuestions(bytes: Bytes, at: nat, count: nat): (r: Option<(seq<Question>, nat)>)
    requires at <= |bytes|
    ensures r.Some? ==> r.value.1 <= |bytes|
    decreases count
  {
    if count == 0 then Some(([], at))
    else
      match DecodeQuestion(bytes, at)
      case None => None
      case Some((first, next)) =>
        match DecodeQuestions(bytes, next, count - 1)
        case None => None
        case Some((rest, end)) => Some(([first] + rest, end))
  }

  /** Section 4.1.3. */
  function DecodeRecord(bytes: Bytes, at: nat): (r: Option<(Record, nat)>)
    requires at <= |bytes|
    ensures r.Some? ==> r.value.1 <= |bytes|
  {
    match DecodeName(bytes, at, at)
    case None => None
    case Some(name) =>
      var i := name.next;
      if i + 10 > |bytes| || i + 10 + U16(bytes, i + 8) > |bytes| then None
      else
        var end := i + 10 + U16(bytes, i + 8);
        var ttl := U16(bytes, i + 4) * 0x1_0000 + U16(bytes, i + 6);
        Some((Record(name.labels, U16(bytes, i), U16(bytes, i + 2), ttl, bytes[i + 10..end]), end))
  }

  function DecodeRecords(bytes: Bytes, at: nat, count: nat): (r: Option<(seq<Record>, nat)>)
    requires at <= |bytes|
    ensures r.Some? ==> r.value.1 <= |bytes|
    decreases count
  {
    if count == 0 then Some(([], at))
    else
      match DecodeRecord(bytes, at)
      case None => None
      case Some((first, next)) =>
        match DecodeRecords(bytes, next, count - 1)
        case None => None
        case Some((rest, end)) => Some(([first] + rest, end))
  }

  /** A message is its header and the sections the header counts, and nothing more. */
  function DecodeMessage(bytes: Bytes): Option<Message> {
    if |bytes| < HEADER_SIZE then None
    else
      var header := DecodeHeader(bytes);
      match DecodeQuestions(bytes, HEADER_SIZE, header.questions)
      case None => None
      case Some((questions, q)) =>
        match DecodeRecords(bytes, q, header.answers)
        case None => None
        case Some((answers, a)) =>
          match DecodeRecords(bytes, a, header.authorities)
          case None => None
          case Some((authorities, n)) =>
            match DecodeRecords(bytes, n, header.additionals)
            case None => None
            case Some((additionals, end)) =>
              if end == |bytes| then Some(Message(header, questions, answers, authorities, additionals)) else None
  }

  // ---------------------------------------------------------------------
  // Reading a query
  // ---------------------------------------------------------------------

  datatype DnsQuestion = DnsQuestion(name: string, kind: nat, endOffset: nat)

  /** Bytes outside ASCII decode to the replacement character. */
  function Ascii(bytes: Bytes): string {
    seq(|bytes|, i requires 0 <= i < |bytes| => if bytes[i] < 128 then bytes[i] as char else '\U{FFFD}')
  }

  function JoinDots(labels: seq<string>): string {
    if labels == [] then ""
    else if |labels| == 1 then labels[0]
    else JoinDots(labels[..|labels| - 1]) + "." + labels[|labels| - 1]
  }

  /** Reading a host name from its end; `rest` is what was read of the label at hand. */
  function SplitDots(host: string, rest: string): seq<string> {
    if host == "" then [rest]
    else
      var front, last := host[..|host| - 1], host[|host| - 1];
      if last == '.' then SplitDots(front, "") + [rest] else SplitDots(front, [last] + rest)
  }

  lemma {:induction false} LabelIsRead(host: string, part: string, rest: string)
    requires '.' !in part
    ensures SplitDots(host + part, rest) == SplitDots(host, part + rest)
  {
    if part == "" {
      assert host + part == host && part + rest == rest;
    } else {
      var n := |part| - 1;
      assert (host + part)[..|host| + n] == host + part[..n];
      LabelIsRead(host, part[..n], [part[n]] + rest);
      assert part[..n] + ([part[n]] + rest) == part + rest;
    }
  }

  /** The host of a question has the labels of its name between its dots, in order, unless a label has
      a dot of its own. */
  lemma {:induction false} HostsHaveTheirLabels(labels: seq<string>)
    requires labels != [] && forall i :: 0 <= i < |labels| ==> '.' !in labels[i]
    ensures SplitDots(JoinDots(labels), "") == labels
  {
    var n := |labels| - 1;
    if n == 0 {
      assert "" + labels[0] == labels[0] == labels[0] + "";
      LabelIsRead("", labels[0], "");
      assert SplitDots("", labels[0]) == [labels[0]];
    } else {
      HostsHaveTheirLabels(labels[..n]);
      var front := JoinDots(labels[..n]) + ".";
      LabelIsRead(front, labels[n], "");
      assert labels[n] + "" == labels[n];
      assert front[..|front| - 1] == JoinDots(labels[..n]);
    }
  }

  function Decoded(labels: seq<Bytes>): (r: seq<string>)
    ensures |r| == |labels|
  {
    seq(|labels|, i requires 0 <= i < |labels| => Ascii(labels[i]))
  }

  datatype Labels = Labels(labels: seq<Bytes>, next: nat)

  /** The loop of `parseQuestion`, which also ends at the end of the packet. */
  function ParseLabels(query: Bytes, at: nat): (r: Option<Labels>)
    ensures r.Some? && at <= |query| ==> at <= r.value.next <= |query|
    decreases |query| - at
  {
    if at >= |query| then Some(Labels([], at))
    else if query[at] == 0 then Some(Labels([], at + 1))
    else if query[at] > 63 || at + 1 + query[at] > |query| then None
    else
      match ParseLabels(query, at + 1 + query[at])
      case None => None
      case Some(rest) => Some(Labels([query[at + 1..at + 1 + query[at]]] + rest.labels, rest.next))
  }

  function ParseQuestion(query: Bytes): (r: Option<DnsQuestion>)
    ensures r.Some? ==> HEADER_SIZE + 4 <= r.value.endOffset <= |query|
  {
    if |query| < HEADER_SIZE || U16(query, 4) != 1 then None
    else
      match ParseLabels(query, HEADER_SIZE)
      case None => None
      case Some(p) =>
        if p.labels == [] || p.next + 4 > |query| || U16(query, p.next + 2) != CLASS_IN then None
        else Some(DnsQuestion(JoinDots(Decoded(p.labels)), U16(query, p.next), p.next + 4))
  }

  lemma {:induction false} ParsedLabelsDecode(query: Bytes, at: nat, start: nat)
    requires at <= |query| && start <= |query|
    ensures
      var p := ParseLabels(query, at);
      p.Some? && p.value.next < |query| ==>
        DecodeName(query, at, start) == Some(Name(p.value.labels, p.value.next, false))
    decreases |query| - at
  {
    if at < |query| && 0 < query[at] <= 63 && at + 1 + query[at] <= |query| {
      ParsedLabelsDecode(query, at + 1 + query[at], start);
    }
  }

  lemma {:induction false} DecodedLabelsParse(query: Bytes, at: nat, start: nat)
    requires at <= |query| && start <= |query|
    ensures
      var n := DecodeName(query, at, start);
      n.Some? && !n.value.pointed ==> ParseLabels(query, at) == Some(Labels(n.value.labels, n.value.next))
    decreases |query| - at
  {
    if at < |query| && 0 < query[at] <= 63 && at + 1 + query[at] <= |query| {
      DecodedLabelsParse(query, at + 1 + query[at], start);
    }
  }

  /** What the bridge makes of a question: one uncompressed question of class IN and not of the root. */
  function Understood(bytes: Bytes): Option<DnsQuestion> {
    if |bytes| < HEADER_SIZE || DecodeHeader(bytes).questions != 1 then None
    else
      var name, question := DecodeName(bytes, HEADER_SIZE, HEADER_SIZE), DecodeQuestion(bytes, HEADER_SIZE);
      if question.None? || name.value.pointed || name.value.labels == [] || question.value.0.qclass != CLASS_IN then None
      else Some(DnsQuestion(JoinDots(Decoded(question.value.0.labels)), question.value.0.kind, question.value.1))
  }

  /** The bridge accepts exactly the queries whose one question the reference decoder finds to be
      plain, and reads from them what the decoder reads. */
  lemma ParsesWhatTheDecoderReads(query: Bytes)
    ensures ParseQuestion(query) == Understood(query)
  {
    if |query| >= HEADER_SIZE {
      ParsedLabelsDecode(query, HEADER_SIZE, HEADER_SIZE);
      DecodedLabelsParse(query, HEADER_SIZE, HEADER_SIZE);
    }
  }

  // ---------------------------------------------------------------------
  // Writing responses
  // ---------------------------------------------------------------------

  function HeaderBytes(query: Bytes, rcode: nat, answers: nat): (r: Bytes)
    requires |query| >= HEADER_SIZE && rcode < 16
    ensures |r| == HEADER_SIZE
  {
    [query[0], query[1], ResponseFlags(query[2]), 0x80 + rcode] + Short(1) + Short(answers) + Short(0) + Short(0)
  }

  /** An address has four or sixteen bytes; nothing below depends on that. */
  function RecordBytes(kind: nat, address: Bytes): (r: Bytes)
    ensures |r| == 12 + |address|
  {
    Short(NAME_REFERENCE) + Short(kind) + Short(CLASS_IN) + [0, 0, TTL / 256, TTL % 256] + Short(|address|) + address
  }

  function AnswersBytes(kind: nat, addresses: seq<Bytes>): Bytes {
    if addresses == [] then [] else RecordBytes(kind, addresses[0]) + AnswersBytes(kind, addresses[1..])
  }

  function AddressResponseBytes(query: Bytes, question: DnsQuestion, addresses: seq<Bytes>): Bytes
    requires HEADER_SIZE <= question.endOffset <= |query|
  {
    HeaderBytes(query, NO_ERROR, |addresses|) + query[HEADER_SIZE..question.endOffset]
    + AnswersBytes(question.kind, addresses)
  }

  function ErrorResponseBytes(query: Bytes, questionEnd: nat, rcode: nat): Bytes
    requires HEADER_SIZE <= questionEnd <= |query| && rcode < 16
  {
    HeaderBytes(query, rcode, 0) + query[HEADER_SIZE..questionEnd]
  }

  function ServerFailureBytes(query: Bytes): Bytes {
    if |query| < HEADER_SIZE then []
    else
      match ParseQuestion(query)
      case Some(question) => ErrorResponseBytes(query, question.endOffset, SERVER_FAILURE)
      case None => [query[0], query[1], ResponseFlags(query[2]), 0x80 + SERVER_FAILURE, 0, 0, 0, 0, 0, 0, 0, 0]
  }

  /** `sameTransaction`. */
  predicate SameTransaction(query: Bytes, response: Bytes) {
    |query| >= 2 && |response| >= 2 && query[0] == response[0] && query[1] == response[1]
  }

  // ---------------------------------------------------------------------
  // Bits
  // ---------------------------------------------------------------------

  lemma FlagBits(b: bv8)
    ensures ((b & 0x79) | 0x80) == 0x80 + (((b >> 3) & 0x0f) << 3) + (b & 1)
  {
  }

  lemma ShiftBits(b: bv8)
    ensures (b >> 3) as int == b as int / 8
  {
  }

  lemma LowBits(b: bv8)
    ensures (b & 0x0f) as int == b as int % 16
    ensures (b & 1) as int == b as int % 2
  {
  }

  lemma SumBits(high: bv8, low: bv8)
    requires high <= 15 && low <= 1
    ensures (0x80 + (high << 3) + low) as int == 128 + 8 * (high as int) + low as int
  {
  }

  /** For every byte this is what the masks make of it: everything but opcode and RD is cleared,
      and the top bit is set. */
  lemma ResponseFlagsAreMasked(bits: bv8)
    ensures ((bits & 0x79) | 0x80) as int == ResponseFlags(bits as int)
  {
    FlagBits(bits);
    ShiftBits(bits);
    LowBits(bits);
    LowBits(bits >> 3);
    SumBits((bits >> 3) & 0x0f, bits & 1);
  }

  lemma ResponseFlagsFields(b: Byte)
    ensures
      var flags := ResponseFlags(b);
      && flags / 128 == 1 && flags / 8 % 16 == b / 8 % 16 && flags / 4 % 2 == 0 && flags / 2 % 2 == 0
      && flags % 2 == b % 2
  {
    var opcode, rd := b / 8 % 16, b % 2;
    assert ResponseFlags(b) / 8 == 16 + opcode;
  }

  // ---------------------------------------------------------------------
  // What the responses say
  // ---------------------------------------------------------------------

  /** The header of a response to a query: id, opcode and RD are those of the query. */
  function ResponseHeader(query: Bytes, rcode: nat, questions: nat, answers: nat): Header
    requires |query| >= HEADER_SIZE
  {
    var asked := DecodeHeader(query);
    Header(asked.id, true, asked.opcode, false, false, asked.recursionDesired, true, 0, rcode, questions, answers, 0, 0)
  }

  lemma ShortAt(bytes: Bytes, at: nat, v: nat)
    requires at + 2 <= |bytes| && bytes[at..at + 2] == Short(v) && v < 0x1_0000
    ensures U16(bytes, at) == v
  {
    assert bytes[at] == bytes[at..at + 2][0] && bytes[at + 1] == bytes[at..at + 2][1];
  }

  lemma ShortTruncates(v: nat)
    ensures Short(v) == Short(v % 0x1_0000)
  {
    assert v == 256 * 256 * (v / 0x1_0000) + v % 0x1_0000;
    assert v / 256 == 256 * (v / 0x1_0000) + v % 0x1_0000 / 256;
  }

  lemma HeaderFields(query: Bytes, rcode: nat, answers: nat, rest: Bytes)
    requires |query| >= HEADER_SIZE && rcode < 16
    ensures
      var bytes := HeaderBytes(query, rcode, answers) + rest;
      && bytes[0] == query[0] && bytes[1] == query[1] && bytes[2] == ResponseFlags(query[2]) && bytes[3] == 0x80 + rcode
      && bytes[4..6] == Short(1) && bytes[6..8] == Short(answers) && bytes[8..10] == Short(0) && bytes[10..12] == Short(0)
  {
    hide ResponseFlags, Short;
  }

  lemma HeaderDecodes(query: Bytes, rcode: nat, answers: nat, rest: Bytes)
    requires |query| >= HEADER_SIZE && rcode < 16
    ensures DecodeHeader(HeaderBytes(query, rcode, answers) + rest) == ResponseHeader(query, rcode, 1, answers % 0x1_0000)
  {
    ResponseFlagsFields(query[2]);
    HeaderFields(query, rcode, answers, rest);
    ShortTruncates(answers);
    var bytes := HeaderBytes(query, rcode, answers) + rest;
    assert U16(bytes, 0) == U16(query, 0);
    hide ResponseFlags, HeaderBytes, Short, U16;
    ShortAt(bytes, 4, 1);
    ShortAt(bytes, 6, answers % 0x1_0000);
    ShortAt(bytes, 8, 0);
    ShortAt(bytes, 10, 0);
  }

  /** An uncompressed name is decoded from its own bytes alone. */
  lemma {:induction false} PlainNameIsLocal(a: Bytes, b: Bytes, at: nat, start: nat)
    requires at <= |a| && start <= |a| && at <= |b| && start <= |b|
    requires DecodeName(a, at, start).Some? && !DecodeName(a, at, start).value.pointed
    requires DecodeName(a, at, start).value.next <= |b|
    requires forall k :: at <= k < DecodeName(a, at, start).value.next ==> a[k] == b[k]
    ensures DecodeName(b, at, start) == DecodeName(a, at, start)
    decreases |a| - at
  {
    var length := a[at];
    if 0 < length < 64 {
      PlainNameIsLocal(a, b, at + 1 + length, start);
      assert a[at + 1..at + 1 + length] == b[at + 1..at + 1 + length];
    }
  }

  /** The query and a response that repeats its question: both decode to the same question, and the
      bridge itself reads the same from both. */
  lemma QuestionIsRepeated(query: Bytes, response: Bytes)
    requires ParseQuestion(query).Some?
    requires ParseQuestion(query).value.endOffset <= |response| && DecodeHeader(response).questions == 1
    requires forall k :: HEADER_SIZE <= k < ParseQuestion(query).value.endOffset ==> query[k] == response[k]
    ensures DecodeQuestion(query, HEADER_SIZE).Some?
    ensures DecodeQuestion(response, HEADER_SIZE) == DecodeQuestion(query, HEADER_SIZE)
    ensures DecodeName(response, HEADER_SIZE, HEADER_SIZE) == DecodeName(query, HEADER_SIZE, HEADER_SIZE)
    ensures ParseQuestion(response) == ParseQuestion(query)
  {
    ParsesWhatTheDecoderReads(query);
    ParsesWhatTheDecoderReads(response);
    hide ParseQuestion, DecodeName, DecodeHeader;
    PlainNameIsLocal(query, response, HEADER_SIZE, HEADER_SIZE);
  }

  type Address = b: Bytes | |b| == 4 || |b| == 16 witness [127, 0, 0, 1]

  /** The answers that are meant: one per address, in order, for the name asked about. */
  function Answers(asked: Question, addresses: seq<Address>): (r: seq<Record>)
    ensures |r| == |addresses|
    ensures forall i :: 0 <= i < |r| ==> r[i] == Record(asked.labels, asked.kind, CLASS_IN, TTL, addresses[i])
  {
    seq(|addresses|, i requires 0 <= i < |addresses| => Record(asked.labels, asked.kind, CLASS_IN, TTL, addresses[i]))
  }

  lemma RecordFields(kind: nat, address: Address)
    ensures
      var record := RecordBytes(kind, address);
      && record[0..2] == Short(NAME_REFERENCE) && record[2..4] == Short(kind) && record[4..6] == Short(CLASS_IN)
      && record[6..8] == Short(0) && record[8..10] == Short(TTL) && record[10..12] == Short(|address|)
      && record[12..] == address
  {
  }

  lemma PointerDecodes(bytes: Bytes, at: nat)
    requires HEADER_SIZE < at && at + 2 <= |bytes| && U16(bytes, at) == NAME_REFERENCE
    requires DecodeName(bytes, HEADER_SIZE, HEADER_SIZE).Some?
    ensures DecodeName(bytes, at, at) == Some(Name(DecodeName(bytes, HEADER_SIZE, HEADER_SIZE).value.labels, at + 2, true))
  {
    assert bytes[at] == 192;
  }

  lemma RecordDecodes(bytes: Bytes, at: nat, asked: Question, address: Address)
    requires HEADER_SIZE < at && at + 12 + |address| <= |bytes|
    requires bytes[at..at + 12 + |address|] == RecordBytes(asked.kind, address) && asked.kind < 0x1_0000
    requires DecodeName(bytes, HEADER_SIZE, HEADER_SIZE).Some?
    requires DecodeName(bytes, HEADER_SIZE, HEADER_SIZE).value.labels == asked.labels
    ensures DecodeRecord(bytes, at) ==
            Some((Record(asked.labels, asked.kind, CLASS_IN, TTL, address), at + 12 + |address|))
  {
    hide DecodeName, RecordBytes, Short, U16;
    var record := bytes[at..at + 12 + |address|];
    RecordFields(asked.kind, address);
    assert record[12..] == bytes[at + 12..at + 12 + |address|];
    RecordShort(bytes, at, record, 0, NAME_REFERENCE);
    RecordShort(bytes, at, record, 2, asked.kind);
    RecordShort(bytes, at, record, 4, CLASS_IN);
    RecordShort(bytes, at, record, 6, 0);
    RecordShort(bytes, at, record, 8, TTL);
    RecordShort(bytes, at, record, 10, |address|);
    PointerDecodes(bytes, at);
  }

  lemma RecordShort(bytes: Bytes, at: nat, record: Bytes, i: nat, v: nat)
    requires at + |record| <= |bytes| && bytes[at..at + |record|] == record && i + 2 <= |record|
    requires record[i..i + 2] == Short(v) && v < 0x1_0000
    ensures U16(bytes, at + i) == v
  {
    assert bytes[at + i] == record[i] && bytes[at + i + 1] == record[i + 1];
    assert bytes[at + i..at + i + 2] == record[i..i + 2];
    ShortAt(bytes, at + i, v);
  }

  lemma AnswersSplit(asked: Question, addresses: seq<Address>, count: nat)
    requires 0 < count <= |addresses|
    ensures Answers(asked, addresses[..count]) ==
            [Record(asked.labels, asked.kind, CLASS_IN, TTL, addresses[0])] + Answers(asked, addresses[1..][..count - 1])
  {
  }

  lemma AnswersBytesAt(bytes: Bytes, at: nat, kind: nat, addresses: seq<Address>)
    requires at <= |bytes| && addresses != [] && bytes[at..] == AnswersBytes(kind, addresses)
    ensures at + 12 + |addresses[0]| <= |bytes|
    ensures bytes[at..at + 12 + |addresses[0]|] == RecordBytes(kind, addresses[0])
    ensures bytes[at + 12 + |addresses[0]|..] == AnswersBytes(kind, addresses[1..])
  {
    hide RecordBytes;
    var n := 12 + |addresses[0]|;
    var suffix := bytes[at..];
    assert suffix[..n] == RecordBytes(kind, addresses[0]) && suffix[n..] == AnswersBytes(kind, addresses[1..]);
    assert bytes[at..at + n] == suffix[..n] && bytes[at + n..] == suffix[n..];
  }

  lemma RecordsStep(bytes: Bytes, at: nat, count: nat, first: Record, next: nat, rest: seq<Record>, end: nat)
    requires at <= |bytes| && count > 0 && DecodeRecord(bytes, at) == Some((first, next))
    requires DecodeRecords(bytes, next, count - 1) == Some((rest, end))
    ensures DecodeRecords(bytes, at, count) == Some(([first] + rest, end))
  {
    hide DecodeRecord;
  }

  /** As many answers as are asked for come out, and what is left are those behind them. */
  lemma {:induction false} AnswersDecode(bytes: Bytes, at: nat, asked: Question, addresses: seq<Address>, count: nat)
    requires HEADER_SIZE < at <= |bytes| && count <= |addresses| && asked.kind < 0x1_0000
    requires bytes[at..] == AnswersBytes(asked.kind, addresses)
    requires DecodeName(bytes, HEADER_SIZE, HEADER_SIZE).Some?
    requires DecodeName(bytes, HEADER_SIZE, HEADER_SIZE).value.labels == asked.labels
    ensures DecodeRecords(bytes, at, count) ==
            Some((Answers(asked, addresses[..count]), |bytes| - |AnswersBytes(asked.kind, addresses[count..])|))
    decreases count
  {
    hide DecodeName, RecordBytes, DecodeRecord, AnswersBytes, Answers;
    if count == 0 {
      assert addresses[0..] == addresses;
    } else {
      hide DecodeRecords;
      var rest, next := addresses[1..], at + 12 + |addresses[0]|;
      AnswersBytesAt(bytes, at, asked.kind, addresses);
      RecordDecodes(bytes, at, asked, addresses[0]);
      AnswersDecode(bytes, next, asked, rest, count - 1);
      assert rest[count - 1..] == addresses[count..];
      AnswersSplit(asked, addresses, count);
      RecordsStep(bytes, at, count, Record(asked.labels, asked.kind, CLASS_IN, TTL, addresses[0]), next,
                  Answers(asked, rest[..count - 1]), |bytes| - |AnswersBytes(asked.kind, addresses[count..])|);
    }
  }

  /** The question a query asks. */
  function Asked(query: Bytes): Question
    requires ParseQuestion(query).Some?
  {
    ParsesWhatTheDecoderReads(query);
    DecodeQuestion(query, HEADER_SIZE).value.0
  }

  /** The round trip: the response to an accepted query decodes to the query's id, opcode, RD bit
      and question, and to exactly the addresses, in order, for the name asked about. It does so
      exactly while the count fits into 16 bits; beyond that the response does not decode at all. */
  lemma AddressResponseDecodes(query: Bytes, addresses: seq<Address>)
    requires ParseQuestion(query).Some?
    ensures
      var decoded := DecodeMessage(AddressResponseBytes(query, ParseQuestion(query).value, addresses));
      var asked := Asked(query);
      decoded ==
        if |addresses| < 0x1_0000
        then Some(Message(ResponseHeader(query, NO_ERROR, 1, |addresses|), [asked], Answers(asked, addresses), [], []))
        else None
  {
    hide ParseQuestion, DecodeName, DecodeHeader, HeaderBytes, RecordBytes, DecodeRecord, DecodeQuestion;
    var question := ParseQuestion(query).value;
    var response := AddressResponseBytes(query, question, addresses);
    var end := question.endOffset;
    var count := |addresses| % 0x1_0000;
    var asked := Asked(query);
    ResponseRepeatsQuestion(query, response, NO_ERROR, |addresses|, AnswersBytes(question.kind, addresses));
    assert response[end..] == AnswersBytes(question.kind, addresses);
    AnswersDecode(response, end, asked, addresses, count);
    assert DecodeRecords(response, |response|, 0) == Some(([], |response|));
    if count == |addresses| {
      assert addresses[..count] == addresses;
    } else {
      assert addresses[count..] != [];
    }
  }

  lemma OneQuestion(bytes: Bytes, at: nat)
    requires at <= |bytes| && DecodeQuestion(bytes, at).Some?
    ensures DecodeQuestions(bytes, at, 1) == Some(([DecodeQuestion(bytes, at).value.0], DecodeQuestion(bytes, at).value.1))
  {
    hide DecodeQuestion;
    var (question, next) := DecodeQuestion(bytes, at).value;
    assert DecodeQuestions(bytes, next, 0) == Some(([], next));
    assert [question] + [] == [question];
  }

  /** A response that starts with a header and the question of the query. */
  lemma ResponseRepeatsQuestion(query: Bytes, response: Bytes, rcode: nat, answers: nat, rest: Bytes)
    requires ParseQuestion(query).Some? && rcode < 16
    requires response == HeaderBytes(query, rcode, answers) + query[HEADER_SIZE..ParseQuestion(query).value.endOffset] + rest
    ensures DecodeHeader(response) == ResponseHeader(query, rcode, 1, answers % 0x1_0000)
    ensures ParseQuestion(response) == ParseQuestion(query)
    ensures DecodeQuestions(response, HEADER_SIZE, 1) == Some(([Asked(query)], ParseQuestion(query).value.endOffset))
    ensures DecodeName(response, HEADER_SIZE, HEADER_SIZE).Some?
    ensures DecodeName(response, HEADER_SIZE, HEADER_SIZE).value.labels == Asked(query).labels
    ensures Asked(query).kind == ParseQuestion(query).value.kind < 0x1_0000
  {
    var end := ParseQuestion(query).value.endOffset;
    assert response == HeaderBytes(query, rcode, answers) + (query[HEADER_SIZE..end] + rest);
    HeaderDecodes(query, rcode, answers, query[HEADER_SIZE..end] + rest);
    hide ParseQuestion, DecodeName, DecodeHeader, HeaderBytes, DecodeQuestions;
    assert forall k :: HEADER_SIZE <= k < end ==> query[k] == response[k];
    QuestionIsRepeated(query, response);
    ParsesWhatTheDecoderReads(query);
    OneQuestion(response, HEADER_SIZE);
  }

  /** Every response the bridge writes repeats the question: reading it again gives the same. */
  lemma ReparsingGivesTheSame(query: Bytes, addresses: seq<Bytes>, rcode: nat)
    requires ParseQuestion(query).Some? && rcode < 16
    ensures
      var question := ParseQuestion(query).value;
      && ParseQuestion(AddressResponseBytes(query, question, addresses)) == ParseQuestion(query)
      && ParseQuestion(ErrorResponseBytes(query, question.endOffset, rcode)) == ParseQuestion(query)
  {
    hide ParseQuestion, DecodeName, DecodeHeader, HeaderBytes;
    var question := ParseQuestion(query).value;
    ResponseRepeatsQuestion(query, AddressResponseBytes(query, question, addresses), NO_ERROR, |addresses|, AnswersBytes(question.kind, addresses));
    var failure := ErrorResponseBytes(query, question.endOffset, rcode);
    assert failure + [] == failure;
    ResponseRepeatsQuestion(query, failure, rcode, 0, []);
  }

  /** An error response decodes to the query's question, its rcode and nothing else. */
  lemma ErrorResponseDecodes(query: Bytes, rcode: nat)
    requires ParseQuestion(query).Some? && rcode < 16
    ensures DecodeMessage(ErrorResponseBytes(query, ParseQuestion(query).value.endOffset, rcode)) ==
            Some(Message(ResponseHeader(query, rcode, 1, 0), [Asked(query)], [], [], []))
  {
    hide ParseQuestion, DecodeName, DecodeHeader, HeaderBytes;
    var failure := ErrorResponseBytes(query, ParseQuestion(query).value.endOffset, rcode);
    assert failure + [] == failure;
    ResponseRepeatsQuestion(query, failure, rcode, 0, []);
    assert DecodeRecords(failure, |failure|, 0) == Some(([], |failure|));
  }

  /** A failure response is sent exactly for packets with a complete header; it belongs to the
      transaction, decodes to SERVFAIL, and repeats the question if there is one to repeat. */
  lemma ServerFailureDecodes(query: Bytes)
    ensures SameTransaction(query, ServerFailureBytes(query)) <==> |query| >= HEADER_SIZE
    ensures ServerFailureBytes(query) == [] <==> |query| < HEADER_SIZE
    ensures |query| >= HEADER_SIZE ==>
      var questions := if ParseQuestion(query).Some? then [Asked(query)] else [];
      DecodeMessage(ServerFailureBytes(query)) ==
        Some(Message(ResponseHeader(query, SERVER_FAILURE, |questions|, 0), questions, [], [], []))
  {
    if |query| >= HEADER_SIZE {
      if ParseQuestion(query).Some? {
        ErrorResponseDecodes(query, SERVER_FAILURE);
        hide ParseQuestion, DecodeMessage;
      } else {
        ResponseFlagsFields(query[2]);
        hide ParseQuestion, ResponseFlags, DecodeName;
        var failure := ServerFailureBytes(query);
        assert DecodeHeader(failure) == ResponseHeader(query, SERVER_FAILURE, 0, 0);
        assert DecodeQuestions(failure, HEADER_SIZE, 0) == Some(([], HEADER_SIZE));
        assert DecodeRecords(failure, HEADER_SIZE, 0) == Some(([], HEADER_SIZE));
      }
    }
  }

  // ---------------------------------------------------------------------
  // The code
  // ---------------------------------------------------------------------

  /** The stream a response is written to. */
  class DataOutputStream {
    var written: Bytes

    constructor ()
      ensures written == []
    {
      written := [];
    }

    method WriteByte(b: Byte)
      modifies this
      ensures written == old(written) + [b]
    {
      written := written + [b];
    }

    method WriteShort(v: nat)
      modifies this
      ensures written == old(written) + Short(v)
    {
      WriteByte(v / 256 % 256);
      WriteByte(v % 256);
    }

    method Write(bytes: Bytes)
      modifies this
      ensures written == old(written) + bytes
    {
      written := written + bytes;
    }

    method WriteHeader(query: Bytes, rcode: nat, answerCount: nat)
      requires |query| >= HEADER_SIZE && rcode < 16
      modifies this
      ensures written == old(written) + HeaderBytes(query, rcode, answerCount)
    {
      WriteByte(query[0]);
      WriteByte(query[1]);
      WriteByte(ResponseFlags(query[2]));
      WriteByte(0x80 + rcode);
      WriteShort(1);
      WriteShort(answerCount);
      WriteShort(0);
      WriteShort(0);
    }

    method WriteRecord(kind: nat, address: Bytes)
      modifies this
      ensures written == old(written) + RecordBytes(kind, address)
    {
      hide Short;
      WriteShort(NAME_REFERENCE);
      WriteShort(kind);
      WriteShort(CLASS_IN);
      Write([0, 0, TTL / 256, TTL % 256]);
      WriteShort(|address|);
      Write(address);
    }
  }

  /** Labels read already, before those still to be read. */
  function Prefixed(labels: seq<Bytes>, rest: Option<Labels>): Option<Labels> {
    if rest.None? then None else Some(Labels(labels + rest.value.labels, rest.value.next))
  }

  lemma PrefixedStep(labels: seq<Bytes>, query: Bytes, offset: nat)
    requires offset <= |query|
    ensures
      var all := Prefixed(labels, ParseLabels(query, offset));
      if offset == |query| then all == Some(Labels(labels, offset))
      else
        var length := query[offset];
        if length == 0 then all == Some(Labels(labels, offset + 1))
        else if length > 63 || offset + 1 + length > |query| then all == None
        else
          all == Prefixed(labels + [query[offset + 1..offset + 1 + length]], ParseLabels(query, offset + 1 + length))
  {
    assert labels + [] == labels;
    if offset < |query| && 0 < query[offset] <= 63 && offset + 1 + query[offset] <= |query| {
      var first, rest := [query[offset + 1..offset + 1 + query[offset]]], ParseLabels(query, offset + 1 + query[offset]);
      if rest.Some? {
        assert labels + (first + rest.value.labels) == labels + first + rest.value.labels;
      }
    }
  }

  lemma PrefixedByNothing(rest: Option<Labels>)
    ensures Prefixed([], rest) == rest
  {
    if rest.Some? {
      assert [] + rest.value.labels == rest.value.labels;
    }
  }

  /** `parseQuestion`. */
  method ReadQuestion(query: Bytes) returns (question: Option<DnsQuestion>)
    ensures question == ParseQuestion(query)
  {
    hide Prefixed, ParseLabels, JoinDots, Decoded;
    if |query| < HEADER_SIZE || U16(query, 4) != 1 {
      return None;
    }
    var offset := HEADER_SIZE;
    var labels: seq<Bytes> := [];
    ghost var whole := ParseLabels(query, HEADER_SIZE);
    PrefixedByNothing(whole);
    while offset < |query|
      invariant HEADER_SIZE <= offset <= |query|
      invariant whole == Prefixed(labels, ParseLabels(query, offset))
    {
      PrefixedStep(labels, query, offset);
      var length := query[offset];
      offset := offset + 1;
      if length == 0 {
        assert whole == Some(Labels(labels, offset));
        break;
      }
      if length > 63 || offset + length > |query| {
        return None;
      }
      labels := labels + [query[offset..offset + length]];
      offset := offset + length;
    }
    if offset == |query| {
      PrefixedStep(labels, query, offset);
    }
    assert whole == Some(Labels(labels, offset));
    if labels == [] || offset + 4 > |query| {
      return None;
    }
    if U16(query, offset + 2) != CLASS_IN {
      return None;
    }
    return Some(DnsQuestion(JoinDots(Decoded(labels)), U16(query, offset), offset + 4));
  }

  lemma AppendAnswer(before: Bytes, kind: nat, addresses: seq<Bytes>, i: nat)
    requires i < |addresses|
    ensures before + AnswersBytes(kind, addresses[i..]) ==
            before + RecordBytes(kind, addresses[i]) + AnswersBytes(kind, addresses[i + 1..])
  {
    hide RecordBytes;
    assert addresses[i..][1..] == addresses[i + 1..];
  }

  /** `addressResponse`. */
  method AddressResponse(query: Bytes, question: DnsQuestion, addresses: seq<Address>) returns (response: Bytes)
    requires HEADER_SIZE <= question.endOffset <= |query|
    ensures response == AddressResponseBytes(query, question, addresses)
  {
    hide HeaderBytes, RecordBytes, AnswersBytes;
    var data := new DataOutputStream();
    data.WriteHeader(query, NO_ERROR, |addresses|);
    data.Write(query[HEADER_SIZE..question.endOffset]);
    ghost var start := data.written;
    assert addresses[0..] == addresses;
    for i := 0 to |addresses|
      invariant data.written + AnswersBytes(question.kind, addresses[i..]) == start + AnswersBytes(question.kind, addresses)
    {
      AppendAnswer(data.written, question.kind, addresses, i);
      data.WriteRecord(question.kind, addresses[i]);
    }
    assert addresses[|addresses|..] == [];
    NoAnswers(question.kind);
    response := data.written;
    assert response + [] == response;
  }

  lemma NoAnswers(kind: nat)
    ensures AnswersBytes(kind, []) == []
  {
  }

  /** `errorResponse`. */
  method ErrorResponse(query: Bytes, questionEnd: nat, rcode: nat) returns (response: Bytes)
    requires HEADER_SIZE <= questionEnd <= |query| && rcode < 16
    ensures response == ErrorResponseBytes(query, questionEnd, rcode)
  {
    var data := new DataOutputStream();
    data.WriteHeader(query, rcode, 0);
    data.Write(query[HEADER_SIZE..questionEnd]);
    response := data.written;
  }

  /** `serverFailure`. */
  method ServerFailure(query: Bytes) returns (response: Bytes)
    ensures response == ServerFailureBytes(query)
  {
    hide HeaderBytes;
    if |query| < HEADER_SIZE {
      return [];
    }
    var question := ReadQuestion(query);
    if question.Some? {
      response := ErrorResponse(query, question.value.endOffset, SERVER_FAILURE);
    } else {
      var bytes := new Byte[HEADER_SIZE](_ => 0);
      bytes[0] := query[0];
      bytes[1] := query[1];
      bytes[2] := ResponseFlags(query[2]);
      bytes[3] := 0x80 + SERVER_FAILURE;
      response := bytes[..];
    }
  }
}
