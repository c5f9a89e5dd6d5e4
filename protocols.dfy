/** Protocol disguises for the command-and-control traffic: a payload is
    carried either as the answer record of a DNS packet or after a 48-byte
    NTP header, and an incoming datagram is classified by checking it as
    DNS first and then as NTP. */
module Protocols {

  import opened Wrappers
  import opened Bytes
  import opened Text
  import opened C2Types

  datatype ProtocolError =
    | DNSTooShort      // fewer than 12 bytes
    | DNSIncomplete    // a name, length or payload runs past the end
    | DNSNoAnswer      // the header announces no answer record
    | NTPTooShort      // fewer than 48 bytes

  /** A protocol wrapper: DNS carrying a domain name (the bytes of a Go
      string), or NTP. */
  datatype ProtocolWrapper = DNSWrapper(domain: seq<byte>) | NTPWrapper

  /** The ASCII bytes of "example.com". */
  const DefaultDomain: seq<byte> := [0x65, 0x78, 0x61, 0x6D, 0x70, 0x6C, 0x65, 0x2E, 0x63, 0x6F, 0x6D]

  /** The label separator '.'. */
  const Dot: byte := 0x2E

  /** `NewDNSWrapper`: the empty domain is replaced by the default one. */
  function NewDNSWrapper(domain: seq<byte>): (w: ProtocolWrapper)
    ensures w.DNSWrapper? && w.domain != []
    ensures domain != [] ==> w.domain == domain
  {
    DNSWrapper(if domain == [] then DefaultDomain else domain)
  }

  // ---------------------------------------------------------------------
  // DNS: packet layout

  const DNSHeaderSize: nat := 12

  /** The header `Wrap` writes: ID 0x1234, flags 0x0100 (standard query),
      one question, one answer, no authority or additional records. */
  const DNSQueryHeader: seq<byte> := [0x12, 0x34, 0x01, 0x00, 0x00, 0x01, 0x00, 0x01, 0x00, 0x00, 0x00, 0x00]

  /** Question type ANY (0x00FF), class IN (0x0001). */
  const QuestionTail: seq<byte> := [0x00, 0xFF, 0x00, 0x01]

  const AnswerTTL: uint32 := 60

  /** The ASCII byte of a lower-case hexadecimal digit. */
  function HexDigit(d: nat): (c: byte)
    requires d < 16
    ensures c != Dot
  {
    if d < 10 then 0x30 + d else 0x61 + d - 10
  }

  /** `fmt.Sprintf("%02x", b)`. */
  function Hex2(b: byte): (s: seq<byte>)
    ensures |s| == 2
  {
    [HexDigit(b / 16), HexDigit(b % 16)]
  }

  /** The queried name: the first three payload bytes in hexadecimal, then
      the wrapper's domain, as a fully qualified name. */
  function QueryName(domain: seq<byte>, payload: seq<byte>): seq<byte>
    requires |payload| >= 3
  {
    Subdomain(payload) + [Dot] + domain + [Dot]
  }

  function Subdomain(payload: seq<byte>): (s: seq<byte>)
    requires |payload| >= 3
    ensures |s| == 6 && Dot !in s
  {
    Hex2(payload[0]) + Hex2(payload[1]) + Hex2(payload[2])
  }

  /** One label on the wire: an empty label is the terminating zero byte,
      any other is its byte length (truncated to a byte) and its bytes. */
  function EncodeLabel(lbl: seq<byte>): (r: seq<byte>)
    ensures lbl == [] ==> r == [0]
    ensures lbl != [] ==> r == [|lbl| % 0x100] + lbl
  {
    if lbl == [] then [0] else [|lbl| % 0x100] + lbl
  }

  function EncodeLabels(labels: seq<seq<byte>>): seq<byte> {
    if |labels| == 0 then [] else EncodeLabel(labels[0]) + EncodeLabels(labels[1..])
  }

  lemma {:induction false} EncodeLabelsSnoc(labels: seq<seq<byte>>, l: seq<byte>)
    ensures EncodeLabels(labels + [l]) == EncodeLabels(labels) + EncodeLabel(l)
  {
    if |labels| > 0 {
      assert (labels + [l])[1..] == labels[1..] + [l];
      EncodeLabelsSnoc(labels[1..], l);
    }
  }

  /** The answer record: a pointer to the question's name (offset 12), type
      ANY, class IN, TTL 60, the payload length truncated to 16 bits, then
      the payload. */
  function AnswerRecord(payload: seq<byte>): seq<byte> {
    [0xC0, 0x0C] + QuestionTail + PutUint32BE(AnswerTTL) + PutUint16BE(|payload|) + payload
  }

  /** The packet `DNSWrapper.Wrap` produces. */
  function DNSPacket(domain: seq<byte>, payload: seq<byte>): seq<byte>
    requires |payload| >= 3
  {
    DNSQueryHeader + EncodeLabels(Split(QueryName(domain, payload), Dot)) + QuestionTail + AnswerRecord(payload)
  }

  /** `DNSWrapper.Wrap`: writes the header, the question name label by
      label, the question's type and class, then the answer record. The
      source reads the first three payload bytes, so it needs at least three. */
  method DNSWrap(domain: seq<byte>, payload: seq<byte>) returns (packet: seq<byte>)
    requires |payload| >= 3
    ensures packet == DNSPacket(domain, payload)
  {
    var buf: seq<byte> := DNSQueryHeader;
    buf := WriteName(buf, Split(QueryName(domain, payload), Dot));
    ghost var question := buf;
    buf := buf + QuestionTail;
    buf := buf + [0xC0, 0x0C];
    buf := buf + QuestionTail;
    buf := buf + PutUint32BE(AnswerTTL);
    buf := buf + PutUint16BE(|payload|);
    buf := buf + payload;
    AnswerAppended(question, payload);
    packet := buf;
  }

  /** The loop of `DNSWrapper.Wrap` that writes the name label by label. */
  method WriteName(start: seq<byte>, labels: seq<seq<byte>>) returns (buf: seq<byte>)
    ensures buf == start + EncodeLabels(labels)
  {
    buf := start;
    var i := 0;
    while i < |labels|
      invariant 0 <= i <= |labels|
      invariant buf == start + EncodeLabels(labels[..i])
    {
      var lbl := labels[i];
      if lbl == [] {
        buf := buf + [0];
      } else {
        buf := buf + ([|lbl| % 0x100] + lbl);
      }
      LabelWritten(start, labels, i);
      i := i + 1;
    }
    assert labels[..i] == labels;
  }

  lemma LabelWritten(start: seq<byte>, labels: seq<seq<byte>>, i: nat)
    requires i < |labels|
    ensures start + EncodeLabels(labels[..i]) + EncodeLabel(labels[i]) == start + EncodeLabels(labels[..i + 1])
  {
    EncodeLabelsSnoc(labels[..i], labels[i]);
    TakeSnoc(labels, i);
  }

  lemma TakeSnoc<T>(s: seq<T>, i: nat)
    requires i < |s|
    ensures s[..i + 1] == s[..i] + [s[i]]
  {
  }

  /** The answer record written field by field. */
  lemma AnswerAppended(question: seq<byte>, payload: seq<byte>)
    ensures question + QuestionTail + [0xC0, 0x0C] + QuestionTail + PutUint32BE(AnswerTTL) + PutUint16BE(|payload|) + payload
         == question + QuestionTail + AnswerRecord(payload)
  {
  }

  // ---------------------------------------------------------------------
  // DNS: reading a packet

  /** The top two bits of a name's first byte are set: a compression pointer. */
  predicate IsPointer(b: byte) {
    b / 0x40 == 3
  }

  /** Skips a name of length-prefixed labels starting at `pos`, giving the
      position after its zero byte. */
  function SkipName(data: seq<byte>, pos: nat): (r: Result<nat, ProtocolError>)
    ensures r.Ok? ==> pos < r.value <= |data|
    ensures r.Err? ==> r.error == DNSIncomplete
    decreases |data| - pos
  {
    if pos >= |data| then Err(DNSIncomplete)
    else if data[pos] == 0 then Ok(pos + 1)
    else SkipName(data, pos + 1 + data[pos])
  }

  /** Skips `n` questions: a name followed by type and class. */
  function SkipQuestions(data: seq<byte>, pos: nat, n: nat): (r: Result<nat, ProtocolError>)
    decreases n
    ensures r.Ok? ==> pos <= r.value
    ensures r.Err? ==> r.error == DNSIncomplete
  {
    if n == 0 then Ok(pos)
    else match SkipName(data, pos)
      case Err(e) => Err(e)
      case Ok(p) => SkipQuestions(data, p + 4, n - 1)
  }

  /** Reads the first answer record at `pos`: its name (a pointer or a
      full name), type, class and TTL are skipped, then the data length and
      the data are read. */
  function ReadAnswer(data: seq<byte>, pos: nat): (r: Result<seq<byte>, ProtocolError>)
    ensures r.Ok? ==> |r.value| < 0x1_0000 && |r.value| <= |data| - pos
    ensures r.Ok? ==> exists q :: pos <= q && LengthPrefixedAt(data, q, r.value)
    ensures r.Err? ==> r.error == DNSIncomplete
  {
    if pos >= |data| then Err(DNSIncomplete)
    else
      var name := if IsPointer(data[pos]) then Ok(pos + 2) else SkipName(data, pos);
      match name
      case Err(e) => Err(e)
      case Ok(p) =>
        var q := p + 8;
        if q + 2 > |data| then Err(DNSIncomplete)
        else
          var n := Uint16BE(data[q..q + 2]);
          if q + 2 + n > |data| then Err(DNSIncomplete)
          else
            assert LengthPrefixedAt(data, q, data[q + 2..q + 2 + n]);
            Ok(data[q + 2..q + 2 + n])
  }

  /** At `q` the data holds the length of `v` as a big-endian 16-bit
      number, then `v` itself. */
  predicate LengthPrefixedAt(data: seq<byte>, q: nat, v: seq<byte>) {
    q + 2 + |v| <= |data| && Uint16BE(data[q..q + 2]) == |v| && data[q + 2..q + 2 + |v|] == v
  }

  function QDCount(data: seq<byte>): uint16
    requires |data| >= DNSHeaderSize
  {
    Uint16BE(data[4..6])
  }

  function ANCount(data: seq<byte>): uint16
    requires |data| >= DNSHeaderSize
  {
    Uint16BE(data[6..8])
  }

  /** What `DNSWrapper.Unwrap` returns: the data of the first answer record
      after all questions are skipped. */
  function DNSUnwrapped(data: seq<byte>): (r: Result<seq<byte>, ProtocolError>)
    ensures |data| < DNSHeaderSize <==> r == Err(DNSTooShort)
    ensures r.Ok? ==> ANCount(data) > 0 && |r.value| < |data|
    ensures r.Ok? ==> exists q :: DNSHeaderSize <= q && LengthPrefixedAt(data, q, r.value)
    ensures r == Err(DNSNoAnswer) ==> ANCount(data) == 0
  {
    if |data| < DNSHeaderSize then Err(DNSTooShort)
    else match SkipQuestions(data, DNSHeaderSize, QDCount(data))
      case Err(e) => Err(e)
      case Ok(pos) =>
        if ANCount(data) == 0 then Err(DNSNoAnswer) else ReadAnswer(data, pos)
  }

  /** `DNSWrapper.Unwrap`, walking the packet with a cursor. */
  method DNSUnwrap(data: seq<byte>) returns (r: Result<seq<byte>, ProtocolError>)
    ensures r == DNSUnwrapped(data)
  {
    if |data| < DNSHeaderSize {
      return Err(DNSTooShort);
    }
    var qdCount := Uint16BE(data[4..6]);
    var anCount := Uint16BE(data[6..8]);
    var pos: nat := DNSHeaderSize;
    var i := 0;
    while i < qdCount
      invariant 0 <= i <= qdCount
      invariant SkipQuestions(data, DNSHeaderSize, qdCount) == SkipQuestions(data, pos, qdCount - i)
    {
      var name := SkipNameLoop(data, pos);
      if name.Err? {
        return Err(DNSIncomplete);
      }
      pos := name.value + 4;
      i := i + 1;
    }
    if anCount == 0 {
      return Err(DNSNoAnswer);
    }
    r := ReadAnswerAt(data, pos);
  }

  /** The body of the source's loop over the answers, which returns in its
      first iteration. */
  method ReadAnswerAt(data: seq<byte>, start: nat) returns (r: Result<seq<byte>, ProtocolError>)
    ensures r == ReadAnswer(data, start)
  {
    var pos := start;
    if pos >= |data| {
      return Err(DNSIncomplete);
    }
    if data[pos] / 0x40 == 3 {
      pos := pos + 2;
    } else {
      var name := SkipNameLoop(data, pos);
      if name.Err? {
        return Err(DNSIncomplete);
      }
      pos := name.value;
    }
    pos := pos + 4;
    pos := pos + 4;
    if pos + 2 > |data| {
      return Err(DNSIncomplete);
    }
    var dataLen := Uint16BE(data[pos..pos + 2]);
    pos := pos + 2;
    if pos + dataLen > |data| {
      return Err(DNSIncomplete);
    }
    return Ok(data[pos..pos + dataLen]);
  }

  /** The source's inner loop that steps over the labels of a name. */
  method SkipNameLoop(data: seq<byte>, start: nat) returns (r: Result<nat, ProtocolError>)
    ensures r == SkipName(data, start)
  {
    var pos := start;
    while true
      invariant SkipName(data, start) == SkipName(data, pos)
      decreases |data| - pos
    {
      if pos >= |data| {
        return Err(DNSIncomplete);
      }
      var length := data[pos];
      pos := pos + 1;
      if length == 0 {
        break;
      }
      pos := pos + length;
    }
    return Ok(pos);
  }

  /** `DNSWrapper.IsValid`: a full header with a non-zero ID announcing at
      least one question or answer. */
  predicate DNSIsValid(data: seq<byte>)
    ensures DNSIsValid(data) <==>
      |data| >= DNSHeaderSize && (data[0] != 0 || data[1] != 0)
      && (data[4] != 0 || data[5] != 0 || data[6] != 0 || data[7] != 0)
  {
    |data| >= DNSHeaderSize && Uint16BE(data[0..2]) > 0 && (QDCount(data) > 0 || ANCount(data) > 0)
  }

  // ---------------------------------------------------------------------
  // DNS: round trip

  /** `x` occurs in `data` at `pos`. */
  predicate At(data: seq<byte>, pos: nat, x: seq<byte>) {
    pos + |x| <= |data| && forall i :: 0 <= i < |x| ==> data[pos + i] == x[i]
  }

  lemma AtSplit(data: seq<byte>, pos: nat, x: seq<byte>, y: seq<byte>)
    requires At(data, pos, x + y)
    ensures At(data, pos, x) && At(data, pos + |x|, y)
  {
    forall i | 0 <= i < |x|
      ensures data[pos + i] == x[i]
    {
      assert (x + y)[i] == x[i];
    }
    forall i | 0 <= i < |y|
      ensures data[pos + |x| + i] == y[i]
    {
      assert (x + y)[|x| + i] == y[i];
    }
  }

  lemma AtSlice(data: seq<byte>, pos: nat, x: seq<byte>)
    requires At(data, pos, x)
    ensures data[pos..pos + |x|] == x
  {
  }

  /** A domain whose every label is non-empty and at most 255 bytes long:
      its length fits the length byte and it does not end the name early. */
  predicate ValidDomain(domain: seq<byte>) {
    forall l :: l in Split(domain, Dot) ==> 1 <= |l| <= 0xFF
  }

  /** The labels the name is written from: the hexadecimal subdomain, the
      domain's labels and the empty root label. */
  lemma QueryLabels(domain: seq<byte>, payload: seq<byte>)
    requires |payload| >= 3
    ensures Split(QueryName(domain, payload), Dot) == [Subdomain(payload)] + Split(domain, Dot) + [[]]
  {
    var sub := Subdomain(payload);
    var a := [sub] + Split(domain, Dot);
    JoinSplit(domain, Dot);
    JoinCons(sub, Split(domain, Dot), Dot);
    JoinAppend(a, [[]], Dot);
    assert Join(a + [[]], Dot) == QueryName(domain, payload);
    SplitJoin(a + [[]], Dot);
  }

  /** A name written from labels that are non-empty and short, ending with
      the empty label, is skipped exactly. */
  /** Labels that each fit a length byte and are not empty, ending with the
      empty root label. */
  predicate NameLabels(labels: seq<seq<byte>>)
    decreases |labels|
  {
    |labels| >= 1
    && if |labels| == 1 then labels[0] == [] else 1 <= |labels[0]| <= 0xFF && NameLabels(labels[1..])
  }

  lemma {:induction false} NameLabelsFrom(labels: seq<seq<byte>>)
    requires |labels| >= 1 && labels[|labels| - 1] == []
    requires forall k :: 0 <= k < |labels| - 1 ==> 1 <= |labels[k]| <= 0xFF
    ensures NameLabels(labels)
    decreases |labels|
  {
    if |labels| > 1 {
      var rest := labels[1..];
      assert 1 <= |labels[0]| <= 0xFF;
      assert forall k :: 0 <= k < |rest| - 1 ==> rest[k] == labels[k + 1];
      NameLabelsFrom(rest);
    }
  }

  /** The length byte of each label of a name. */
  function Lengths(labels: seq<seq<byte>>): (r: seq<nat>)
    ensures |r| == |labels|
  {
    if |labels| == 0 then [] else [|labels[0]|] + Lengths(labels[1..])
  }

  /** The bytes a name with these label lengths takes. */
  function NameSize(lens: seq<nat>): nat {
    if |lens| == 0 then 0 else 1 + lens[0] + NameSize(lens[1..])
  }

  /** Length bytes `lens` lie in `data` from `pos`, each followed by that
      many bytes, the last one the zero byte of the root label. */
  predicate LengthsAt(data: seq<byte>, pos: nat, lens: seq<nat>)
    decreases |lens|
  {
    |lens| >= 1 && pos < |data| && data[pos] == lens[0]
    && if |lens| == 1 then lens[0] == 0
       else lens[0] != 0 && LengthsAt(data, pos + 1 + lens[0], lens[1..])
  }

  /** Length bytes laid out in `x` lie as well in any `data` holding `x`. */
  lemma {:induction false} LengthsShift(x: seq<byte>, p: nat, lens: seq<nat>, data: seq<byte>, q: nat)
    requires LengthsAt(x, p, lens)
    requires q + |x| <= |data| && data[q..q + |x|] == x
    ensures LengthsAt(data, q + p, lens)
    decreases |lens|
  {
    assert data[q + p] == data[q..q + |x|][p];
    if |lens| > 1 {
      LengthsShift(x, p + 1 + lens[0], lens[1..], data, q);
    }
  }

  /** An encoded name is as long as its labels and their length bytes. */
  lemma {:induction false} EncodedSize(labels: seq<seq<byte>>)
    ensures |EncodeLabels(labels)| == NameSize(Lengths(labels))
    decreases |labels|
  {
    if |labels| > 0 {
      EncodedSize(labels[1..]);
      assert Lengths(labels)[1..] == Lengths(labels[1..]);
    }
  }

  /** An encoded name lays out the length bytes of its labels. */
  lemma {:induction false} EncodedLengths(labels: seq<seq<byte>>)
    requires NameLabels(labels)
    ensures LengthsAt(EncodeLabels(labels), 0, Lengths(labels))
    decreases |labels|
  {
    var l := labels[0];
    var first, tail := EncodeLabel(l), EncodeLabels(labels[1..]);
    var whole := first + tail;
    var lens := Lengths(labels);
    assert EncodeLabels(labels) == whole;
    assert whole[0] == first[0] == |l| == lens[0];
    if |labels| > 1 {
      assert lens[1..] == Lengths(labels[1..]);
      EncodedLengths(labels[1..]);
      assert whole[|first|..|first| + |tail|] == tail;
      LengthsShift(tail, 0, lens[1..], whole, |first|);
    }
  }

  /** Skipping a name follows its length bytes to just past the root label. */
  lemma {:induction false} SkipLengths(data: seq<byte>, pos: nat, lens: seq<nat>)
    requires LengthsAt(data, pos, lens)
    ensures SkipName(data, pos) == Ok(pos + NameSize(lens))
    decreases |lens|
  {
    if |lens| > 1 {
      SkipLengths(data, pos + 1 + lens[0], lens[1..]);
    }
  }

  /** Skipping a name in `data` laid out as `x` ends just past it. */
  lemma SkipLaidOut(data: seq<byte>, pos: nat, x: seq<byte>, lens: seq<nat>)
    requires LengthsAt(x, 0, lens) && |x| == NameSize(lens)
    requires pos + |x| <= |data| && data[pos..pos + |x|] == x
    ensures SkipName(data, pos) == Ok(pos + |x|)
  {
    LengthsShift(x, 0, lens, data, pos);
    SkipLengths(data, pos, lens);
  }

  /** The length bytes an encoded name lays out, and its size. */
  lemma EncodedLayout(labels: seq<seq<byte>>) returns (lens: seq<nat>)
    requires NameLabels(labels)
    ensures LengthsAt(EncodeLabels(labels), 0, lens) && |EncodeLabels(labels)| == NameSize(lens)
  {
    lens := Lengths(labels);
    EncodedLengths(labels);
    EncodedSize(labels);
  }

  /** The answer record gives back its payload. */
  lemma ReadAnswerRecord(data: seq<byte>, pos: nat, payload: seq<byte>)
    requires |payload| < 0x1_0000
    requires pos + |AnswerRecord(payload)| == |data| && At(data, pos, AnswerRecord(payload))
    ensures ReadAnswer(data, pos) == Ok(payload)
  {
    var a := AnswerRecord(payload);
    var n := PutUint16BE(|payload|);
    assert a == [0xC0, 0x0C] + QuestionTail + PutUint32BE(AnswerTTL) + n + payload;
    assert a[0] == 0xC0 && a[10] == n[0] && a[11] == n[1];
    assert data[pos] == 0xC0;
    assert data[pos + 10..pos + 12] == n;
    Uint16RoundTrip(|payload|);
    AtSplit(data, pos, a[..12], payload);
    AtSlice(data, pos + 12, payload);
  }

  /** `Unwrap` gives back what `Wrap` carried, when the payload length fits
      the 16-bit data length and every domain label fits a length byte. */
  lemma DNSUnwrapWrap(domain: seq<byte>, payload: seq<byte>)
    requires 3 <= |payload| < 0x1_0000
    requires ValidDomain(domain)
    ensures DNSUnwrapped(DNSPacket(domain, payload)) == Ok(payload)
  {
    NameLabelsValid(domain, payload);
    UnwrapEncoded(Split(QueryName(domain, payload), Dot), payload);
  }

  /** The labels of the queried name are short and non-empty, except the
      final empty one. */
  lemma NameLabelsValid(domain: seq<byte>, payload: seq<byte>)
    requires |payload| >= 3
    requires ValidDomain(domain)
    ensures var labels := Split(QueryName(domain, payload), Dot);
      labels[|labels| - 1] == []
      && forall k :: 0 <= k < |labels| - 1 ==> 1 <= |labels[k]| <= 0xFF
  {
    var labels := Split(QueryName(domain, payload), Dot);
    QueryLabels(domain, payload);
    forall k | 0 <= k < |labels| - 1
      ensures 1 <= |labels[k]| <= 0xFF
    {
      if k > 0 {
        assert labels[k] in Split(domain, Dot);
      }
    }
  }

  /** A packet with a well-formed question name unwraps to its payload. */
  lemma UnwrapEncoded(labels: seq<seq<byte>>, payload: seq<byte>)
    requires |labels| >= 1 && labels[|labels| - 1] == []
    requires forall k :: 0 <= k < |labels| - 1 ==> 1 <= |labels[k]| <= 0xFF
    requires |payload| < 0x1_0000
    ensures DNSUnwrapped(DNSQueryHeader + EncodeLabels(labels) + QuestionTail + AnswerRecord(payload)) == Ok(payload)
  {
    var name := EncodeLabels(labels);
    PacketLayout(DNSQueryHeader, name, AnswerRecord(payload));
    NameLabelsFrom(labels);
    var lens := EncodedLayout(labels);
    UnwrapLaidOut(DNSQueryHeader + name + QuestionTail + AnswerRecord(payload), name, lens, payload);
  }

  /** A packet laid out as the query header, a name of length-prefixed
      labels, the question's type and class, and an answer record unwraps to
      that record's data. */
  lemma UnwrapLaidOut(data: seq<byte>, name: seq<byte>, lens: seq<nat>, payload: seq<byte>)
    requires LengthsAt(name, 0, lens) && |name| == NameSize(lens)
    requires |payload| < 0x1_0000
    requires At(data, 0, DNSQueryHeader) && At(data, DNSHeaderSize, name)
    requires At(data, DNSHeaderSize + |name| + 4, AnswerRecord(payload))
    requires |data| == DNSHeaderSize + |name| + 4 + |AnswerRecord(payload)|
    ensures DNSUnwrapped(data) == Ok(payload)
  {
    var q := DNSHeaderSize + |name| + 4;
    HeaderFields(data);
    AtSlice(data, DNSHeaderSize, name);
    SkipLaidOut(data, DNSHeaderSize, name, lens);
    ReadAnswerRecord(data, q, payload);
    UnwrapOneQuestion(data, q, payload);
  }

  /** A packet with one question whose name ends 4 bytes before the answer
      unwraps to that answer's data. */
  lemma UnwrapOneQuestion(data: seq<byte>, q: nat, payload: seq<byte>)
    requires |data| >= DNSHeaderSize && QDCount(data) == 1 && ANCount(data) == 1
    requires q >= 4 && SkipName(data, DNSHeaderSize) == Ok(q - 4)
    requires ReadAnswer(data, q) == Ok(payload)
    ensures DNSUnwrapped(data) == Ok(payload)
  {
    assert SkipQuestions(data, DNSHeaderSize, 1) == SkipQuestions(data, q, 0);
  }

  /** The header fields of a packet that starts with the query header. */
  lemma HeaderFields(data: seq<byte>)
    requires At(data, 0, DNSQueryHeader)
    ensures |data| >= DNSHeaderSize
    ensures Uint16BE(data[0..2]) == 0x1234 && QDCount(data) == 1 && ANCount(data) == 1
  {
    var h := DNSQueryHeader;
    assert h[0] == 0x12 && h[1] == 0x34 && h[4] == 0 && h[5] == 1 && h[6] == 0 && h[7] == 1;
    assert data[0..2] == [0x12, 0x34] && data[4..6] == [0, 1] && data[6..8] == [0, 1];
  }

  /** Where the parts of a DNS packet lie. */
  lemma PacketLayout(header: seq<byte>, name: seq<byte>, answer: seq<byte>)
    requires |header| == DNSHeaderSize
    ensures var data := header + name + QuestionTail + answer;
      At(data, 0, header)
      && At(data, DNSHeaderSize, name)
      && At(data, DNSHeaderSize + |name| + 4, answer)
      && |data| == DNSHeaderSize + |name| + 4 + |answer|
  {
    var data := header + name + QuestionTail + answer;
    assert data == header + (name + (QuestionTail + answer));
    AtSplit(data, 0, header, name + (QuestionTail + answer));
    AtSplit(data, DNSHeaderSize, name, QuestionTail + answer);
    AtSplit(data, DNSHeaderSize + |name|, QuestionTail, answer);
  }

  // ---------------------------------------------------------------------
  // NTP

  const NTPHeaderSize: nat := 48

  /** Leap indicator 0, version 3, mode 3 (client). */
  const NTPLiVnMode: byte := 0x1B
  /** The precision -20 as a Go `int8`, in two's complement. */
  const NTPPrecision: byte := 0x100 - 20
  /** The reference ID, the ASCII bytes "serv". */
  const NTPRefID: uint32 := 0x7365_7276

  /** Go's `uint32(t)` for a 64-bit `t`: the value modulo 2^32. */
  function ToUint32(t: int): uint32 {
    t % Modulus32
  }

  /** The 48-byte header `NTPWrapper.Wrap` writes: stratum 1, poll 6, the
      reference ID, the reference and transmit seconds from the two clock
      readings, every other field zero. */
  function NTPHeader(refSec: int, txSec: int): (h: seq<byte>)
    ensures |h| == NTPHeaderSize
  {
    [NTPLiVnMode, 1, 6, NTPPrecision]
    + Repeat(0, 8)
    + PutUint32BE(NTPRefID)
    + PutUint32BE(ToUint32(refSec))
    + Repeat(0, 20)
    + PutUint32BE(ToUint32(txSec))
    + Repeat(0, 4)
  }

  /** `NTPWrapper.Wrap`: the header, then the payload; `refSec` and `txSec`
      are the two readings of the clock in Unix seconds. */
  function NTPWrap(payload: seq<byte>, refSec: int, txSec: int): (packet: seq<byte>)
    ensures |packet| == NTPHeaderSize + |payload|
    ensures packet[NTPHeaderSize..] == payload
  {
    NTPHeader(refSec, txSec) + payload
  }

  /** `NTPWrapper.Unwrap`: everything after the header. */
  function NTPUnwrap(data: seq<byte>): (r: Result<seq<byte>, ProtocolError>)
    ensures |data| < NTPHeaderSize <==> r.Err?
    ensures r.Err? ==> r.error == NTPTooShort
    ensures r.Ok? ==> data == data[..NTPHeaderSize] + r.value
  {
    if |data| < NTPHeaderSize then Err(NTPTooShort) else Ok(data[NTPHeaderSize..])
  }

  lemma NTPUnwrapWrap(payload: seq<byte>, refSec: int, txSec: int)
    ensures NTPUnwrap(NTPWrap(payload, refSec, txSec)) == Ok(payload)
  {
  }

  /** The version field, bits 3 to 5 of the first byte. */
  function NTPVersion(b: byte): (v: nat)
    ensures v < 8
    ensures v * 8 <= b % 0x40 < v * 8 + 8
  {
    (b / 8) % 8
  }

  /** `NTPWrapper.IsValid`: a full header of version 3 or 4. */
  predicate NTPIsValid(data: seq<byte>)
    ensures NTPIsValid(data) <==> |data| >= NTPHeaderSize && 0x18 <= data[0] % 0x40 < 0x28
  {
    |data| >= NTPHeaderSize && (NTPVersion(data[0]) == 3 || NTPVersion(data[0]) == 4)
  }

  // ---------------------------------------------------------------------
  // Dispatch

  /** `GetProtocolWrapper`: a DNS wrapper with the first parameter as its
      domain (the default domain when there is none or it is empty), an NTP
      wrapper, or none for any other name. */
  function GetProtocolWrapper(protocol: ProtocolType, params: seq<seq<byte>>): (w: Option<ProtocolWrapper>)
    ensures w.Some? <==> protocol == ProtocolDNS || protocol == ProtocolNTP
    ensures protocol == ProtocolDNS ==> w.Some? && w.value.DNSWrapper? && w.value.domain != []
    ensures protocol == ProtocolDNS && |params| > 0 && params[0] != [] ==> w == Some(DNSWrapper(params[0]))
    ensures protocol == ProtocolDNS && (|params| == 0 || params[0] == []) ==> w == Some(DNSWrapper(DefaultDomain))
    ensures protocol == ProtocolNTP ==> w == Some(NTPWrapper)
  {
    if protocol == ProtocolDNS then
      Some(NewDNSWrapper(if |params| > 0 then params[0] else DefaultDomain))
    else if protocol == ProtocolNTP then Some(NTPWrapper)
    else None
  }

  /** `Wrap` on either wrapper; the clock readings are used by NTP only. */
  method Wrap(w: ProtocolWrapper, payload: seq<byte>, refSec: int, txSec: int) returns (packet: seq<byte>)
    requires w.DNSWrapper? ==> |payload| >= 3
    ensures packet == Wrapped(w, payload, refSec, txSec)
  {
    match w
    case DNSWrapper(domain) =>
      packet := DNSWrap(domain, payload);
    case NTPWrapper =>
      packet := NTPWrap(payload, refSec, txSec);
  }

  /** The packet `Wrap` produces. */
  function Wrapped(w: ProtocolWrapper, payload: seq<byte>, refSec: int, txSec: int): seq<byte>
    requires w.DNSWrapper? ==> |payload| >= 3
  {
    match w
    case DNSWrapper(domain) => DNSPacket(domain, payload)
    case NTPWrapper => NTPWrap(payload, refSec, txSec)
  }

  /** `Unwrap` on either wrapper. */
  function Unwrap(w: ProtocolWrapper, data: seq<byte>): (r: Result<seq<byte>, ProtocolError>)
    ensures r.Ok? ==> |r.value| < |data|
  {
    match w
    case DNSWrapper(_) => DNSUnwrapped(data)
    case NTPWrapper => NTPUnwrap(data)
  }

  /** `IsValid` on either wrapper. */
  predicate IsValid(w: ProtocolWrapper, data: seq<byte>)
    ensures w.DNSWrapper? ==> (IsValid(w, data) <==> DetectProtocol(data) == ProtocolDNS)
    ensures w.NTPWrapper? ==> (IsValid(w, data) <==> DetectProtocol(data) == ProtocolNTP || (DNSIsValid(data) && NTPIsValid(data)))
  {
    match w
    case DNSWrapper(_) => DNSIsValid(data)
    case NTPWrapper => NTPIsValid(data)
  }

  /** `DetectProtocol`: DNS if the data passes the DNS check, else NTP if it
      passes the NTP check, else none. */
  function DetectProtocol(data: seq<byte>): (p: ProtocolType)
    ensures p == ProtocolDNS <==> DNSIsValid(data)
    ensures p == ProtocolNTP <==> !DNSIsValid(data) && NTPIsValid(data)
    ensures p == ProtocolNone <==> !DNSIsValid(data) && !NTPIsValid(data)
  {
    if DNSIsValid(data) then ProtocolDNS
    else if NTPIsValid(data) then ProtocolNTP
    else ProtocolNone
  }

  /** A detected protocol always has a wrapper, and that wrapper accepts the
      data. */
  lemma DetectedWrapperAccepts(data: seq<byte>, params: seq<seq<byte>>)
    requires DetectProtocol(data) != ProtocolNone
    ensures GetProtocolWrapper(DetectProtocol(data), params).Some?
    ensures IsValid(GetProtocolWrapper(DetectProtocol(data), params).value, data)
  {
  }

  /** Every DNS packet `Wrap` produces is detected as DNS. */
  lemma DetectDNSPacket(domain: seq<byte>, payload: seq<byte>)
    requires |payload| >= 3
    ensures DetectProtocol(DNSPacket(domain, payload)) == ProtocolDNS
  {
    var name := EncodeLabels(Split(QueryName(domain, payload), Dot));
    PacketLayout(DNSQueryHeader, name, AnswerRecord(payload));
    HeaderFields(DNSPacket(domain, payload));
  }

  /** Every NTP packet `Wrap` produces is detected as NTP: its bytes 4 to 7
      are zero, so as a DNS header it announces no question and no answer. */
  lemma DetectNTPPacket(payload: seq<byte>, refSec: int, txSec: int)
    ensures DetectProtocol(NTPWrap(payload, refSec, txSec)) == ProtocolNTP
  {
    var data := NTPWrap(payload, refSec, txSec);
    assert data[..NTPHeaderSize] == NTPHeader(refSec, txSec);
    assert data[4..6] == [0, 0] && data[6..8] == [0, 0];
    assert data[0] == 0x1B;
  }

  /** Whatever a wrapper produces, detection picks that wrapper's protocol
      and unwrapping gives the payload back (for DNS, within the limits of
      `DNSUnwrapWrap`). */
  lemma DetectUnwrapWrap(w: ProtocolWrapper, payload: seq<byte>, refSec: int, txSec: int)
    requires w.DNSWrapper? ==> 3 <= |payload| < 0x1_0000 && ValidDomain(w.domain)
    ensures var data := Wrapped(w, payload, refSec, txSec);
      DetectProtocol(data) == (if w.DNSWrapper? then ProtocolDNS else ProtocolNTP)
      && Unwrap(w, data) == Ok(payload)
  {
    match w
    case DNSWrapper(domain) =>
      DetectDNSPacket(domain, payload);
      DNSUnwrapWrap(domain, payload);
    case NTPWrapper =>
      DetectNTPPacket(payload, refSec, txSec);
  }
}
