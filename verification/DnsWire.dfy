// The DNS wire format (RFC 1035, section 4.1): single-question queries and their
// answers, and the parser that reads them back. A Go string is a byte string, so
// names are byte sequences.
module DnsWire {
  import opened Base

  const TYPE_A: uint16 := 1
  const TYPE_AAAA: uint16 := 28
  const CLASS_IN: uint16 := 1

  const DOT: byte := 46
  const NAME_LIMIT := 253
  const LABEL_LIMIT := 63
  // The loop of readName gives up in its 66th iteration.
  const HOP_BUDGET := 65

  datatype WireError = Malformed | InvalidName

  datatype Question = Question(id: uint16, name: Bytes, qtype: uint16, qclass: uint16)

  datatype Response = Response(id: uint16, rcode: nat, truncated: bool, question: Question, addrs: seq<Addr>)

  // ---------------------------------------------------------------- names

  function TrimDot(name: Bytes): Bytes {
    if |name| > 0 && name[|name| - 1] == DOT then name[..|name| - 1] else name
  }

  function Split(s: Bytes): (r: seq<Bytes>)
    ensures |r| >= 1
  {
    if s == [] then [[]]
    else
      var r := Split(s[1..]);
      if s[0] == DOT then [[]] + r else [[s[0]] + r[0]] + r[1..]
  }

  function Join(labels: seq<Bytes>): Bytes {
    if labels == [] then []
    else if |labels| == 1 then labels[0]
    else labels[0] + [DOT] + Join(labels[1..])
  }

  function Labels(name: Bytes): seq<Bytes> {
    Split(TrimDot(name))
  }

  predicate ValidLabel(lbl: Bytes) {
    1 <= |lbl| <= LABEL_LIMIT
  }

  /** Names that fit the limits of RFC 1035 section 2.3.4, with or without a final dot. */
  predicate ValidName(name: Bytes) {
    && 1 <= |TrimDot(name)| <= NAME_LIMIT
    && forall lbl :: lbl in Labels(name) ==> ValidLabel(lbl)
  }

  /** RFC 1035 section 3.1: length-prefixed labels closed by the empty label. */
  function EncodeLabels(labels: seq<Bytes>): Bytes
    requires forall lbl :: lbl in labels ==> ValidLabel(lbl)
  {
    if labels == [] then []
    else
      assert ValidLabel(labels[0]);
      [|labels[0]| as byte] + labels[0] + EncodeLabels(labels[1..])
  }

  function EncodeName(name: Bytes): Bytes
    requires ValidName(name)
  {
    EncodeLabels(Labels(name)) + [0]
  }

  lemma {:induction false} EncodeLabelsSnoc(labels: seq<Bytes>, lbl: Bytes)
    requires forall l :: l in labels ==> ValidLabel(l)
    requires ValidLabel(lbl)
    ensures EncodeLabels(labels + [lbl]) == EncodeLabels(labels) + [|lbl| as byte] + lbl
  {
    if labels == [] {
      assert labels + [lbl] == [lbl];
    } else {
      EncodeLabelsSnoc(labels[1..], lbl);
      assert (labels + [lbl])[1..] == labels[1..] + [lbl];
    }
  }

  method AppendName(msg: Bytes, name: Bytes) returns (r: Result<Bytes, WireError>)
    ensures r == if ValidName(name) then Ok(msg + EncodeName(name)) else Err(InvalidName)
  {
    var trimmed := TrimDot(name);
    if trimmed == [] || |trimmed| > NAME_LIMIT {
      return Err(InvalidName);
    }
    var labels := Split(trimmed);
    var out := msg;
    for i := 0 to |labels|
      invariant forall lbl :: lbl in labels[..i] ==> ValidLabel(lbl)
      invariant out == msg + EncodeLabels(labels[..i])
    {
      var lbl := labels[i];
      if lbl == [] || |lbl| > LABEL_LIMIT {
        assert lbl in Labels(name);
        return Err(InvalidName);
      }
      out := out + [|lbl| as byte];
      out := out + lbl;
      EncodeLabelsSnoc(labels[..i], lbl);
      assert labels[..i + 1] == labels[..i] + [lbl];
    }
    assert labels[..|labels|] == labels;
    assert out + [0] == msg + (EncodeLabels(labels) + [0]);
    return Ok(out + [0]);
  }

  // ------------------------------------------------------------- encoding

  function Header(id: uint16, flags: uint16, qd: uint16, an: uint16): (h: Bytes)
    ensures |h| == 12
    ensures U16(h, 0) == id && U16(h, 2) == flags && U16(h, 4) == qd && U16(h, 6) == an
  {
    [Hi(id), Lo(id), Hi(flags), Lo(flags), Hi(qd), Lo(qd), Hi(an), Lo(an), 0, 0, 0, 0]
  }

  /** The question section (section 4.1.2) for `name`, class IN. */
  function QuestionBytes(name: Bytes, qtype: uint16): Bytes
    requires ValidName(name)
  {
    EncodeName(name) + (Be16(qtype) + Be16(CLASS_IN))
  }

  function QueryBytes(id: uint16, name: Bytes, qtype: uint16): Bytes
    requires ValidName(name)
  {
    Header(id, 0x0100, 1, 0) + QuestionBytes(name, qtype)
  }

  method Query(id: uint16, name: Bytes, qtype: uint16) returns (r: Result<Bytes, WireError>)
    ensures r == if ValidName(name) then Ok(QueryBytes(id, name, qtype)) else Err(InvalidName)
  {
    var msg: Bytes := seq(12, _ => 0);
    msg := PutU16(msg, 0, id);
    msg := PutU16(msg, 2, 0x0100);
    msg := PutU16(msg, 4, 1);
    assert msg == Header(id, 0x0100, 1, 0);
    var named := AppendName(msg, name);
    if named.Err? {
      return named;
    }
    msg := named.value;
    msg := msg + Be16(qtype);
    msg := msg + Be16(CLASS_IN);
    assert msg == Header(id, 0x0100, 1, 0) + QuestionBytes(name, qtype);
    return Ok(msg);
  }

  /** Whether `a` answers a question of type `qtype`. */
  predicate Matches(a: Addr, qtype: uint16) {
    (qtype == TYPE_A && a.Is4()) || (qtype == TYPE_AAAA && a.Is6())
  }

  function Matching(addrs: seq<Addr>, qtype: uint16): (r: seq<Addr>)
    ensures forall a :: a in r ==> Matches(a, qtype)
  {
    if addrs == [] then []
    else (if Matches(addrs[0], qtype) then [addrs[0]] else []) + Matching(addrs[1..], qtype)
  }

  function RData(a: Addr): Bytes {
    match a
    case NoAddr => []
    case V4(b) => b
    case V6(b, _) => b
  }

  /** The fixed part of a resource record (section 4.1.3) whose owner name is a pointer to offset 12. */
  function RecordHead(qtype: uint16, rdlen: uint16): (h: Bytes)
    ensures |h| == 12
    ensures h[0] == 0xc0 && h[1] == 12
    ensures U16(h, 2) == qtype && U16(h, 4) == CLASS_IN && U16(h, 10) == rdlen
  {
    [0xc0, 12, Hi(qtype), Lo(qtype), Hi(CLASS_IN), Lo(CLASS_IN), 0, 0, 0, 60, Hi(rdlen), Lo(rdlen)]
  }

  function Record(a: Addr, qtype: uint16): Bytes {
    RecordHead(qtype, |RData(a)|) + RData(a)
  }

  function Records(addrs: seq<Addr>, qtype: uint16): Bytes {
    if addrs == [] then [] else Record(addrs[0], qtype) + Records(addrs[1..], qtype)
  }

  /** The message Answer builds; the 16-bit record counter wraps around. */
  function AnswerBytes(q: Question, rcode: int, addrs: seq<Addr>): Bytes
    requires ValidName(q.name)
  {
    var matching := Matching(addrs, q.qtype);
    Header(q.id, 0x8180 + rcode % 0x10, 1, |matching| % 0x1_0000)
      + (QuestionBytes(q.name, q.qtype) + Records(matching, q.qtype))
  }

  lemma {:induction false} MatchingSnoc(addrs: seq<Addr>, a: Addr, qtype: uint16)
    ensures Matching(addrs + [a], qtype) == Matching(addrs, qtype) + if Matches(a, qtype) then [a] else []
  {
    if addrs == [] {
      assert addrs + [a] == [a];
    } else {
      MatchingSnoc(addrs[1..], a, qtype);
      assert (addrs + [a])[1..] == addrs[1..] + [a];
    }
  }

  lemma {:induction false} RecordsSnoc(addrs: seq<Addr>, a: Addr, qtype: uint16)
    ensures Records(addrs + [a], qtype) == Records(addrs, qtype) + Record(a, qtype)
  {
    if addrs == [] {
      assert addrs + [a] == [a];
    } else {
      RecordsSnoc(addrs[1..], a, qtype);
      ConcatAssoc(Record(addrs[0], qtype), Records(addrs[1..], qtype), Record(a, qtype));
      assert (addrs + [a])[1..] == addrs[1..] + [a];
    }
  }

  lemma MatchingRecordsSnoc(addrs: seq<Addr>, i: nat, qtype: uint16)
    requires i < |addrs|
    ensures var done, more := Matching(addrs[..i], qtype), Matching(addrs[..i + 1], qtype);
      if Matches(addrs[i], qtype) then
        |more| == |done| + 1 && Records(more, qtype) == Records(done, qtype) + Record(addrs[i], qtype)
      else
        more == done
  {
    MatchingSnoc(addrs[..i], addrs[i], qtype);
    assert addrs[..i + 1] == addrs[..i] + [addrs[i]];
    RecordsSnoc(Matching(addrs[..i], qtype), addrs[i], qtype);
  }

  method AppendRecord(msg: Bytes, a: Addr, qtype: uint16) returns (r: Bytes)
    ensures r == msg + Record(a, qtype)
  {
    r := msg + [0xc0, 12];
    r := r + Be16(qtype);
    r := r + Be16(CLASS_IN);
    r := r + [0, 0, 0, 60];
    r := r + Be16(|RData(a)|);
    assert r == msg + RecordHead(qtype, |RData(a)|);
    r := r + RData(a);
  }

  lemma WrapSucc(n: nat)
    ensures (n % 0x1_0000 + 1) % 0x1_0000 == (n + 1) % 0x1_0000
  {
  }

  lemma PutCount(id: uint16, flags: uint16, qd: uint16, an: uint16, tail: Bytes)
    ensures PutU16(Header(id, flags, qd, 0) + tail, 6, an) == Header(id, flags, qd, an) + tail
  {
  }

  /** The record loop of Answer. */
  method AppendRecords(msg: Bytes, addrs: seq<Addr>, qtype: uint16) returns (r: Bytes, count: uint16)
    ensures r == msg + Records(Matching(addrs, qtype), qtype)
    ensures count == |Matching(addrs, qtype)| % 0x1_0000
  {
    r, count := msg, 0;
    for i := 0 to |addrs|
      invariant count == |Matching(addrs[..i], qtype)| % 0x1_0000
      invariant r == msg + Records(Matching(addrs[..i], qtype), qtype)
    {
      var a := addrs[i];
      ghost var done := Matching(addrs[..i], qtype);
      MatchingRecordsSnoc(addrs, i, qtype);
      if Matches(a, qtype) {
        r := AppendRecord(r, a, qtype);
        ConcatAssoc(msg, Records(done, qtype), Record(a, qtype));
        WrapSucc(|done|);
        count := (count + 1) % 0x1_0000;
      }
    }
    assert addrs[..|addrs|] == addrs;
  }

  method Answer(q: Question, rcode: int, addrs: seq<Addr>) returns (r: Result<Bytes, WireError>)
    ensures r == if ValidName(q.name) then Ok(AnswerBytes(q, rcode, addrs)) else Err(InvalidName)
  {
    var msg: Bytes := seq(12, _ => 0);
    msg := PutU16(msg, 0, q.id);
    var flags := 0x8180 + rcode % 0x10;
    msg := PutU16(msg, 2, flags);
    msg := PutU16(msg, 4, 1);
    assert msg == Header(q.id, flags, 1, 0);
    var named := AppendName(msg, q.name);
    if named.Err? {
      return named;
    }
    msg := named.value;
    msg := msg + Be16(q.qtype);
    msg := msg + Be16(CLASS_IN);
    assert msg == Header(q.id, flags, 1, 0) + QuestionBytes(q.name, q.qtype);
    var count;
    msg, count := AppendRecords(msg, addrs, q.qtype);
    ghost var tail := QuestionBytes(q.name, q.qtype) + Records(Matching(addrs, q.qtype), q.qtype);
    ConcatAssoc(Header(q.id, flags, 1, 0), QuestionBytes(q.name, q.qtype), Records(Matching(addrs, q.qtype), q.qtype));
    PutCount(q.id, flags, 1, count, tail);
    msg := PutU16(msg, 6, count);
    return Ok(msg);
  }

  // ------------------------------------------------------------- decoding

  /** What a name read yields: its labels and the offset just past it. */
  datatype Walked = Walked(labels: seq<Bytes>, end: nat)

  /** Target of the compression pointer at `off` (RFC 1035 section 4.1.4). */
  function Pointer(msg: Bytes, off: nat): nat
    requires off + 2 <= |msg|
  {
    U16(msg, off) % 0x4000
  }

  /** One step of a name read: what the length byte at an offset says. */
  datatype Hop = Stop | Jump(to: nat) | Part(lbl: Bytes, next: nat) | Bad

  function HopAt(msg: Bytes, off: nat): (h: Hop)
    ensures h.Stop? ==> off < |msg|
    ensures h.Jump? ==> off + 2 <= |msg|
    ensures h.Part? ==> off + 2 <= h.next <= |msg|
  {
    if off >= |msg| then Bad
    else
      var l: nat := msg[off];
      if l == 0 then Stop
      else if l >= 0xc0 then if off + 1 >= |msg| then Bad else Jump(Pointer(msg, off))
      else if l >= 0x40 || off + 1 + l > |msg| then Bad
      else Part(msg[off + 1..off + 1 + l], off + 1 + l)
  }

  /** The zero byte that ends a name. */
  ghost predicate IsRoot(msg: Bytes, off: nat) {
    off < |msg| && msg[off] == 0
  }

  /** A two-byte pointer: two one bits and a 14-bit offset. */
  ghost predicate IsPointer(msg: Bytes, off: nat, to: nat) {
    off + 2 <= |msg| && msg[off] >= 0xc0 && to == 0x100 * (msg[off] as int - 0xc0) + msg[off + 1]
  }

  /** A label of 1 to 63 bytes that lies inside the message. */
  ghost predicate IsLabel(msg: Bytes, off: nat, lbl: Bytes, next: nat) {
    && off < |msg| && 1 <= msg[off] <= LABEL_LIMIT && |lbl| == msg[off] as int
    && next == off + 1 + |lbl| <= |msg| && msg[off + 1..next] == lbl
  }

  /** Reads the name at `off`, spending at most `fuel` labels, pointers and terminators. */
  function NameAt(msg: Bytes, off: nat, fuel: nat): (r: Result<Walked, WireError>)
    ensures r.Err? ==> r.error == Malformed
    ensures r.Ok? ==> off < r.value.end <= |msg|
    decreases fuel, msg
  {
    if fuel == 0 then Err(Malformed)
    else
      match HopAt(msg, off)
      case Bad => Err(Malformed)
      case Stop => Ok(Walked([], off + 1))
      case Jump(to) => Resume([], off + 2, NameAt(msg, to, fuel - 1))
      case Part(lbl, next) => Resume([lbl], -1, NameAt(msg, next, fuel - 1))
  }

  /** A half-finished read (labels so far, end if already fixed) completed by the read of what is left. */
  function Resume(labels: seq<Bytes>, end: int, rest: Result<Walked, WireError>): Result<Walked, WireError>
    requires end >= -1
  {
    match rest
    case Err(e) => Err(e)
    case Ok(w) => Ok(Walked(labels + w.labels, if end < 0 then w.end else end))
  }

  lemma ResumeResume(a: seq<Bytes>, b: seq<Bytes>, end: int, end': int, rest: Result<Walked, WireError>)
    requires end >= -1 && end' >= -1
    ensures Resume(a, end, Resume(b, end', rest)) == Resume(a + b, if end < 0 then end' else end, rest)
  {
    if rest.Ok? {
      assert a + (b + rest.value.labels) == a + b + rest.value.labels;
    }
  }

  function NameSpec(msg: Bytes, off: nat): (r: Result<(Bytes, nat), WireError>)
    ensures r.Err? ==> r.error == Malformed
    ensures r.Ok? ==> off < r.value.1 <= |msg|
  {
    match NameAt(msg, off, HOP_BUDGET)
    case Err(e) => Err(e)
    case Ok(w) => Ok((Join(w.labels), w.end))
  }

  lemma BadStep(msg: Bytes, off: nat, labels: seq<Bytes>, end: int, fuel: nat)
    requires end >= -1 && (fuel == 0 || HopAt(msg, off).Bad?)
    ensures Resume(labels, end, NameAt(msg, off, fuel)) == Err(Malformed)
  {
  }

  lemma StopStep(msg: Bytes, off: nat, labels: seq<Bytes>, end: int, fuel: nat)
    requires end >= -1 && fuel > 0 && HopAt(msg, off) == Stop
    ensures Resume(labels, end, NameAt(msg, off, fuel)) == Ok(Walked(labels, if end < 0 then off + 1 else end))
  {
    assert labels + [] == labels;
  }

  lemma JumpStep(msg: Bytes, off: nat, to: nat, labels: seq<Bytes>, end: int, fuel: nat)
    requires end >= -1 && fuel > 0 && HopAt(msg, off) == Jump(to)
    ensures Resume(labels, end, NameAt(msg, off, fuel))
      == Resume(labels, if end < 0 then off + 2 else end, NameAt(msg, to, fuel - 1))
  {
    ResumeResume(labels, [], end, off + 2, NameAt(msg, to, fuel - 1));
    assert labels + [] == labels;
  }

  lemma PartStep(msg: Bytes, off: nat, lbl: Bytes, next: nat, labels: seq<Bytes>, end: int, fuel: nat)
    requires end >= -1 && fuel > 0 && HopAt(msg, off) == Part(lbl, next)
    ensures Resume(labels, end, NameAt(msg, off, fuel))
      == Resume(labels + [lbl], end, NameAt(msg, next, fuel - 1))
  {
    ResumeResume(labels, [lbl], end, -1, NameAt(msg, next, fuel - 1));
  }

  /** What the length byte at `off` announces. */
  method ReadHop(msg: Bytes, off: nat) returns (h: Hop)
    ensures h.Stop? <==> IsRoot(msg, off)
    ensures forall to: nat :: h == Jump(to) <==> IsPointer(msg, off, to)
    ensures forall lbl, next: nat :: h == Part(lbl, next) <==> IsLabel(msg, off, lbl, next)
    ensures h == HopAt(msg, off)
  {
    if off >= |msg| {
      return Bad;
    }
    var l: nat := msg[off];
    if l == 0 {
      return Stop;
    }
    if l >= 0xc0 {
      if off + 1 >= |msg| {
        return Bad;
      }
      return Jump(Pointer(msg, off));
    }
    if l >= 0x40 || off + 1 + l > |msg| {
      return Bad;
    }
    return Part(msg[off + 1..off + 1 + l], off + 1 + l);
  }

  method ReadName(msg: Bytes, start: nat) returns (r: Result<(Bytes, nat), WireError>)
    ensures r == NameSpec(msg, start)
  {
    var labels: seq<Bytes> := [];
    var end := -1;
    var off: nat := start;
    var hops: nat := 0;
    ghost var all := NameAt(msg, start, HOP_BUDGET);
    assert all.Ok? ==> [] + all.value.labels == all.value.labels;
    while true
      invariant hops <= HOP_BUDGET && end >= -1
      invariant all == Resume(labels, end, NameAt(msg, off, HOP_BUDGET - hops))
      decreases HOP_BUDGET - hops
    {
      ghost var fuel := HOP_BUDGET - hops;
      if hops > 64 {
        BadStep(msg, off, labels, end, fuel);
        return Err(Malformed);
      }
      var hop := ReadHop(msg, off);
      match hop {
        case Bad =>
          BadStep(msg, off, labels, end, fuel);
          return Err(Malformed);
        case Stop =>
          StopStep(msg, off, labels, end, fuel);
          if end < 0 {
            end := off + 1;
          }
          return Ok((Join(labels), end));
        case Jump(to) =>
          JumpStep(msg, off, to, labels, end, fuel);
          if end < 0 {
            end := off + 2;
          }
          off := to;
        case Part(lbl, next) =>
          PartStep(msg, off, lbl, next, labels, end, fuel);
          labels := labels + [lbl];
          off := next;
      }
      hops := hops + 1;
    }
  }

  /** The question at `off` and the offset past it. */
  function QuestionAt(msg: Bytes, off: nat, id: uint16): (r: Result<(Question, nat), WireError>)
    ensures r.Err? ==> r.error == Malformed
    ensures r.Ok? ==> off + 5 <= r.value.1 <= |msg|
  {
    match NameSpec(msg, off)
    case Err(e) => Err(e)
    case Ok((name, end)) =>
      if end + 4 > |msg| then Err(Malformed)
      else Ok((Question(id, name, U16(msg, end), U16(msg, end + 2)), end + 4))
  }

  /** Reads `n` questions and returns the first one and the offset past the last. */
  function QuestionsAt(msg: Bytes, off: nat, n: nat, id: uint16): (r: Result<(Question, nat), WireError>)
    ensures r.Err? ==> r.error == Malformed
    ensures r.Ok? && off <= |msg| ==> off + 5 * n <= r.value.1 <= |msg|
    decreases n
  {
    if n == 0 then Ok((NO_QUESTION, off))
    else
      match QuestionAt(msg, off, id)
      case Err(e) => Err(e)
      case Ok((q, next)) =>
        match QuestionsAt(msg, next, n - 1, id)
        case Err(e) => Err(e)
        case Ok((_, past)) => Ok((q, past))
  }

  const NO_QUESTION := Question(0, [], 0, 0)

  /** The address a record of class IN carries, if any. */
  function RecordAddr(typ: uint16, class_: uint16, rdata: Bytes): seq<Addr> {
    if class_ != CLASS_IN then []
    else if typ == TYPE_A && |rdata| == 4 then [V4(rdata)]
    else if typ == TYPE_AAAA && |rdata| == 16 then [V6(rdata, "")]
    else []
  }

  /** The addresses in the resource record at `off` and the offset past it. */
  function RecordAt(msg: Bytes, off: nat): (r: Result<(seq<Addr>, nat), WireError>)
    ensures r.Err? ==> r.error == Malformed
    ensures r.Ok? ==> |r.value.0| <= 1 && off + 11 + 4 * |r.value.0| <= r.value.1 <= |msg|
  {
    match NameSpec(msg, off)
    case Err(e) => Err(e)
    case Ok((_, end)) =>
      if end + 10 > |msg| then Err(Malformed)
      else
        var past := end + 10 + U16(msg, end + 8);
        if past > |msg| then Err(Malformed)
        else Ok((RecordAddr(U16(msg, end), U16(msg, end + 2), msg[end + 10..past]), past))
  }

  /** Reads `n` resource records and returns their addresses and the offset past the last. */
  function AnswersAt(msg: Bytes, off: nat, n: nat): (r: Result<(seq<Addr>, nat), WireError>)
    ensures r.Err? ==> r.error == Malformed
    ensures r.Ok? && off <= |msg| ==>
      |r.value.0| <= n && off + 11 * n + 4 * |r.value.0| <= r.value.1 <= |msg|
    decreases n
  {
    if n == 0 then Ok(([], off))
    else
      match RecordAt(msg, off)
      case Err(e) => Err(e)
      case Ok((found, next)) =>
        Prepend(found, AnswersAt(msg, next, n - 1))
  }

  function Prepend(found: seq<Addr>, rest: Result<(seq<Addr>, nat), WireError>): Result<(seq<Addr>, nat), WireError> {
    match rest
    case Err(e) => Err(e)
    case Ok((addrs, past)) => Ok((found + addrs, past))
  }

  lemma PrependPrepend(a: seq<Addr>, b: seq<Addr>, rest: Result<(seq<Addr>, nat), WireError>)
    ensures Prepend(a, Prepend(b, rest)) == Prepend(a + b, rest)
  {
    if rest.Ok? {
      assert a + (b + rest.value.0) == a + b + rest.value.0;
    }
  }

  function ParseSpec(msg: Bytes): (r: Result<Response, WireError>)
    ensures r.Err? ==> r.error == Malformed
    ensures r.Ok? ==>
      && |msg| >= 12
      && |r.value.addrs| <= U16(msg, 6)
      && 12 + 5 * U16(msg, 4) + 11 * U16(msg, 6) + 4 * |r.value.addrs| <= |msg|
  {
    if |msg| < 12 then Err(Malformed)
    else
      var flags := U16(msg, 2);
      if flags < 0x8000 then Err(Malformed)
      else
        match QuestionsAt(msg, 12, U16(msg, 4), U16(msg, 0))
        case Err(e) => Err(e)
        case Ok((question, off)) =>
          match AnswersAt(msg, off, U16(msg, 6))
          case Err(e) => Err(e)
          case Ok((addrs, _)) =>
            Ok(Response(U16(msg, 0), flags % 0x10, flags / 0x200 % 2 == 1, question, addrs))
  }

  method ReadQuestion(msg: Bytes, start: nat, id: uint16) returns (r: Result<(Question, nat), WireError>)
    ensures r == QuestionAt(msg, start, id)
  {
    var name := ReadName(msg, start);
    if name.Err? {
      return Err(name.error);
    }
    var off := name.value.1;
    if off + 4 > |msg| {
      return Err(Malformed);
    }
    return Ok((Question(id, name.value.0, U16(msg, off), U16(msg, off + 2)), off + 4));
  }

  method ReadRecord(msg: Bytes, start: nat) returns (r: Result<(seq<Addr>, nat), WireError>)
    ensures r == RecordAt(msg, start)
  {
    var name := ReadName(msg, start);
    if name.Err? {
      return Err(name.error);
    }
    var off := name.value.1;
    if off + 10 > |msg| {
      return Err(Malformed);
    }
    var typ := U16(msg, off);
    var class_ := U16(msg, off + 2);
    var rdlen := U16(msg, off + 8);
    off := off + 10;
    if off + rdlen > |msg| {
      return Err(Malformed);
    }
    return Ok((RecordAddr(typ, class_, msg[off..off + rdlen]), off + rdlen));
  }

  /** The rest of a question section after its first question, if that was read. */
  function KeepFirst(first: Option<Question>, rest: Result<(Question, nat), WireError>)
    : Result<(Question, nat), WireError>
  {
    if rest.Err? || first.None? then rest else Ok((first.value, rest.value.1))
  }

  /** A further question is kept only when it is the first. */
  lemma QuestionsStep(msg: Bytes, off: nat, n: nat, id: uint16, first: Option<Question>, q: Question, next: nat)
    requires n > 0 && QuestionAt(msg, off, id) == Ok((q, next))
    ensures KeepFirst(first, QuestionsAt(msg, off, n, id))
      == KeepFirst(Some(if first.Some? then first.value else q), QuestionsAt(msg, next, n - 1, id))
  {
  }

  lemma QuestionsStop(msg: Bytes, off: nat, n: nat, id: uint16)
    requires n > 0 && QuestionAt(msg, off, id).Err?
    ensures QuestionsAt(msg, off, n, id) == Err(Malformed)
  {
  }

  /** The question loop of Parse. */
  method ParseQuestions(msg: Bytes, qd: nat, id: uint16) returns (r: Result<(Question, nat), WireError>)
    requires |msg| >= 12
    ensures r == QuestionsAt(msg, 12, qd, id)
  {
    var question := NO_QUESTION;
    var off: nat := 12;
    ghost var all := QuestionsAt(msg, 12, qd, id);
    ghost var first: Option<Question> := None;
    for i := 0 to qd
      invariant all == KeepFirst(first, QuestionsAt(msg, off, qd - i, id))
      invariant first == if i == 0 then None else Some(question)
      invariant i == 0 ==> question == NO_QUESTION
    {
      ghost var left: nat := qd - i;
      var next := ReadQuestion(msg, off, id);
      if next.Err? {
        QuestionsStop(msg, off, left, id);
        return Err(Malformed);
      }
      var (q, past) := next.value;
      QuestionsStep(msg, off, left, id, first, q, past);
      if i == 0 {
        question := q;
      }
      first, off := Some(question), past;
    }
    return Ok((question, off));
  }

  lemma AnswersStep(msg: Bytes, off: nat, n: nat, found: seq<Addr>, next: nat)
    requires n > 0 && RecordAt(msg, off) == Ok((found, next))
    ensures AnswersAt(msg, off, n) == Prepend(found, AnswersAt(msg, next, n - 1))
  {
  }

  lemma AnswersStop(msg: Bytes, off: nat, n: nat)
    requires n > 0 && RecordAt(msg, off).Err?
    ensures AnswersAt(msg, off, n) == Err(Malformed)
  {
  }

  /** The record loop of Parse, from the first record at `start`. */
  method ParseAnswers(msg: Bytes, start: nat, an: nat) returns (r: Result<(seq<Addr>, nat), WireError>)
    ensures r == AnswersAt(msg, start, an)
  {
    var off: nat := start;
    var addrs: seq<Addr> := [];
    ghost var all := AnswersAt(msg, start, an);
    ghost var rest := all;
    assert all.Ok? ==> [] + all.value.0 == all.value.0;
    for i := 0 to an
      invariant rest == AnswersAt(msg, off, an - i)
      invariant all == Prepend(addrs, rest)
    {
      ghost var left: nat := an - i;
      var next := ReadRecord(msg, off);
      if next.Err? {
        AnswersStop(msg, off, left);
        return Err(Malformed);
      }
      var (found, past) := next.value;
      AnswersStep(msg, off, left, found, past);
      rest := AnswersAt(msg, past, left - 1);
      PrependPrepend(addrs, found, rest);
      addrs := addrs + found;
      off := past;
    }
    assert addrs + [] == addrs;
    return Ok((addrs, off));
  }

  method Parse(msg: Bytes) returns (r: Result<Response, WireError>)
    ensures r == ParseSpec(msg)
  {
    if |msg| < 12 {
      return Err(Malformed);
    }
    var flags := U16(msg, 2);
    if flags < 0x8000 {
      return Err(Malformed);
    }
    var questions := ParseQuestions(msg, U16(msg, 4), U16(msg, 0));
    if questions.Err? {
      return Err(questions.error);
    }
    var answers := ParseAnswers(msg, questions.value.1, U16(msg, 6));
    if answers.Err? {
      return Err(answers.error);
    }
    return Ok(Response(U16(msg, 0), flags % 0x10, flags / 0x200 % 2 == 1, questions.value.0, answers.value.0));
  }

  function ParseQuestionSpec(msg: Bytes): Result<Question, WireError> {
    if |msg| < 12 || U16(msg, 4) < 1 then Err(Malformed)
    else
      match NameSpec(msg, 12)
      case Err(e) => Err(e)
      case Ok((name, off)) =>
        if off + 4 > |msg| then Err(Malformed)
        else Ok(Question(U16(msg, 0), name, U16(msg, off), U16(msg, off + 2)))
  }

  method ParseQuestion(msg: Bytes) returns (r: Result<Question, WireError>)
    ensures r == ParseQuestionSpec(msg)
  {
    if |msg| < 12 || U16(msg, 4) < 1 {
      return Err(Malformed);
    }
    var name := ReadName(msg, 12);
    if name.Err? {
      return Err(name.error);
    }
    var off := name.value.1;
    if off + 4 > |msg| {
      return Err(Malformed);
    }
    return Ok(Question(U16(msg, 0), name.value.0, U16(msg, off), U16(msg, off + 2)));
  }
}
