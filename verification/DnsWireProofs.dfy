// What the DNS codec is for: names are read exactly as RFC 1035 section 4.1.4 says,
// and every query and answer that is built is read back.
module DnsWireProofs {
  import opened Base
  import opened DnsWire

  // ------------------------------------------------- the walk of a name

  ghost predicate Follows(msg: Bytes, off: nat, next: nat) {
    IsPointer(msg, off, next) || exists lbl :: IsLabel(msg, off, lbl, next)
  }

  /** The offsets visited when reading a name: every one leads to the next. */
  ghost predicate IsWalk(msg: Bytes, offs: seq<nat>) {
    |offs| >= 1 && forall i: nat :: i + 1 < |offs| ==> Follows(msg, offs[i], offs[i + 1])
  }

  /** A walk from `off` that reaches the end of the name. */
  ghost predicate IsFullWalk(msg: Bytes, off: nat, offs: seq<nat>) {
    IsWalk(msg, offs) && offs[0] == off && IsRoot(msg, offs[|offs| - 1])
  }

  /** The labels met along a walk. */
  ghost function WalkLabels(msg: Bytes, offs: seq<nat>): seq<Bytes>
    requires IsWalk(msg, offs)
  {
    if |offs| == 1 then []
    else
      assert Follows(msg, offs[0], offs[1]);
      assert IsWalk(msg, offs[1..]);
      (if msg[offs[0]] <= LABEL_LIMIT then [msg[offs[0] + 1..offs[1]]] else []) + WalkLabels(msg, offs[1..])
  }

  /** The offset after the name: past the first pointer, or past the final zero byte. */
  ghost function WalkEnd(msg: Bytes, offs: seq<nat>): nat
    requires IsWalk(msg, offs)
  {
    if |offs| == 1 then offs[0] + 1
    else
      assert Follows(msg, offs[0], offs[1]);
      assert IsWalk(msg, offs[1..]);
      if msg[offs[0]] <= LABEL_LIMIT then WalkEnd(msg, offs[1..]) else offs[0] + 2
  }

  lemma HopIsFollow(msg: Bytes, off: nat)
    ensures HopAt(msg, off).Stop? <==> IsRoot(msg, off)
    ensures forall next: nat :: Follows(msg, off, next) <==>
      HopAt(msg, off) == Jump(next) || (HopAt(msg, off).Part? && HopAt(msg, off).next == next)
  {
    var h := HopAt(msg, off);
    if h.Jump? {
      assert IsPointer(msg, off, h.to);
    }
    if h.Part? {
      assert IsLabel(msg, off, h.lbl, h.next);
    }
  }

  /** A full walk within the budget is exactly what the reader returns. */
  lemma {:induction false} WalkIsRead(msg: Bytes, off: nat, offs: seq<nat>, fuel: nat)
    requires IsFullWalk(msg, off, offs) && |offs| <= fuel
    ensures NameAt(msg, off, fuel) == Ok(Walked(WalkLabels(msg, offs), WalkEnd(msg, offs)))
    decreases fuel
  {
    HopIsFollow(msg, off);
    if |offs| > 1 {
      assert Follows(msg, offs[0], offs[1]);
      assert IsFullWalk(msg, offs[1], offs[1..]);
      WalkIsRead(msg, offs[1], offs[1..], fuel - 1);
    }
  }

  /** A successful read followed a full walk within the budget. */
  lemma {:induction false} ReadIsWalk(msg: Bytes, off: nat, fuel: nat) returns (offs: seq<nat>)
    requires NameAt(msg, off, fuel).Ok?
    ensures IsFullWalk(msg, off, offs) && |offs| <= fuel
    decreases fuel
  {
    HopIsFollow(msg, off);
    var h := HopAt(msg, off);
    if h.Stop? {
      offs := [off];
    } else {
      var next := if h.Jump? then h.to else h.next;
      var rest := ReadIsWalk(msg, next, fuel - 1);
      offs := [off] + rest;
      forall i: nat | i + 1 < |offs| ensures Follows(msg, offs[i], offs[i + 1]) {
        if i > 0 {
          assert offs[i] == rest[i - 1] && offs[i + 1] == rest[i];
        }
      }
    }
  }

  /** readName succeeds exactly on the names whose walk ends within 65 offsets. */
  lemma NameReadIffWalk(msg: Bytes, off: nat)
    ensures NameSpec(msg, off).Ok? <==> exists offs :: IsFullWalk(msg, off, offs) && |offs| <= HOP_BUDGET
    ensures forall offs :: IsFullWalk(msg, off, offs) && |offs| <= HOP_BUDGET ==>
      NameSpec(msg, off) == Ok((Join(WalkLabels(msg, offs)), WalkEnd(msg, offs)))
  {
    if NameSpec(msg, off).Ok? {
      var offs := ReadIsWalk(msg, off, HOP_BUDGET);
    }
    forall offs | IsFullWalk(msg, off, offs) && |offs| <= HOP_BUDGET
      ensures NameSpec(msg, off) == Ok((Join(WalkLabels(msg, offs)), WalkEnd(msg, offs)))
    {
      WalkIsRead(msg, off, offs, HOP_BUDGET);
    }
  }

  /** A question is read exactly from a message with a header, a question count and a name whose walk
      ends within the budget and before the type and class. */
  lemma ParseQuestionIff(msg: Bytes)
    ensures ParseQuestionSpec(msg).Ok? <==>
      |msg| >= 12 && U16(msg, 4) >= 1 && exists offs :: IsQuestionWalk(msg, offs)
    ensures |msg| >= 12 && U16(msg, 4) >= 1 ==> forall offs :: IsQuestionWalk(msg, offs) ==>
      ParseQuestionSpec(msg) == Ok(Question(U16(msg, 0), Join(WalkLabels(msg, offs)),
                                            U16(msg, WalkEnd(msg, offs)), U16(msg, WalkEnd(msg, offs) + 2)))
  {
    NameReadIffWalk(msg, 12);
    if ParseQuestionSpec(msg).Ok? {
      var offs :| IsFullWalk(msg, 12, offs) && |offs| <= HOP_BUDGET;
      assert IsQuestionWalk(msg, offs);
    }
  }

  ghost predicate IsQuestionWalk(msg: Bytes, offs: seq<nat>) {
    IsFullWalk(msg, 12, offs) && |offs| <= HOP_BUDGET && WalkEnd(msg, offs) + 4 <= |msg|
  }

  lemma FollowsUnique(msg: Bytes, off: nat, a: nat, b: nat)
    requires Follows(msg, off, a) && Follows(msg, off, b)
    ensures a == b && !IsRoot(msg, off)
  {
    HopIsFollow(msg, off);
  }

  /** Any two walks from one offset agree, and a full one is never outrun. */
  lemma {:induction false} WalkAgrees(msg: Bytes, off: nat, full: seq<nat>, offs: seq<nat>, k: nat)
    requires IsFullWalk(msg, off, full) && IsWalk(msg, offs) && offs[0] == off
    requires k < |offs|
    ensures k < |full| && offs[k] == full[k]
  {
    if k > 0 {
      WalkAgrees(msg, off, full, offs, k - 1);
      assert Follows(msg, offs[k - 1], offs[k - 1 + 1]);
      if k < |full| {
        assert Follows(msg, full[k - 1], full[k - 1 + 1]);
      }
      FollowsUnique(msg, offs[k - 1], offs[k], if k < |full| then full[k] else offs[k]);
    }
  }

  /** A repeated offset repeats for ever after. */
  lemma {:induction false} WalkRepeats(msg: Bytes, full: seq<nat>, i: nat, j: nat, k: nat)
    requires IsWalk(msg, full) && i < j && j + k < |full| && full[i] == full[j]
    ensures full[i + k] == full[j + k]
  {
    if k > 0 {
      WalkRepeats(msg, full, i, j, k - 1);
      assert Follows(msg, full[i + k - 1], full[i + k - 1 + 1]) && Follows(msg, full[j + k - 1], full[j + k - 1 + 1]);
      FollowsUnique(msg, full[i + k - 1], full[i + k], full[j + k]);
    }
  }

  lemma WalkGoesOn(msg: Bytes, full: seq<nat>, k: nat)
    requires IsWalk(msg, full) && k + 1 < |full|
    ensures !IsRoot(msg, full[k])
  {
    assert Follows(msg, full[k], full[k + 1]);
    FollowsUnique(msg, full[k], full[k + 1], full[k + 1]);
  }

  /** A name whose pointers come back to an offset already visited is malformed. */
  lemma LoopIsMalformed(msg: Bytes, off: nat, offs: seq<nat>, i: nat, j: nat)
    requires IsWalk(msg, offs) && offs[0] == off
    requires i < j < |offs| && offs[i] == offs[j]
    ensures NameSpec(msg, off) == Err(Malformed)
  {
    if NameSpec(msg, off).Ok? {
      var full := ReadIsWalk(msg, off, HOP_BUDGET);
      WalkAgrees(msg, off, full, offs, i);
      WalkAgrees(msg, off, full, offs, j);
      var last := |full| - 1;
      WalkRepeats(msg, full, i, j, last - j);
      WalkGoesOn(msg, full, i + (last - j));
    }
  }

  // ------------------------------------------------------- round trips

  lemma {:induction false} JoinSplit(s: Bytes)
    ensures Join(Split(s)) == s
  {
    if s != [] {
      JoinSplit(s[1..]);
      var r := Split(s[1..]);
      if s[0] == DOT {
        assert Join([[]] + r) == [DOT] + Join(r) by {
          assert ([[]] + r)[1..] == r;
        }
      } else {
        var head := [s[0]] + r[0];
        assert ([head] + r[1..])[1..] == r[1..];
        if |r| > 1 {
          assert [s[0]] + (r[0] + [DOT] + Join(r[1..])) == head + [DOT] + Join(r[1..]);
        }
      }
      assert s == [s[0]] + s[1..];
    }
  }

  /** `part` lies in `msg` at `off`. */
  ghost predicate Contains(msg: Bytes, off: nat, part: Bytes) {
    off + |part| <= |msg| && msg[off..off + |part|] == part
  }

  lemma ContainsAt(msg: Bytes, off: nat, part: Bytes, k: nat)
    requires Contains(msg, off, part) && k < |part|
    ensures msg[off + k] == part[k]
  {
    assert msg[off..off + |part|][k] == msg[off + k];
  }

  lemma ContainsU16(msg: Bytes, off: nat, part: Bytes, k: nat)
    requires Contains(msg, off, part) && k + 2 <= |part|
    ensures U16(msg, off + k) == U16(part, k)
  {
    ContainsAt(msg, off, part, k);
    ContainsAt(msg, off, part, k + 1);
  }

  lemma ContainsBoth(msg: Bytes, off: nat, a: Bytes, b: Bytes)
    requires Contains(msg, off, a + b)
    ensures Contains(msg, off, a) && Contains(msg, off + |a|, b)
  {
    assert msg[off..off + |a|] == msg[off..off + |a + b|][..|a|];
    assert msg[off + |a|..off + |a| + |b|] == msg[off..off + |a + b|][|a|..];
  }

  lemma NameAtPart(msg: Bytes, off: nat, lbl: Bytes, next: nat, fuel: nat)
    requires fuel > 0 && HopAt(msg, off) == Part(lbl, next)
    ensures NameAt(msg, off, fuel) == Resume([lbl], -1, NameAt(msg, next, fuel - 1))
  {
  }

  /** A label at `off` in front of `tail`. */
  lemma LabelHop(msg: Bytes, off: nat, lbl: Bytes, tail: Bytes)
    requires ValidLabel(lbl) && Contains(msg, off, [|lbl| as byte] + lbl + tail)
    ensures HopAt(msg, off) == Part(lbl, off + 1 + |lbl|)
    ensures Contains(msg, off + 1 + |lbl|, tail)
  {
    var head := [|lbl| as byte] + lbl;
    ContainsBoth(msg, off, head, tail);
    ContainsBoth(msg, off, [|lbl| as byte], lbl);
    ContainsAt(msg, off, head, 0);
  }

  /** The code of some labels is that of the first one and the code of the rest. */
  lemma FirstLabelCode(labels: seq<Bytes>, tail: Bytes)
    requires labels != [] && forall l :: l in labels ==> ValidLabel(l)
    requires tail == EncodeLabels(labels[1..]) + [0]
    ensures ValidLabel(labels[0])
    ensures EncodeLabels(labels) + [0] == [|labels[0]| as byte] + labels[0] + tail
  {
    assert labels[0] in labels;
    ConcatAssoc([|labels[0]| as byte] + labels[0], EncodeLabels(labels[1..]), [0]);
  }

  /** A label in front of labels that are read, or of a name that is malformed. */
  lemma LabelBefore(msg: Bytes, off: nat, lbl: Bytes, next: nat, labels: seq<Bytes>, end: nat, fuel: nat)
    requires fuel > 0 && HopAt(msg, off) == Part(lbl, next)
    requires NameAt(msg, next, fuel - 1) == if fuel - 1 > |labels| then Ok(Walked(labels, end)) else Err(Malformed)
    ensures NameAt(msg, off, fuel) ==
      if fuel > |labels| + 1 then Ok(Walked([lbl] + labels, end)) else Err(Malformed)
  {
    NameAtPart(msg, off, lbl, next, fuel);
  }

  lemma RootRead(msg: Bytes, off: nat, fuel: nat)
    requires Contains(msg, off, [0])
    ensures NameAt(msg, off, fuel) == if fuel > 0 then Ok(Walked([], off + 1)) else Err(Malformed)
  {
    ContainsAt(msg, off, [0], 0);
  }

  lemma NoFuelNoName(msg: Bytes, off: nat)
    ensures NameAt(msg, off, 0) == Err(Malformed)
  {
  }

  /** Encoded labels are read back as long as the hop budget covers them and the terminator. */
  lemma {:induction false} EncodedLabelsRead(msg: Bytes, off: nat, labels: seq<Bytes>, code: Bytes, fuel: nat)
    requires forall l :: l in labels ==> ValidLabel(l)
    requires code == EncodeLabels(labels) + [0] && Contains(msg, off, code)
    ensures NameAt(msg, off, fuel) == if fuel > |labels| then Ok(Walked(labels, off + |code|)) else Err(Malformed)
    decreases fuel
  {
    if labels == [] {
      assert code == [0];
      RootRead(msg, off, fuel);
    } else if fuel == 0 {
      NoFuelNoName(msg, off);
    } else {
      var first, rest := labels[0], labels[1..];
      var tail, next := EncodeLabels(rest) + [0], off + 1 + |first|;
      FirstLabelCode(labels, tail);
      LabelHop(msg, off, first, tail);
      EncodedLabelsRead(msg, next, rest, tail, fuel - 1);
      LabelBefore(msg, off, first, next, rest, off + |code|, fuel);
      assert [first] + rest == labels;
    }
  }

  function StripZones(addrs: seq<Addr>): (r: seq<Addr>)
    ensures |r| == |addrs| && forall i :: 0 <= i < |r| ==> r[i] == addrs[i].StripZone()
  {
    seq(|addrs|, i requires 0 <= i < |addrs| => addrs[i].StripZone())
  }

  lemma EncodedNameRead(msg: Bytes, name: Bytes, fuel: nat)
    requires ValidName(name) && Contains(msg, 12, EncodeName(name))
    ensures NameAt(msg, 12, fuel) ==
      if fuel > |Labels(name)| then Ok(Walked(Labels(name), 12 + |EncodeName(name)|)) else Err(Malformed)
    ensures Join(Labels(name)) == TrimDot(name)
  {
    EncodedLabelsRead(msg, 12, Labels(name), EncodeName(name), fuel);
    JoinSplit(TrimDot(name));
  }

  lemma QuestionParts(msg: Bytes, name: Bytes, qtype: uint16)
    requires ValidName(name) && Contains(msg, 12, QuestionBytes(name, qtype))
    ensures Contains(msg, 12, EncodeName(name))
    ensures Contains(msg, 12 + |EncodeName(name)|, Be16(qtype) + Be16(CLASS_IN))
    ensures |QuestionBytes(name, qtype)| == |EncodeName(name)| + 4
  {
    ContainsBoth(msg, 12, EncodeName(name), Be16(qtype) + Be16(CLASS_IN));
  }

  lemma QuestionFields(msg: Bytes, off: nat, qtype: uint16)
    requires Contains(msg, off, Be16(qtype) + Be16(CLASS_IN))
    ensures off + 4 <= |msg| && U16(msg, off) == qtype && U16(msg, off + 2) == CLASS_IN
  {
    var fields := Be16(qtype) + Be16(CLASS_IN);
    assert U16(fields, 0) == qtype && U16(fields, 2) == CLASS_IN;
    ContainsU16(msg, off, fields, 0);
    ContainsU16(msg, off, fields, 2);
  }

  lemma QuestionAfterName(msg: Bytes, off: nat, id: uint16, labels: seq<Bytes>, end: nat)
    requires NameAt(msg, off, HOP_BUDGET) == Ok(Walked(labels, end)) && end + 4 <= |msg|
    ensures QuestionAt(msg, off, id) == Ok((Question(id, Join(labels), U16(msg, end), U16(msg, end + 2)), end + 4))
  {
  }

  /** The question section of a message that starts with it is read back. */
  lemma EncodedQuestionRead(msg: Bytes, name: Bytes, qtype: uint16, id: uint16)
    requires ValidName(name) && Contains(msg, 12, QuestionBytes(name, qtype))
    ensures QuestionAt(msg, 12, id) ==
      if |Labels(name)| > 64 then Err(Malformed)
      else Ok((Question(id, TrimDot(name), qtype, CLASS_IN), 12 + |QuestionBytes(name, qtype)|))
    ensures Contains(msg, 12, EncodeName(name))
  {
    QuestionParts(msg, name, qtype);
    EncodedNameRead(msg, name, HOP_BUDGET);
    if |Labels(name)| <= 64 {
      QuestionFields(msg, 12 + |EncodeName(name)|, qtype);
      QuestionAfterName(msg, 12, id, Labels(name), 12 + |EncodeName(name)|);
    }
  }

  /** The pointer that opens a record leads to the name at offset 12. */
  lemma PointerRead(msg: Bytes, off: nat, qtype: uint16, rdlen: uint16)
    requires Contains(msg, off, RecordHead(qtype, rdlen))
    ensures NameAt(msg, off, HOP_BUDGET) == Resume([], off + 2, NameAt(msg, 12, HOP_BUDGET - 1))
  {
    ContainsAt(msg, off, RecordHead(qtype, rdlen), 0);
    ContainsAt(msg, off, RecordHead(qtype, rdlen), 1);
    assert HopAt(msg, off) == Jump(12);
  }

  lemma RecordFields(msg: Bytes, off: nat, qtype: uint16, rdlen: uint16)
    requires Contains(msg, off, RecordHead(qtype, rdlen))
    ensures off + 12 <= |msg|
    ensures U16(msg, off + 2) == qtype && U16(msg, off + 4) == CLASS_IN && U16(msg, off + 10) == rdlen
  {
    var head := RecordHead(qtype, rdlen);
    ContainsU16(msg, off, head, 2);
    ContainsU16(msg, off, head, 4);
    ContainsU16(msg, off, head, 10);
  }

  /** A record whose owner name ends at `end`. */
  lemma RecordBehind(msg: Bytes, off: nat, end: nat, rdata: Bytes, found: seq<Addr>)
    requires NameSpec(msg, off).Ok? && NameSpec(msg, off).value.1 == end && end + 10 <= |msg|
    requires U16(msg, end + 8) == |rdata| && Contains(msg, end + 10, rdata)
    requires RecordAddr(U16(msg, end), U16(msg, end + 2), rdata) == found
    ensures RecordAt(msg, off) == Ok((found, end + 10 + |rdata|))
  {
  }

  /** One record is read through its compression pointer. */
  lemma EncodedRecordRead(msg: Bytes, off: nat, a: Addr, qtype: uint16)
    requires Matches(a, qtype) && Contains(msg, off, Record(a, qtype))
    ensures RecordAt(msg, off) ==
      if NameAt(msg, 12, HOP_BUDGET - 1).Err? then Err(Malformed)
      else Ok(([a.StripZone()], off + |Record(a, qtype)|))
  {
    var head, rdata := RecordHead(qtype, |RData(a)|), RData(a);
    ContainsBoth(msg, off, head, rdata);
    PointerRead(msg, off, qtype, |rdata|);
    if NameAt(msg, 12, HOP_BUDGET - 1).Ok? {
      RecordFields(msg, off, qtype, |rdata|);
      RecordBehind(msg, off, off + 2, rdata, [a.StripZone()]);
    }
  }

  lemma StripZonesStep(addrs: seq<Addr>, n: nat)
    requires 0 < n <= |addrs|
    ensures StripZones(addrs[..n]) == [addrs[0].StripZone()] + StripZones(addrs[1..][..n - 1])
  {
  }

  /** All records are read back, in order, without their zones, when the owner name is. */
  lemma {:induction false} EncodedRecordsRead(msg: Bytes, off: nat, addrs: seq<Addr>, qtype: uint16, n: nat)
    requires Contains(msg, off, Records(addrs, qtype)) && NameAt(msg, 12, HOP_BUDGET - 1).Ok?
    requires forall a :: a in addrs ==> Matches(a, qtype)
    requires n <= |addrs|
    ensures AnswersAt(msg, off, n).Ok? && AnswersAt(msg, off, n).value.0 == StripZones(addrs[..n])
    decreases n
  {
    if n > 0 {
      var next := NextRecord(msg, off, addrs, qtype);
      EncodedRecordsRead(msg, next, addrs[1..], qtype, n - 1);
      AnswersStep(msg, off, n, [addrs[0].StripZone()], next);
      StripZonesStep(addrs, n);
    }
  }

  lemma NextRecord(msg: Bytes, off: nat, addrs: seq<Addr>, qtype: uint16) returns (next: nat)
    requires addrs != [] && Matches(addrs[0], qtype) && Contains(msg, off, Records(addrs, qtype))
    requires NameAt(msg, 12, HOP_BUDGET - 1).Ok?
    ensures RecordAt(msg, off) == Ok(([addrs[0].StripZone()], next))
    ensures Contains(msg, next, Records(addrs[1..], qtype))
  {
    FirstRecordRead(msg, off, addrs, qtype);
    next := off + |Record(addrs[0], qtype)|;
  }

  lemma FirstRecordRead(msg: Bytes, off: nat, addrs: seq<Addr>, qtype: uint16)
    requires addrs != [] && Matches(addrs[0], qtype) && Contains(msg, off, Records(addrs, qtype))
    ensures Contains(msg, off + |Record(addrs[0], qtype)|, Records(addrs[1..], qtype))
    ensures RecordAt(msg, off) ==
      if NameAt(msg, 12, HOP_BUDGET - 1).Err? then Err(Malformed)
      else Ok(([addrs[0].StripZone()], off + |Record(addrs[0], qtype)|))
  {
    ContainsBoth(msg, off, Record(addrs[0], qtype), Records(addrs[1..], qtype));
    EncodedRecordRead(msg, off, addrs[0], qtype);
  }

  /** The header fields of a message that starts with a header. */
  lemma HeaderRead(header: Bytes, tail: Bytes)
    requires |header| == 12
    ensures var msg := header + tail;
      U16(msg, 0) == U16(header, 0) && U16(msg, 2) == U16(header, 2)
      && U16(msg, 4) == U16(header, 4) && U16(msg, 6) == U16(header, 6)
  {
  }

  /** The header fields of a response beside its question and addresses. */
  function ResponseOf(msg: Bytes, question: Question, addrs: seq<Addr>): Response
    requires |msg| >= 12
  {
    Response(U16(msg, 0), U16(msg, 2) % 0x10, U16(msg, 2) / 0x200 % 2 == 1, question, addrs)
  }

  /** A response with one question is its question followed by its records. */
  lemma ParseOneQuestion(msg: Bytes, question: Question, off: nat)
    requires |msg| >= 12 && U16(msg, 2) >= 0x8000 && U16(msg, 4) == 1
    requires QuestionAt(msg, 12, U16(msg, 0)) == Ok((question, off))
    ensures var answers := AnswersAt(msg, off, U16(msg, 6));
      ParseSpec(msg) == if answers.Err? then Err(Malformed) else Ok(ResponseOf(msg, question, answers.value.0))
  {
  }

  lemma ParseBadQuestion(msg: Bytes)
    requires |msg| >= 12 && U16(msg, 4) == 1 && QuestionAt(msg, 12, U16(msg, 0)) == Err(Malformed)
    ensures ParseSpec(msg) == Err(Malformed)
  {
  }

  /** The records of a message whose name stands at offset 12. */
  lemma RecordsBehindName(msg: Bytes, q: Question, off: nat, matching: seq<Addr>, n: nat)
    requires ValidName(q.name) && |Labels(q.name)| <= 64 && n <= |matching|
    requires Contains(msg, 12, EncodeName(q.name)) && Contains(msg, off, Records(matching, q.qtype))
    requires forall a :: a in matching ==> Matches(a, q.qtype)
    ensures |Labels(q.name)| == 64 && n > 0 ==> AnswersAt(msg, off, n) == Err(Malformed)
    ensures |Labels(q.name)| < 64 || n == 0 ==>
      AnswersAt(msg, off, n).Ok? && AnswersAt(msg, off, n).value.0 == StripZones(matching[..n])
  {
    EncodedNameRead(msg, q.name, HOP_BUDGET - 1);
    if |Labels(q.name)| < 64 {
      EncodedRecordsRead(msg, off, matching, q.qtype, n);
    } else if n > 0 {
      FirstRecordRead(msg, off, matching, q.qtype);
      AnswersStop(msg, off, n);
    }
  }

  /** What a message says, given where its parts lie. */
  lemma ReadAnswer(msg: Bytes, q: Question, matching: seq<Addr>)
    requires ValidName(q.name) && |msg| >= 12
    requires U16(msg, 2) >= 0x8000 && U16(msg, 4) == 1 && U16(msg, 6) <= |matching|
    requires forall a :: a in matching ==> Matches(a, q.qtype)
    requires Contains(msg, 12, QuestionBytes(q.name, q.qtype))
    requires Contains(msg, 12 + |QuestionBytes(q.name, q.qtype)|, Records(matching, q.qtype))
    ensures ParseSpec(msg) ==
      if |Labels(q.name)| > 64 || (|Labels(q.name)| == 64 && U16(msg, 6) > 0) then Err(Malformed)
      else Ok(ResponseOf(msg, Question(U16(msg, 0), TrimDot(q.name), q.qtype, CLASS_IN),
                         StripZones(matching[..U16(msg, 6)])))
  {
    var off := 12 + |QuestionBytes(q.name, q.qtype)|;
    EncodedQuestionRead(msg, q.name, q.qtype, U16(msg, 0));
    if |Labels(q.name)| > 64 {
      ParseBadQuestion(msg);
    } else {
      ReadRecords(msg, q, off, matching);
    }
  }

  lemma ReadRecords(msg: Bytes, q: Question, off: nat, matching: seq<Addr>)
    requires ValidName(q.name) && |Labels(q.name)| <= 64 && |msg| >= 12
    requires U16(msg, 2) >= 0x8000 && U16(msg, 4) == 1 && U16(msg, 6) <= |matching|
    requires forall a :: a in matching ==> Matches(a, q.qtype)
    requires Contains(msg, 12, EncodeName(q.name)) && Contains(msg, off, Records(matching, q.qtype))
    requires QuestionAt(msg, 12, U16(msg, 0)) == Ok((Question(U16(msg, 0), TrimDot(q.name), q.qtype, CLASS_IN), off))
    ensures ParseSpec(msg) ==
      if |Labels(q.name)| == 64 && U16(msg, 6) > 0 then Err(Malformed)
      else Ok(ResponseOf(msg, Question(U16(msg, 0), TrimDot(q.name), q.qtype, CLASS_IN),
                         StripZones(matching[..U16(msg, 6)])))
  {
    RecordsBehindName(msg, q, off, matching, U16(msg, 6));
    ParseOneQuestion(msg, Question(U16(msg, 0), TrimDot(q.name), q.qtype, CLASS_IN), off);
  }

  /** The flags of an answer carry the response code and no truncation bit. */
  lemma AnswerFlags(rcode: int)
    ensures var flags := 0x8180 + rcode % 0x10;
      0x8000 <= flags < 0x1_0000 && flags % 0x10 == rcode % 0x10 && flags / 0x200 % 2 == 0
  {
  }

  /** Where the parts of an answer lie. */
  lemma AnswerLayout(q: Question, rcode: int, addrs: seq<Addr>)
    requires ValidName(q.name)
    ensures var msg, matching := AnswerBytes(q, rcode, addrs), Matching(addrs, q.qtype);
      && |msg| >= 12 && U16(msg, 0) == q.id && U16(msg, 2) == 0x8180 + rcode % 0x10
      && U16(msg, 4) == 1 && U16(msg, 6) == |matching| % 0x1_0000
      && Contains(msg, 12, QuestionBytes(q.name, q.qtype))
      && Contains(msg, 12 + |QuestionBytes(q.name, q.qtype)|, Records(matching, q.qtype))
  {
    var matching := Matching(addrs, q.qtype);
    var header := Header(q.id, 0x8180 + rcode % 0x10, 1, |matching| % 0x1_0000);
    var question, records := QuestionBytes(q.name, q.qtype), Records(matching, q.qtype);
    HeaderRead(header, question + records);
    assert Contains(header + (question + records), 12, question + records);
    ContainsBoth(header + (question + records), 12, question, records);
  }

  /** Every answer that can be built parses back to what went in, or is rejected for its label count. */
  lemma AnswerRoundTrip(q: Question, rcode: int, addrs: seq<Addr>)
    requires ValidName(q.name)
    ensures var labels, matching := |Labels(q.name)|, Matching(addrs, q.qtype);
      var sent := |matching| % 0x1_0000;
      ParseSpec(AnswerBytes(q, rcode, addrs)) ==
        if labels > 64 || (labels == 64 && sent > 0) then Err(Malformed)
        else Ok(Response(q.id, rcode % 0x10, false,
                         Question(q.id, TrimDot(q.name), q.qtype, CLASS_IN),
                         StripZones(matching[..sent])))
  {
    AnswerLayout(q, rcode, addrs);
    AnswerFlags(rcode);
    ReadAnswer(AnswerBytes(q, rcode, addrs), q, Matching(addrs, q.qtype));
  }

  /** Every query that can be built is understood, unless its name has more than 64 labels. */
  lemma QueryRoundTrip(id: uint16, name: Bytes, qtype: uint16)
    requires ValidName(name)
    ensures ParseQuestionSpec(QueryBytes(id, name, qtype)) ==
      if |Labels(name)| > 64 then Err(Malformed)
      else Ok(Question(id, TrimDot(name), qtype, CLASS_IN))
  {
    var header := Header(id, 0x0100, 1, 0);
    var question := QuestionBytes(name, qtype);
    var msg := header + question;
    HeaderRead(header, question);
    assert Contains(msg, 12, question);
    EncodedQuestionRead(msg, name, qtype, id);
  }

  /** A query is never taken for a response. */
  lemma QueryIsNotAResponse(id: uint16, name: Bytes, qtype: uint16)
    requires ValidName(name)
    ensures ParseSpec(QueryBytes(id, name, qtype)) == Err(Malformed)
  {
    HeaderRead(Header(id, 0x0100, 1, 0), QuestionBytes(name, qtype));
  }

  /** The name a.a...a with `n` labels. */
  function DeepName(n: nat): Bytes
    requires n >= 1
  {
    if n == 1 then [97] else [97, DOT] + DeepName(n - 1)
  }

  lemma {:induction false} DeepNameLabels(n: nat)
    requires n >= 1
    ensures |DeepName(n)| == 2 * n - 1 && DeepName(n)[2 * n - 2] == 97
    ensures Split(DeepName(n)) == seq(n, _ => [97])
  {
    if n == 1 {
      var s: Bytes := [97];
      assert s[1..] == [] && Split(s[1..]) == [[]];
      assert [s[0]] + Split(s[1..])[0] == [97] && Split(s[1..])[1..] == [];
    } else {
      DeepNameLabels(n - 1);
      var s := DeepName(n);
      assert s[1..] == [DOT] + DeepName(n - 1);
      assert s[1..][1..] == DeepName(n - 1);
      assert Split(s[1..]) == [[]] + Split(DeepName(n - 1));
      assert [s[0]] + Split(s[1..])[0] == [97];
    }
  }

  /** Names of 65 to 127 labels are accepted for queries, which the parser then rejects. */
  lemma DeepNamesAreNotReadBack(n: nat, id: uint16, qtype: uint16)
    requires 65 <= n <= 127
    ensures ValidName(DeepName(n))
    ensures ParseQuestionSpec(QueryBytes(id, DeepName(n), qtype)) == Err(Malformed)
  {
    DeepNameLabels(n);
    assert TrimDot(DeepName(n)) == DeepName(n);
    QueryRoundTrip(id, DeepName(n), qtype);
  }
}
