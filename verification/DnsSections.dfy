// What a DNS message says, read off its bytes as RFC 1035 section 4.1 lays them out:
// a header, questions and resource records, each where the one before it ended.
module DnsSections {
  import opened Base
  import opened DnsWire
  import opened DnsWireProofs

  /** The 16-bit number at an offset. */
  function Num(msg: Bytes, i: nat): nat
    requires i + 2 <= |msg|
  {
    msg[i] as int * 256 + msg[i + 1] as int
  }

  // -------------------------------------------------------------- records

  /** A resource record without its name and time to live. */
  datatype Rec = Rec(typ: nat, class_: nat, rdata: Bytes)

  /** The part of a record behind its name (section 4.1.3), which ends at `next`. */
  ghost predicate IsRecordBody(msg: Bytes, end: nat, rec: Rec, next: nat) {
    && end + 10 <= |msg| && rec.typ == Num(msg, end) && rec.class_ == Num(msg, end + 2)
    && |rec.rdata| == Num(msg, end + 8) && next == end + 10 + |rec.rdata| <= |msg|
    && msg[end + 10..next] == rec.rdata
  }

  /** A walk that a name read can follow. */
  ghost predicate IsName(msg: Bytes, off: nat, offs: seq<nat>) {
    IsFullWalk(msg, off, offs) && |offs| <= 65
  }

  ghost predicate IsRecord(msg: Bytes, off: nat, rec: Rec, next: nat) {
    exists offs :: IsName(msg, off, offs) && IsRecordBody(msg, WalkEnd(msg, offs), rec, next)
  }

  /** Records one after the other, from `offs[0]` on. */
  ghost predicate IsSection(msg: Bytes, offs: seq<nat>, recs: seq<Rec>) {
    |offs| == |recs| + 1 && forall k :: 0 <= k < |recs| ==> IsRecord(msg, offs[k], recs[k], offs[k + 1])
  }

  /** The address a record holds: four bytes of type 1, or sixteen of type 28, class 1. */
  function Held(rec: Rec): seq<Addr> {
    if rec.typ == 1 && rec.class_ == 1 && |rec.rdata| == 4 then [V4(rec.rdata)]
    else if rec.typ == 28 && rec.class_ == 1 && |rec.rdata| == 16 then [V6(rec.rdata, "")]
    else []
  }

  function AllHeld(recs: seq<Rec>): seq<Addr> {
    if recs == [] then [] else Held(recs[0]) + AllHeld(recs[1..])
  }

  lemma NumIsU16(msg: Bytes, i: nat)
    requires i + 2 <= |msg|
    ensures U16(msg, i) == Num(msg, i)
  {
  }

  /** A name that can be walked is read to the end of its walk. */
  lemma WalkedNameEnds(msg: Bytes, off: nat, offs: seq<nat>)
    requires IsName(msg, off, offs)
    ensures NameSpec(msg, off).Ok? && NameSpec(msg, off).value.1 == WalkEnd(msg, offs)
  {
    NameReadIffWalk(msg, off);
  }

  lemma BodyIsRead(msg: Bytes, off: nat, end: nat, rec: Rec, next: nat)
    requires NameSpec(msg, off).Ok? && NameSpec(msg, off).value.1 == end && IsRecordBody(msg, end, rec, next)
    ensures RecordAt(msg, off) == Ok((Held(rec), next))
  {
    NumIsU16(msg, end);
    NumIsU16(msg, end + 2);
    NumIsU16(msg, end + 8);
    assert RecordAddr(rec.typ, rec.class_, rec.rdata) == Held(rec);
  }

  lemma RecordIsRead(msg: Bytes, off: nat, offs: seq<nat>, rec: Rec, next: nat)
    requires IsName(msg, off, offs) && IsRecordBody(msg, WalkEnd(msg, offs), rec, next)
    ensures RecordAt(msg, off) == Ok((Held(rec), next))
  {
    WalkedNameEnds(msg, off, offs);
    BodyIsRead(msg, off, WalkEnd(msg, offs), rec, next);
  }

  lemma ReadIsRecord(msg: Bytes, off: nat) returns (rec: Rec)
    requires RecordAt(msg, off).Ok?
    ensures IsRecord(msg, off, rec, RecordAt(msg, off).value.1)
  {
    NameReadIffWalk(msg, off);
    var offs :| IsFullWalk(msg, off, offs) && |offs| <= HOP_BUDGET;
    var end := WalkEnd(msg, offs);
    NumIsU16(msg, end);
    NumIsU16(msg, end + 2);
    NumIsU16(msg, end + 8);
    rec := Rec(Num(msg, end), Num(msg, end + 2), msg[end + 10..end + 10 + Num(msg, end + 8)]);
    assert IsName(msg, off, offs) && IsRecordBody(msg, end, rec, end + 10 + |rec.rdata|);
    RecordIsRead(msg, off, offs, rec, end + 10 + |rec.rdata|);
  }

  lemma SectionTail(msg: Bytes, offs: seq<nat>, recs: seq<Rec>)
    requires IsSection(msg, offs, recs) && recs != []
    ensures IsRecord(msg, offs[0], recs[0], offs[1]) && IsSection(msg, offs[1..], recs[1..])
  {
    assert IsRecord(msg, offs[0], recs[0], offs[0 + 1]);
    forall k | 0 <= k < |recs[1..]| ensures IsRecord(msg, offs[1..][k], recs[1..][k], offs[1..][k + 1]) {
      assert IsRecord(msg, offs[k + 1], recs[k + 1], offs[k + 1 + 1]);
    }
  }

  /** The records of a section yield exactly the addresses they hold, in order. */
  lemma {:induction false} SectionIsRead(msg: Bytes, offs: seq<nat>, recs: seq<Rec>)
    requires IsSection(msg, offs, recs)
    ensures AnswersAt(msg, offs[0], |recs|) == Ok((AllHeld(recs), offs[|recs|]))
    decreases |recs|
  {
    if recs != [] {
      SectionTail(msg, offs, recs);
      var walk :| IsName(msg, offs[0], walk) && IsRecordBody(msg, WalkEnd(msg, walk), recs[0], offs[1]);
      RecordIsRead(msg, offs[0], walk, recs[0], offs[1]);
      SectionIsRead(msg, offs[1..], recs[1..]);
      AnswersStep(msg, offs[0], |recs|, Held(recs[0]), offs[1]);
    }
  }

  lemma SectionCons(msg: Bytes, off: nat, rec: Rec, offs: seq<nat>, recs: seq<Rec>)
    requires IsSection(msg, offs, recs) && IsRecord(msg, off, rec, offs[0])
    ensures IsSection(msg, [off] + offs, [rec] + recs)
  {
    forall k | 0 <= k < |recs| + 1 ensures IsRecord(msg, ([off] + offs)[k], ([rec] + recs)[k], ([off] + offs)[k + 1]) {
      if k > 0 {
        assert IsRecord(msg, offs[k - 1], recs[k - 1], offs[k - 1 + 1]);
      }
    }
  }

  lemma {:induction false} ReadIsSection(msg: Bytes, off: nat, n: nat) returns (offs: seq<nat>, recs: seq<Rec>)
    requires AnswersAt(msg, off, n).Ok?
    ensures IsSection(msg, offs, recs) && offs[0] == off && |recs| == n
    decreases n
  {
    offs, recs := [off], [];
    if n > 0 {
      var rec := ReadIsRecord(msg, off);
      var offs', recs' := ReadIsSection(msg, RecordAt(msg, off).value.1, n - 1);
      SectionCons(msg, off, rec, offs', recs');
      offs, recs := [off] + offs', [rec] + recs';
    }
  }

  // ------------------------------------------------------------ questions

  ghost predicate IsQuestion(msg: Bytes, off: nat, q: Question, next: nat) {
    exists offs :: IsName(msg, off, offs) && IsQuestionBody(msg, offs, q, next)
  }

  /** A question (section 4.1.2) whose name was walked along `offs`. */
  ghost predicate IsQuestionBody(msg: Bytes, offs: seq<nat>, q: Question, next: nat)
    requires IsWalk(msg, offs)
  {
    var end := WalkEnd(msg, offs);
    && next == end + 4 <= |msg| && q.name == Join(WalkLabels(msg, offs))
    && q.qtype == Num(msg, end) && q.qclass == Num(msg, end + 2)
  }

  ghost predicate IsQuestions(msg: Bytes, offs: seq<nat>, qs: seq<Question>, id: nat) {
    && |offs| == |qs| + 1
    && forall k :: 0 <= k < |qs| ==> IsQuestion(msg, offs[k], qs[k], offs[k + 1]) && qs[k].id == id
  }

  lemma QuestionIsRead(msg: Bytes, off: nat, offs: seq<nat>, q: Question, next: nat)
    requires IsName(msg, off, offs) && IsQuestionBody(msg, offs, q, next)
    ensures QuestionAt(msg, off, q.id) == Ok((q, next))
  {
    NameReadIffWalk(msg, off);
    NumIsU16(msg, WalkEnd(msg, offs));
    NumIsU16(msg, WalkEnd(msg, offs) + 2);
  }

  lemma ReadIsQuestion(msg: Bytes, off: nat, id: uint16)
    requires QuestionAt(msg, off, id).Ok?
    ensures var (q, next) := QuestionAt(msg, off, id).value; IsQuestion(msg, off, q, next) && q.id == id
  {
    NameReadIffWalk(msg, off);
    var offs :| IsFullWalk(msg, off, offs) && |offs| <= HOP_BUDGET;
    NumIsU16(msg, WalkEnd(msg, offs));
    NumIsU16(msg, WalkEnd(msg, offs) + 2);
    assert IsName(msg, off, offs);
    assert IsQuestionBody(msg, offs, QuestionAt(msg, off, id).value.0, QuestionAt(msg, off, id).value.1);
  }

  lemma {:induction false} QuestionsAreRead(msg: Bytes, offs: seq<nat>, qs: seq<Question>, id: uint16)
    requires IsQuestions(msg, offs, qs, id)
    ensures QuestionsAt(msg, offs[0], |qs|, id)
      == Ok((if qs == [] then Question(0, [], 0, 0) else qs[0], offs[|qs|]))
    decreases |qs|
  {
    if qs != [] {
      assert IsQuestion(msg, offs[0], qs[0], offs[0 + 1]);
      var walk :| IsName(msg, offs[0], walk) && IsQuestionBody(msg, walk, qs[0], offs[1]);
      QuestionIsRead(msg, offs[0], walk, qs[0], offs[1]);
      assert IsQuestions(msg, offs[1..], qs[1..], id) by {
        forall k | 0 <= k < |qs[1..]|
          ensures IsQuestion(msg, offs[1..][k], qs[1..][k], offs[1..][k + 1]) && qs[1..][k].id == id
        {
          assert IsQuestion(msg, offs[k + 1], qs[k + 1], offs[k + 1 + 1]);
        }
      }
      QuestionsAreRead(msg, offs[1..], qs[1..], id);
    }
  }

  lemma {:induction false} ReadIsQuestions(msg: Bytes, off: nat, n: nat, id: uint16)
      returns (offs: seq<nat>, qs: seq<Question>)
    requires QuestionsAt(msg, off, n, id).Ok?
    ensures IsQuestions(msg, offs, qs, id) && offs[0] == off && |qs| == n
    decreases n
  {
    offs, qs := [off], [];
    if n > 0 {
      ReadIsQuestion(msg, off, id);
      var (q, next) := QuestionAt(msg, off, id).value;
      var offs', qs' := ReadIsQuestions(msg, next, n - 1, id);
      offs, qs := [off] + offs', [q] + qs';
      forall k | 0 <= k < |qs| ensures IsQuestion(msg, offs[k], qs[k], offs[k + 1]) && qs[k].id == id {
        if k > 0 {
          assert IsQuestion(msg, offs'[k - 1], qs'[k - 1], offs'[k - 1 + 1]);
        }
      }
    }
  }

  // ------------------------------------------------------------- messages

  /** The sections of a message and where their parts begin. */
  datatype Layout = Layout(qoffs: seq<nat>, qs: seq<Question>, roffs: seq<nat>, recs: seq<Rec>)

  /** A response laid out like this: the response bit, the counts, questions from byte 12, then answers. */
  ghost predicate IsResponse(msg: Bytes, l: Layout) {
    && |msg| >= 12 && msg[2] >= 128
    && |l.qs| == Num(msg, 4) && |l.recs| == Num(msg, 6)
    && IsQuestions(msg, l.qoffs, l.qs, Num(msg, 0)) && l.qoffs[0] == 12
    && IsSection(msg, l.roffs, l.recs) && l.roffs[0] == l.qoffs[|l.qs|]
  }

  /** What Parse returns for it. */
  ghost function Said(msg: Bytes, l: Layout): Response
    requires |msg| >= 12
  {
    Response(Num(msg, 0), msg[3] as int % 16, msg[2] as int / 2 % 2 == 1,
             if l.qs == [] then Question(0, [], 0, 0) else l.qs[0], AllHeld(l.recs))
  }

  lemma FlagBits(msg: Bytes)
    requires |msg| >= 12
    ensures U16(msg, 2) >= 0x8000 <==> msg[2] >= 128
    ensures U16(msg, 2) % 0x10 == msg[3] as int % 16
    ensures U16(msg, 2) / 0x200 % 2 == msg[2] as int / 2 % 2
  {
    var high: int, low: int := msg[2], msg[3];
    assert U16(msg, 2) == high * 0x100 + low;
    assert U16(msg, 2) / 0x200 == high / 2;
  }

  lemma ResponseIsParsed(msg: Bytes, l: Layout)
    requires IsResponse(msg, l)
    ensures ParseSpec(msg) == Ok(Said(msg, l))
  {
    QuestionsAreRead(msg, l.qoffs, l.qs, Num(msg, 0));
    SectionIsRead(msg, l.roffs, l.recs);
    FlagBits(msg);
    NumIsU16(msg, 0);
    NumIsU16(msg, 4);
    NumIsU16(msg, 6);
  }

  lemma ParsedIsResponse(msg: Bytes) returns (l: Layout)
    requires ParseSpec(msg).Ok?
    ensures IsResponse(msg, l)
  {
    var id, qd, an := U16(msg, 0), U16(msg, 4), U16(msg, 6);
    var qoffs, qs := ReadIsQuestions(msg, 12, qd, id);
    QuestionsAreRead(msg, qoffs, qs, id);
    var roffs, recs := ReadIsSection(msg, qoffs[|qs|], an);
    FlagBits(msg);
    NumIsU16(msg, 0);
    NumIsU16(msg, 4);
    NumIsU16(msg, 6);
    l := Layout(qoffs, qs, roffs, recs);
  }

  /** Parse accepts exactly the responses that can be laid out, and says what they say. */
  lemma ParseIff(msg: Bytes)
    ensures ParseSpec(msg).Ok? <==> exists l :: IsResponse(msg, l)
    ensures forall l :: IsResponse(msg, l) ==> ParseSpec(msg) == Ok(Said(msg, l))
  {
    if ParseSpec(msg).Ok? {
      var l := ParsedIsResponse(msg);
    }
    forall l | IsResponse(msg, l) ensures ParseSpec(msg) == Ok(Said(msg, l)) {
      ResponseIsParsed(msg, l);
    }
  }

  // ------------------------------------------------------ what is written

  ghost predicate NoDot(lbl: Bytes) {
    forall i :: 0 <= i < |lbl| ==> lbl[i] != 46
  }

  /** Labels contain no dots, so a name splits in one way. */
  lemma {:induction false} LabelsHaveNoDots(s: Bytes)
    ensures forall k :: 0 <= k < |Split(s)| ==> NoDot(Split(s)[k])
  {
    if s != [] {
      LabelsHaveNoDots(s[1..]);
      var r := Split(s[1..]);
      assert NoDot(r[0]);
      if s[0] != DOT {
        assert NoDot([s[0]] + r[0]);
      }
    }
  }

  /** One final dot is dropped, and nothing else. */
  lemma TrimDotIff(name: Bytes, t: Bytes)
    ensures TrimDot(name) == t <==> name == t + [46] || (name == t && (t == [] || t[|t| - 1] != 46))
  {
    if name != [] && name[|name| - 1] == 46 {
      assert name == name[..|name| - 1] + [46];
    }
    if name == t + [46] {
      assert name[..|name| - 1] == t;
    }
  }

  /** The names that can be sent, in the numbers of RFC 1035 section 2.3.4. */
  lemma ValidNameIff(name: Bytes)
    ensures ValidName(name) <==>
      1 <= |TrimDot(name)| <= 253 && forall lbl :: lbl in Split(TrimDot(name)) ==> 1 <= |lbl| <= 63
  {
    assert forall lbl :: ValidLabel(lbl) <==> 1 <= |lbl| <= 63;
  }

  /** A query, byte for byte: recursion desired, one question, class 1. */
  lemma QuerySpelled(id: uint16, name: Bytes, qtype: uint16)
    requires ValidName(name)
    ensures QueryBytes(id, name, qtype) ==
      [id / 256, id % 256, 1, 0, 0, 1, 0, 0, 0, 0, 0, 0] + (EncodeName(name) + [qtype / 256, qtype % 256, 0, 1])
  {
  }

  /** A record, byte for byte: a pointer to offset 12, the type, class 1, 60 seconds, the address. */
  lemma RecordSpelled(a: Addr, qtype: uint16)
    requires Matches(a, qtype)
    ensures Record(a, qtype) ==
      [192, 12, qtype / 256, qtype % 256, 0, 1, 0, 0, 0, 60, 0, if a.V4? then 4 else 16]
        + (if a.V4? then a.v4 else a.v6)
  {
  }

  /** An answer, byte for byte: response, recursion desired and available, one question, the records. */
  lemma AnswerSpelled(q: Question, rcode: int, addrs: seq<Addr>)
    requires ValidName(q.name)
    ensures var m := Matching(addrs, q.qtype);
      AnswerBytes(q, rcode, addrs) ==
        [q.id / 256, q.id % 256, 129, 128 + rcode % 16, 0, 1, |m| % 65536 / 256, |m| % 65536 % 256, 0, 0, 0, 0]
        + (EncodeName(q.name) + [q.qtype / 256, q.qtype % 256, 0, 1] + Records(m, q.qtype))
  {
    var flags := 0x8180 + rcode % 0x10;
    assert Hi(flags) == 129 && Lo(flags) == 128 + rcode % 16;
  }

  /** The addresses a question of a type is answered with: the IPv4 ones for type 1, the IPv6 ones for type 28. */
  function Fitting(a: Addr, qtype: uint16): seq<Addr> {
    if (qtype == 1 && a.V4?) || (qtype == 28 && a.V6?) then [a] else []
  }

  lemma MatchingStep(addrs: seq<Addr>, qtype: uint16)
    requires addrs != []
    ensures Matching(addrs, qtype) == Fitting(addrs[0], qtype) + Matching(addrs[1..], qtype)
  {
  }

  lemma Regroup<T>(a: seq<T>, b: seq<T>, c: seq<T>, d: seq<T>)
    ensures a + (b + c + d) == a + b + c + d
  {
  }

  /** Every address an answer is given is included exactly when it fits the question's type. */
  lemma {:induction false} MatchingIff(addrs: seq<Addr>, qtype: uint16, i: nat)
    requires i < |addrs|
    ensures Matching(addrs, qtype)
      == Matching(addrs[..i], qtype) + Fitting(addrs[i], qtype) + Matching(addrs[i + 1..], qtype)
  {
    MatchingStep(addrs, qtype);
    if i == 0 {
      assert Matching(addrs[..0], qtype) == [];
    } else {
      var rest, init := addrs[1..], addrs[..i];
      MatchingIff(rest, qtype, i - 1);
      MatchingStep(init, qtype);
      assert rest[..i - 1] == init[1..] && rest[i..] == addrs[i + 1..];
      Regroup(Fitting(addrs[0], qtype), Matching(init[1..], qtype), Fitting(addrs[i], qtype),
              Matching(addrs[i + 1..], qtype));
    }
  }
}
