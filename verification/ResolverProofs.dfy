// A lookup over UDP end to end: which datagram answers it, and what an honest answer
// behind any number of others yields.
module ResolverProofs {
  import opened Base
  import opened DnsWire
  import opened DnsWireProofs
  import opened Resolvers
  import DnsSections

  // ------------------------------------------------ prefixes of messages

  lemma {:induction false} NamePrefix(short: Bytes, long: Bytes, off: nat, fuel: nat)
    requires short <= long && NameAt(short, off, fuel).Ok?
    ensures NameAt(long, off, fuel) == NameAt(short, off, fuel)
    decreases fuel
  {
    var h := HopAt(short, off);
    HopPrefix(short, long, off);
    if h.Jump? {
      NamePrefix(short, long, h.to, fuel - 1);
    } else if h.Part? {
      NamePrefix(short, long, h.next, fuel - 1);
    }
  }

  lemma HopPrefix(short: Bytes, long: Bytes, off: nat)
    requires short <= long && !HopAt(short, off).Bad?
    ensures HopAt(long, off) == HopAt(short, off)
  {
    if HopAt(short, off).Part? {
      var next := HopAt(short, off).next;
      assert long[off + 1..next] == short[off + 1..next];
    }
  }

  lemma QuestionPrefix(short: Bytes, long: Bytes, off: nat, id: uint16)
    requires short <= long && QuestionAt(short, off, id).Ok?
    ensures QuestionAt(long, off, id) == QuestionAt(short, off, id)
  {
    NamePrefix(short, long, off, HOP_BUDGET);
  }

  lemma {:induction false} QuestionsPrefix(short: Bytes, long: Bytes, off: nat, n: nat, id: uint16)
    requires short <= long && QuestionsAt(short, off, n, id).Ok?
    ensures QuestionsAt(long, off, n, id) == QuestionsAt(short, off, n, id)
    decreases n
  {
    if n > 0 {
      QuestionPrefix(short, long, off, id);
      QuestionsPrefix(short, long, QuestionAt(short, off, id).value.1, n - 1, id);
    }
  }

  lemma U16Prefix(short: Bytes, long: Bytes, i: nat)
    requires short <= long && i + 2 <= |short|
    ensures U16(long, i) == U16(short, i)
  {
  }

  lemma SlicePrefix(short: Bytes, long: Bytes, i: nat, j: nat)
    requires short <= long && i <= j <= |short|
    ensures long[i..j] == short[i..j]
  {
  }

  lemma RecordPrefix(short: Bytes, long: Bytes, off: nat)
    requires short <= long && RecordAt(short, off).Ok?
    ensures RecordAt(long, off) == RecordAt(short, off)
  {
    NamePrefix(short, long, off, HOP_BUDGET);
    RecordAfterName(short, long, off, NameAt(short, off, HOP_BUDGET).value.end);
  }

  lemma RecordAfterName(short: Bytes, long: Bytes, off: nat, end: nat)
    requires short <= long && RecordAt(short, off).Ok?
    requires NameSpec(long, off) == NameSpec(short, off) && NameSpec(short, off).value.1 == end
    ensures RecordAt(long, off) == RecordAt(short, off)
  {
    var rdlen := U16(short, end + 8);
    var rdata := short[end + 10..end + 10 + rdlen];
    U16Prefix(short, long, end);
    U16Prefix(short, long, end + 2);
    U16Prefix(short, long, end + 8);
    SlicePrefix(short, long, end + 10, end + 10 + rdlen);
    RecordBehind(long, off, end, rdata, RecordAddr(U16(short, end), U16(short, end + 2), rdata));
  }

  lemma AnswersUnfold(msg: Bytes, off: nat, n: nat) returns (found: seq<Addr>, next: nat)
    requires n > 0 && AnswersAt(msg, off, n).Ok?
    ensures RecordAt(msg, off) == Ok((found, next)) && AnswersAt(msg, next, n - 1).Ok?
    ensures AnswersAt(msg, off, n) == Prepend(found, AnswersAt(msg, next, n - 1))
  {
    found, next := RecordAt(msg, off).value.0, RecordAt(msg, off).value.1;
  }

  lemma {:induction false} AnswersPrefix(short: Bytes, long: Bytes, off: nat, n: nat)
    requires short <= long && AnswersAt(short, off, n).Ok?
    ensures AnswersAt(long, off, n) == AnswersAt(short, off, n)
    decreases n
  {
    if n > 0 {
      var found, next := AnswersUnfold(short, off, n);
      RecordPrefix(short, long, off);
      AnswersPrefix(short, long, next, n - 1);
      AnswersStep(long, off, n, found, next);
    }
  }

  /** The offset at which a readable message ends, if its header counts are to be believed. */
  function ParseEnd(msg: Bytes): nat
    requires ParseSpec(msg).Ok?
  {
    AnswersAt(msg, QuestionsAt(msg, 12, U16(msg, 4), U16(msg, 0)).value.1, U16(msg, 6)).value.1
  }

  lemma EndInside(msg: Bytes)
    requires ParseSpec(msg).Ok?
    ensures 12 <= ParseEnd(msg) <= |msg|
  {
  }

  /** What follows a readable message is not looked at. */
  lemma ParsePrefix(short: Bytes, long: Bytes)
    requires short <= long && ParseSpec(short).Ok?
    ensures ParseSpec(long) == ParseSpec(short)
    ensures ParseEnd(long) == ParseEnd(short)
  {
    assert forall i: nat :: i + 2 <= |short| ==> U16(long, i) == U16(short, i);
    QuestionsPrefix(short, long, 12, U16(short, 4), U16(short, 0));
    AnswersPrefix(short, long, QuestionsAt(short, 12, U16(short, 4), U16(short, 0)).value.1, U16(short, 6));
  }

  /** A message cut anywhere before its end is malformed. */
  lemma CutIsMalformed(msg: Bytes, n: nat)
    requires ParseSpec(msg).Ok? && n < ParseEnd(msg) && n <= |msg|
    ensures ParseSpec(msg[..n]) == Err(Malformed)
  {
    if ParseSpec(msg[..n]).Ok? {
      ParsePrefix(msg[..n], msg);
      EndInside(msg[..n]);
    }
  }

  // ------------------------------------------------- what a lookup means

  /** The first datagram that is accepted. */
  ghost predicate IsFirst(fold: Fold, id: uint16, host: Bytes, ds: seq<Bytes>, i: nat) {
    && i < |ds| && Accepts(fold, id, host, ds[i])
    && forall j :: 0 <= j < i ==> !Accepts(fold, id, host, ds[j])
  }

  /** The query went out and `resp` is what the first accepted datagram says. */
  ghost predicate Replied(fold: Fold, id: uint16, host: Bytes, sent: bool, ds: seq<Bytes>, resp: Response) {
    && ValidName(host) && sent
    && exists i: nat :: IsFirst(fold, id, host, ds, i) && ParseSpec(Cut(ds[i], BUFFER_SIZE)) == Ok(resp)
  }

  ghost predicate HasV4(addrs: seq<Addr>) {
    exists a :: a in addrs && (a.Is4() || a.Is4In6())
  }

  lemma {:induction false} V4AddrsMembers(addrs: seq<Addr>)
    ensures V4Addrs(addrs) != [] <==> HasV4(addrs)
    ensures forall x :: x in V4Addrs(addrs) <==> exists a :: a in addrs && (a.Is4() || a.Is4In6()) && a.Unmap() == x
  {
    if addrs != [] {
      V4AddrsMembers(addrs[1..]);
      assert addrs == [addrs[0]] + addrs[1..];
    }
  }

  lemma {:induction false} FirstIsAccepted(fold: Fold, id: uint16, host: Bytes, ds: seq<Bytes>) returns (i: nat)
    requires FirstAccepted(fold, id, host, ds).Ok?
    ensures IsFirst(fold, id, host, ds, i)
    ensures ParseSpec(Cut(ds[i], BUFFER_SIZE)) == Ok(FirstAccepted(fold, id, host, ds).value)
  {
    if Accepts(fold, id, host, ds[0]) {
      i := 0;
    } else {
      var j := FirstIsAccepted(fold, id, host, ds[1..]);
      i := j + 1;
    }
  }

  lemma FirstIsUnique(fold: Fold, id: uint16, host: Bytes, ds: seq<Bytes>, i: nat, j: nat)
    requires IsFirst(fold, id, host, ds, i) && IsFirst(fold, id, host, ds, j)
    ensures i == j
  {
  }

  lemma RepliedIs(fold: Fold, id: uint16, host: Bytes, sent: bool, ds: seq<Bytes>, resp: Response)
    requires Replied(fold, id, host, sent, ds, resp)
    ensures FirstAccepted(fold, id, host, ds) == Ok(resp)
  {
    var i: nat :| IsFirst(fold, id, host, ds, i) && ParseSpec(Cut(ds[i], BUFFER_SIZE)) == Ok(resp);
    assert ds[i] in ds;
    var j := FirstIsAccepted(fold, id, host, ds);
    FirstIsUnique(fold, id, host, ds, i, j);
  }

  /** A datagram is accepted exactly when its first 1500 bytes are a response with the query's ID and name. */
  lemma AcceptsIff(fold: Fold, id: uint16, host: Bytes, d: Bytes)
    ensures var got := if |d| <= 1500 then d else d[..1500];
      Accepts(fold, id, host, d) <==>
        exists l :: DnsSections.IsResponse(got, l) && DnsSections.Num(got, 0) == id
          && fold(TrimDot(DnsSections.Said(got, l).question.name), TrimDot(host))
  {
    var got := if |d| <= 1500 then d else d[..1500];
    DnsSections.ParseIff(got);
  }

  /** What each outcome of a UDP lookup says about the datagrams that arrived. */
  lemma UdpLookupIff(fold: Fold, id: uint16, host: Bytes, sent: bool, ds: seq<Bytes>, resp: Response)
    ensures var r := UdpLookupOf(fold, id, host, sent, ds);
      && (r == Err(BadName) <==> !ValidName(host))
      && (r == Err(Network) <==> ValidName(host) && (!sent || forall d :: d in ds ==> !Accepts(fold, id, host, d)))
      && (r.Ok? ==> exists x :: Replied(fold, id, host, sent, ds, x))
    ensures Replied(fold, id, host, sent, ds, resp) ==>
      var r := UdpLookupOf(fold, id, host, sent, ds);
      && (r == Err(NxDomain) <==> resp.rcode == 3)
      && (r == Err(NoAnswer) <==> resp.rcode == 0 && !HasV4(resp.addrs))
      && (resp.rcode != 0 && resp.rcode != 3 <==> r == Err(RCode(resp.rcode)))
      && (r.Ok? <==> resp.rcode == 0 && HasV4(resp.addrs))
      && (r.Ok? ==> forall x :: x in r.value <==>
            exists a :: a in resp.addrs && (a.Is4() || a.Is4In6()) && a.Unmap() == x)
  {
    if ValidName(host) && sent && FirstAccepted(fold, id, host, ds).Ok? {
      var i := FirstIsAccepted(fold, id, host, ds);
      assert Replied(fold, id, host, sent, ds, FirstAccepted(fold, id, host, ds).value);
    }
    if Replied(fold, id, host, sent, ds, resp) {
      RepliedIs(fold, id, host, sent, ds, resp);
      V4AddrsMembers(resp.addrs);
    }
  }

  /** What each outcome of a lookup over HTTPS says about what was fetched. */
  lemma DohLookupIff(host: Bytes, fetched: Fetched)
    ensures var r := DohLookupOf(host, fetched);
      && (r == Err(BadName) <==> !ValidName(host))
      && (r.Ok? ==>
            && fetched.Fetched? && fetched.status == 200 && fetched.body.Some?
            && var msg := ParseSpec(Cut(fetched.body.value, BODY_LIMIT));
               && msg.Ok? && msg.value.rcode == 0 && HasV4(msg.value.addrs) && r.value != []
               && forall x :: x in r.value <==>
                    exists a :: a in msg.value.addrs && (a.Is4() || a.Is4In6()) && a.Unmap() == x)
      && (ValidName(host) && fetched.Fetched? && fetched.status == 200 && fetched.body.Some? ==>
            var msg := ParseSpec(Cut(fetched.body.value, BODY_LIMIT));
            && (r == Err(BadMessage) <==> msg.Err?)
            && (r == Err(NxDomain) <==> msg.Ok? && msg.value.rcode == 3)
            && (msg.Ok? && msg.value.rcode != 0 && msg.value.rcode != 3 ==> r == Err(RCode(msg.value.rcode)))
            && (r == Err(NoAnswer) <==> msg.Ok? && msg.value.rcode == 0 && !HasV4(msg.value.addrs)))
  {
    if fetched.Fetched? && fetched.body.Some? && ParseSpec(Cut(fetched.body.value, BODY_LIMIT)).Ok? {
      V4AddrsMembers(ParseSpec(Cut(fetched.body.value, BODY_LIMIT)).value.addrs);
    }
  }

  // ------------------------------------------------------ honest answers

  /** The message as far as its own record count goes. */
  function Core(q: Question, rcode: int, addrs: seq<Addr>): Bytes
    requires ValidName(q.name)
  {
    var matching := Matching(addrs, q.qtype);
    var sent := |matching| % 0x1_0000;
    Header(q.id, 0x8180 + rcode % 0x10, 1, sent) + (QuestionBytes(q.name, q.qtype) + Records(matching[..sent], q.qtype))
  }

  lemma {:induction false} RecordsConcat(a: seq<Addr>, b: seq<Addr>, qtype: uint16)
    ensures Records(a + b, qtype) == Records(a, qtype) + Records(b, qtype)
  {
    if a == [] {
      assert a + b == b;
    } else {
      RecordsConcat(a[1..], b, qtype);
      assert (a + b)[1..] == a[1..] + b;
      ConcatAssoc(Record(a[0], qtype), Records(a[1..], qtype), Records(b, qtype));
    }
  }

  lemma {:induction false} RecordsLength(addrs: seq<Addr>)
    requires forall a :: a in addrs ==> a.V4?
    ensures |Records(addrs, TYPE_A)| == 16 * |addrs|
  {
    if addrs != [] {
      assert addrs[0] in addrs;
      RecordsLength(addrs[1..]);
    }
  }

  lemma CoreIsPrefix(q: Question, rcode: int, addrs: seq<Addr>)
    requires ValidName(q.name)
    ensures Core(q, rcode, addrs) <= AnswerBytes(q, rcode, addrs)
  {
    var matching := Matching(addrs, q.qtype);
    var sent := |matching| % 0x1_0000;
    assert matching == matching[..sent] + matching[sent..];
    RecordsConcat(matching[..sent], matching[sent..], q.qtype);
    ConcatAssoc(QuestionBytes(q.name, q.qtype), Records(matching[..sent], q.qtype), Records(matching[sent..], q.qtype));
    ConcatAssoc(Header(q.id, 0x8180 + rcode % 0x10, 1, sent),
                QuestionBytes(q.name, q.qtype) + Records(matching[..sent], q.qtype),
                Records(matching[sent..], q.qtype));
  }

  /** Records that are read back end where they were written to. */
  lemma {:induction false} RecordsEnd(msg: Bytes, off: nat, addrs: seq<Addr>, qtype: uint16)
    requires Contains(msg, off, Records(addrs, qtype)) && NameAt(msg, 12, HOP_BUDGET - 1).Ok?
    requires forall a :: a in addrs ==> Matches(a, qtype)
    ensures AnswersAt(msg, off, |addrs|).Ok?
    ensures AnswersAt(msg, off, |addrs|).value.1 == off + |Records(addrs, qtype)|
    decreases |addrs|
  {
    if addrs != [] {
      var next := off + |Record(addrs[0], qtype)|;
      FirstRecordRead(msg, off, addrs, qtype);
      RecordsEnd(msg, next, addrs[1..], qtype);
      AnswersStep(msg, off, |addrs|, [addrs[0].StripZone()], next);
    }
  }

  /** An answer of up to 63 labels, as far as its count goes. */
  function CoreResponse(q: Question, rcode: int, addrs: seq<Addr>): Response {
    var matching := Matching(addrs, q.qtype);
    Response(q.id, rcode % 0x10, false, Question(q.id, TrimDot(q.name), q.qtype, CLASS_IN),
             StripZones(matching[..|matching| % 0x1_0000]))
  }

  lemma CoreLayout(q: Question, rcode: int, addrs: seq<Addr>)
    requires ValidName(q.name)
    ensures var msg, matching := Core(q, rcode, addrs), Matching(addrs, q.qtype);
      var sent := |matching| % 0x1_0000;
      && |msg| >= 12 && U16(msg, 0) == q.id && U16(msg, 2) == 0x8180 + rcode % 0x10
      && U16(msg, 4) == 1 && U16(msg, 6) == sent
      && Contains(msg, 12, QuestionBytes(q.name, q.qtype))
      && Contains(msg, 12 + |QuestionBytes(q.name, q.qtype)|, Records(matching[..sent], q.qtype))
      && |msg| == 12 + |QuestionBytes(q.name, q.qtype)| + |Records(matching[..sent], q.qtype)|
  {
    var matching := Matching(addrs, q.qtype);
    var sent := |matching| % 0x1_0000;
    var header := Header(q.id, 0x8180 + rcode % 0x10, 1, sent);
    var question, records := QuestionBytes(q.name, q.qtype), Records(matching[..sent], q.qtype);
    HeaderRead(header, question + records);
    assert Contains(header + (question + records), 12, question + records);
    ContainsBoth(header + (question + records), 12, question, records);
  }

  lemma CoreRead(q: Question, rcode: int, addrs: seq<Addr>)
    requires ValidName(q.name) && |Labels(q.name)| <= 63
    ensures ParseSpec(Core(q, rcode, addrs)) == Ok(CoreResponse(q, rcode, addrs))
  {
    var msg, matching := Core(q, rcode, addrs), Matching(addrs, q.qtype);
    var sent := |matching| % 0x1_0000;
    CoreLayout(q, rcode, addrs);
    AnswerFlags(rcode);
    ReadAnswer(msg, q, matching[..sent]);
    assert matching[..sent][..sent] == matching[..sent];
  }

  lemma EndOfOneQuestion(msg: Bytes, question: Question, off: nat, end: nat)
    requires ParseSpec(msg).Ok? && U16(msg, 4) == 1
    requires QuestionAt(msg, 12, U16(msg, 0)) == Ok((question, off))
    requires AnswersAt(msg, off, U16(msg, 6)).Ok? && AnswersAt(msg, off, U16(msg, 6)).value.1 == end
    ensures ParseEnd(msg) == end
  {
    assert QuestionsAt(msg, 12, 1, U16(msg, 0)) == QuestionAt(msg, 12, U16(msg, 0));
  }

  lemma RecordsAfterName(msg: Bytes, q: Question, off: nat, sent: seq<Addr>)
    requires ValidName(q.name) && |Labels(q.name)| <= 63
    requires Contains(msg, 12, EncodeName(q.name)) && Contains(msg, off, Records(sent, q.qtype))
    requires forall a :: a in sent ==> Matches(a, q.qtype)
    ensures AnswersAt(msg, off, |sent|).Ok? && AnswersAt(msg, off, |sent|).value.1 == off + |Records(sent, q.qtype)|
  {
    EncodedNameRead(msg, q.name, HOP_BUDGET - 1);
    RecordsEnd(msg, off, sent, q.qtype);
  }

  lemma AnswerEnd(msg: Bytes, q: Question, sent: seq<Addr>)
    requires ParseSpec(msg).Ok? && U16(msg, 4) == 1 && U16(msg, 6) == |sent|
    requires ValidName(q.name) && |Labels(q.name)| <= 63
    requires Contains(msg, 12, QuestionBytes(q.name, q.qtype))
    requires Contains(msg, 12 + |QuestionBytes(q.name, q.qtype)|, Records(sent, q.qtype))
    requires forall a :: a in sent ==> Matches(a, q.qtype)
    requires |msg| == 12 + |QuestionBytes(q.name, q.qtype)| + |Records(sent, q.qtype)|
    ensures ParseEnd(msg) == |msg|
  {
    var off := 12 + |QuestionBytes(q.name, q.qtype)|;
    EncodedQuestionRead(msg, q.name, q.qtype, U16(msg, 0));
    RecordsAfterName(msg, q, off, sent);
    EndOfOneQuestion(msg, Question(U16(msg, 0), TrimDot(q.name), q.qtype, CLASS_IN), off,
                     off + |Records(sent, q.qtype)|);
  }

  lemma CoreEnd(q: Question, rcode: int, addrs: seq<Addr>)
    requires ValidName(q.name) && |Labels(q.name)| <= 63
    ensures ParseSpec(Core(q, rcode, addrs)).Ok? && ParseEnd(Core(q, rcode, addrs)) == |Core(q, rcode, addrs)|
  {
    var matching := Matching(addrs, q.qtype);
    var sent := matching[..|matching| % 0x1_0000];
    CoreRead(q, rcode, addrs);
    CoreLayout(q, rcode, addrs);
    AnswerEnd(Core(q, rcode, addrs), q, sent);
  }

  /** What survives a size limit: the whole answer if its records fit, and otherwise nothing. */
  lemma AnswerThrough(q: Question, rcode: int, addrs: seq<Addr>, limit: nat)
    requires ValidName(q.name) && |Labels(q.name)| <= 63
    ensures ParseSpec(Cut(AnswerBytes(q, rcode, addrs), limit)) ==
      if |Core(q, rcode, addrs)| <= limit then Ok(CoreResponse(q, rcode, addrs)) else Err(Malformed)
  {
    var core, all := Core(q, rcode, addrs), AnswerBytes(q, rcode, addrs);
    var got := Cut(all, limit);
    CoreIsPrefix(q, rcode, addrs);
    CoreRead(q, rcode, addrs);
    CoreEnd(q, rcode, addrs);
    if |core| <= limit {
      assert core <= got;
      ParsePrefix(core, got);
    } else {
      assert got == core[..limit];
      CutIsMalformed(core, limit);
    }
  }

  // -------------------------------------------------------- end to end

  lemma {:induction false} SplitEndsEmpty(s: Bytes)
    requires s != [] && s[|s| - 1] == DOT
    ensures |Split(s)| >= 2 && Split(s)[|Split(s)| - 1] == []
  {
    var rest := Split(s[1..]);
    if |s| == 1 {
      assert rest == [[]];
    } else {
      SplitEndsEmpty(s[1..]);
      assert rest[1..][|rest| - 2] == [];
    }
  }

  /** Names that can be sent have no second final dot. */
  lemma TrimTwice(name: Bytes)
    requires ValidName(name)
    ensures TrimDot(TrimDot(name)) == TrimDot(name) && ValidName(TrimDot(name))
    ensures Labels(TrimDot(name)) == Labels(name)
  {
    var t := TrimDot(name);
    if t[|t| - 1] == DOT {
      SplitEndsEmpty(t);
      assert Split(t)[|Split(t)| - 1] in Labels(name);
    }
  }

  lemma {:induction false} EncodedLength(labels: seq<Bytes>)
    requires labels != [] && forall l :: l in labels ==> ValidLabel(l)
    ensures |EncodeLabels(labels)| == |Join(labels)| + 1
  {
    if |labels| == 1 {
      assert EncodeLabels(labels[1..]) == [];
    } else {
      EncodedLength(labels[1..]);
    }
  }

  /** The IPv4 addresses an answer really carries: the record counter has 16 bits. */
  function Carried(addrs: seq<Addr>): (r: seq<Addr>)
    ensures |r| == |Matching(addrs, TYPE_A)| % 0x1_0000 && r <= Matching(addrs, TYPE_A)
    ensures forall a :: a in r ==> a.V4?
  {
    var matching := Matching(addrs, TYPE_A);
    var r := matching[..|matching| % 0x1_0000];
    assert forall a :: a in r ==> a in matching;
    r
  }

  /** A response to a query for `host` is its header, its question and 16 bytes an address. */
  lemma CoreLength(q: Question, rcode: int, addrs: seq<Addr>)
    requires ValidName(q.name) && q.qtype == TYPE_A
    ensures |Core(q, rcode, addrs)| == 18 + |TrimDot(q.name)| + 16 * |Carried(addrs)|
  {
    EncodedLength(Labels(q.name));
    JoinSplit(TrimDot(q.name));
    RecordsLength(Carried(addrs));
  }

  lemma JunkStep(fold: Fold, id: uint16, host: Bytes, d: Bytes, ds: seq<Bytes>)
    requires !Accepts(fold, id, host, d)
    ensures FirstAccepted(fold, id, host, [d] + ds) == FirstAccepted(fold, id, host, ds)
  {
    assert ([d] + ds)[0] == d && ([d] + ds)[1..] == ds;
  }

  lemma {:induction false} JunkIsSkipped(fold: Fold, id: uint16, host: Bytes, junk: seq<Bytes>, rest: seq<Bytes>)
    requires forall d :: d in junk ==> !Accepts(fold, id, host, d)
    ensures FirstAccepted(fold, id, host, junk + rest) == FirstAccepted(fold, id, host, rest)
  {
    if junk == [] {
      assert junk + rest == rest;
    } else {
      var d, more := junk[0], junk[1..];
      assert d in junk;
      JunkIsSkipped(fold, id, host, more, rest);
      JunkStep(fold, id, host, d, more + rest);
      ConsConcat(junk, rest);
    }
  }

  lemma {:induction false} V4AddrsOfV4(addrs: seq<Addr>)
    requires forall a :: a in addrs ==> a.V4?
    ensures V4Addrs(addrs) == addrs
  {
    if addrs != [] {
      assert addrs[0] in addrs;
      V4AddrsOfV4(addrs[1..]);
    }
  }

  lemma V4HasNoZone(addrs: seq<Addr>)
    requires forall a :: a in addrs ==> a.V4?
    ensures StripZones(addrs) == addrs
  {
    assert forall i :: 0 <= i < |addrs| ==> addrs[i] in addrs;
  }

  /** What the client makes of an honest answer to its own query. */
  lemma AnswerIsAccepted(fold: Fold, host: Bytes, q: Question, rcode: int, addrs: seq<Addr>)
    requires ValidName(q.name) && |Labels(q.name)| <= 63 && q.qtype == TYPE_A
    requires q.name == TrimDot(host) == TrimDot(q.name) && fold(q.name, q.name)
    ensures Accepts(fold, q.id, host, AnswerBytes(q, rcode, addrs))
      <==> 18 + |q.name| + 16 * |Carried(addrs)| <= BUFFER_SIZE
    ensures Accepts(fold, q.id, host, AnswerBytes(q, rcode, addrs)) ==>
      ParseSpec(Cut(AnswerBytes(q, rcode, addrs), BUFFER_SIZE)) == Ok(CoreResponse(q, rcode, addrs))
  {
    AnswerThrough(q, rcode, addrs, BUFFER_SIZE);
    CoreLength(q, rcode, addrs);
  }

  /** The query as an honest server reads it. */
  function QuestionOf(id: uint16, host: Bytes): Question {
    Question(id, TrimDot(host), TYPE_A, CLASS_IN)
  }

  /** What the response to `host` with these addresses is worth to the caller. */
  lemma CoreAnswered(q: Question, rcode: int, addrs: seq<Addr>)
    requires q.qtype == TYPE_A
    ensures Answered(CoreResponse(q, rcode, addrs).rcode, CoreResponse(q, rcode, addrs).addrs)
      == Meaning(rcode % 0x10, Carried(addrs))
  {
    V4HasNoZone(Carried(addrs));
    V4AddrsOfV4(Carried(addrs));
  }

  lemma ReplyBehindJunk(fold: Fold, id: uint16, host: Bytes, junk: seq<Bytes>, reply: Bytes, later: seq<Bytes>)
    requires forall d :: d in junk ==> !Accepts(fold, id, host, d)
    ensures FirstAccepted(fold, id, host, junk + ([reply] + later)) ==
      if Accepts(fold, id, host, reply) then Ok(ParseSpec(Cut(reply, BUFFER_SIZE)).value)
      else FirstAccepted(fold, id, host, later)
  {
    var ds := [reply] + later;
    JunkIsSkipped(fold, id, host, junk, ds);
    FirstAcceptedStep(fold, id, host, ds, 0);
    assert ds[0..] == ds && ds[1..] == later;
  }

  /** A lookup answered by an honest server, after any datagrams that are not accepted: the caller
      gets the IPv4 addresses in order, unless they are too many for the buffer, when the answer is lost. */
  lemma HonestLookup(fold: Fold, id: uint16, host: Bytes, rcode: int, addrs: seq<Addr>, junk: seq<Bytes>,
                     later: seq<Bytes>)
    requires ValidName(host) && |Labels(host)| <= 63
    requires fold(TrimDot(host), TrimDot(host)) && forall d :: d in junk ==> !Accepts(fold, id, host, d)
    ensures ParseQuestionSpec(QueryBytes(id, host, TYPE_A)) == Ok(QuestionOf(id, host)) && ValidName(TrimDot(host))
    ensures
      UdpLookupOf(fold, id, host, true, junk + ([AnswerBytes(QuestionOf(id, host), rcode, addrs)] + later)) ==
        if 18 + |TrimDot(host)| + 16 * |Carried(addrs)| <= 1500 then Meaning(rcode % 0x10, Carried(addrs))
        else UdpLookupOf(fold, id, host, true, later)
  {
    var q := QuestionOf(id, host);
    TrimTwice(host);
    QueryRoundTrip(id, host, TYPE_A);
    ReplyBehindJunk(fold, id, host, junk, AnswerBytes(q, rcode, addrs), later);
    AnswerIsAccepted(fold, host, q, rcode, addrs);
    CoreAnswered(q, rcode, addrs);
  }

  /** The same over HTTPS, where any answer about any name will do. */
  lemma HonestDohLookup(host: Bytes, q: Question, rcode: int, addrs: seq<Addr>)
    requires ValidName(host) && ValidName(q.name) && |Labels(q.name)| <= 63 && q.qtype == TYPE_A
    ensures DohLookupOf(host, Fetched(200, Some(AnswerBytes(q, rcode, addrs)))) ==
      if 18 + |TrimDot(q.name)| + 16 * |Carried(addrs)| <= 65535 then Meaning(rcode % 0x10, Carried(addrs))
      else Err(BadMessage)
  {
    AnswerThrough(q, rcode, addrs, BODY_LIMIT);
    CoreLength(q, rcode, addrs);
    CoreAnswered(q, rcode, addrs);
  }
}
