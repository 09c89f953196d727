// TCP connection attempts and their summary (internal/tcpcheck).
module TcpCheck {
  import opened Base
  import NetErrors

  datatype Outcome = OK | Timeout | Refused | Reset | Unreachable | Error

  datatype Result = Result(addr: AddrPort, outcome: Outcome) {
    predicate Rejected() {
      outcome.Refused? || outcome.Reset?
    }
  }

  function FromError(err: Option<NetErrors.ErrKind>): Outcome {
    match err
    case None => OK
    case Some(Timeout) => Timeout
    case Some(Refused) => Refused
    case Some(Reset) => Reset
    case Some(Eof) => Reset
    case Some(Unreachable) => Unreachable
    case Some(_) => Error
  }

  /** What dialing each address gives. */
  type Dialer = AddrPort -> Option<NetErrors.ErrKind>

  function ProbeOf(dial: Dialer, addr: AddrPort): Result {
    Result(addr, FromError(dial(addr)))
  }

  function ProbesOf(dial: Dialer, addrs: seq<AddrPort>): (r: seq<Result>)
    ensures |r| == |addrs| && forall i :: 0 <= i < |r| ==> r[i] == ProbeOf(dial, addrs[i])
  {
    seq(|addrs|, i requires 0 <= i < |addrs| => ProbeOf(dial, addrs[i]))
  }

  /** Probes every address; the attempts finish in any order, the results keep the input order. */
  method ProbeAll(dial: Dialer, addrs: seq<AddrPort>) returns (results: seq<Result>)
    ensures results == ProbesOf(dial, addrs)
  {
    if |addrs| == 0 {
      return [];
    }
    var out := new Result[|addrs|](_ => Result(addrs[0], Error));
    var pending := set i {:trigger addrs[i]} | 0 <= i < |addrs|;
    while pending != {}
      invariant forall i :: i in pending ==> 0 <= i < |addrs|
      invariant forall i :: 0 <= i < |addrs| && i !in pending ==> out[i] == ProbeOf(dial, addrs[i])
      decreases pending
    {
      var i :| i in pending;
      out[i] := ProbeOf(dial, addrs[i]);
      pending := pending - {i};
    }
    return out[..];
  }

  datatype Summary = Summary(working: Option<Result>, allTimeout: bool, anyRejected: bool, allUnreachable: bool)

  function FirstWorking(results: seq<Result>): (r: Option<Result>)
    ensures r.Some? ==> r.value in results && r.value.outcome.OK?
    ensures r.None? <==> forall x :: x in results ==> !x.outcome.OK?
  {
    if results == [] then None
    else
      assert results == [results[0]] + results[1..];
      if results[0].outcome.OK? then Some(results[0]) else FirstWorking(results[1..])
  }

  /** The first success, and what every or any attempt shows; nothing for no attempts. */
  function SummaryOf(results: seq<Result>): Summary {
    Summary(
      FirstWorking(results),
      results != [] && forall x :: x in results ==> x.outcome.Timeout?,
      exists x :: x in results && x.Rejected(),
      results != [] && forall x :: x in results ==> x.outcome.Unreachable?)
  }

  lemma {:induction false} FirstWorkingSnoc(results: seq<Result>, x: Result)
    ensures FirstWorking(results + [x]) ==
      if FirstWorking(results).Some? then FirstWorking(results)
      else if x.outcome.OK? then Some(x) else None
  {
    if results == [] {
      assert results + [x] == [x];
    } else {
      assert (results + [x])[1..] == results[1..] + [x];
      FirstWorkingSnoc(results[1..], x);
    }
  }

  method Summarize(results: seq<Result>) returns (s: Summary)
    ensures s == SummaryOf(results)
  {
    s := Summary(None, false, false, false);
    if |results| == 0 {
      return;
    }
    s := s.(allTimeout := true, allUnreachable := true);
    for i := 0 to |results|
      invariant s.working == FirstWorking(results[..i])
      invariant s.allTimeout == forall x :: x in results[..i] ==> x.outcome.Timeout?
      invariant s.allUnreachable == forall x :: x in results[..i] ==> x.outcome.Unreachable?
      invariant s.anyRejected == exists x :: x in results[..i] && x.Rejected()
    {
      var r := results[i];
      FirstWorkingSnoc(results[..i], r);
      assert results[..i + 1] == results[..i] + [r];
      assert r in results[..i + 1];
      if r.outcome.OK? && s.working.None? {
        s := s.(working := Some(r));
      }
      if !r.outcome.Timeout? {
        s := s.(allTimeout := false);
      }
      if !r.outcome.Unreachable? {
        s := s.(allUnreachable := false);
      }
      if r.Rejected() {
        s := s.(anyRejected := true);
      }
    }
    assert results[..|results|] == results;
  }
}
