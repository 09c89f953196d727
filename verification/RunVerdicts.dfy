// A whole run read off the network: what a finished report says about each target and
// about the machine, whatever order the run's steps were taken in.
module RunVerdicts {
  import opened Base
  import opened Model
  import opened OnTheWire
  import opened RunTheorems
  import P = Pipeline
  import Scheduler
  import SchedulerTheorems
  import OnTheWireProofs
  import OnTheWireReasons
  import AnalysisExact
  import LocalNet
  import NetErrors

  /** Everything target i's diagnosis depends on. */
  ghost function CaseOf(r: Setup, i: nat): Case
    requires r.Valid() && i < |r.targets|
  {
    Case(r.cfg, r.targets[i], r.nets[i], r.control, r.baseline, r.local, r.probing && r.hijacked)
  }

  lemma TargetVerdict(r: Setup, i: nat, v: Verdict)
    requires r.Valid() && i < |r.targets|
    ensures TargetResult(r, i).target == r.targets[i]
    ensures TargetResult(r, i).decision.verdict == v <==> CaseOf(r, i).Deserves(v)
  {
    OnTheWireProofs.VerdictOnTheWire(CaseOf(r, i), if r.probing then Some(r.hijacked) else None, v);
  }

  /** A slot of the report holds target i with the one verdict its case deserves, the confidence and
      the reason that go with it, and the DNS problem listed beside a path at fault. */
  ghost predicate Reported(r: Setup, i: nat, slot: Option<P.TargetReport>)
    requires r.Valid() && i < |r.targets|
  {
    && slot.Some? && slot.value.target == r.targets[i]
    && (forall v :: slot.value.decision.verdict == v <==> CaseOf(r, i).Deserves(v))
    && CaseOf(r, i).Explained(slot.value.decision)
    && slot.value.decision.also == CaseOf(r, i).Beside()
  }

  lemma TargetReported(r: Setup, i: nat)
    requires r.Valid() && i < |r.targets|
    ensures Reported(r, i, Some(TargetResult(r, i)))
  {
    var d := TargetResult(r, i).decision;
    TargetVerdict(r, i, d.verdict);
    OnTheWireReasons.DecisionOnTheWire(CaseOf(r, i), if r.probing then Some(r.hijacked) else None);
    forall v ensures d.verdict == v <==> CaseOf(r, i).Deserves(v) {
      TargetVerdict(r, i, v);
    }
  }

  /** Every finished run reports every target, in the order given, with the decision its case deserves. */
  lemma RunVerdict(r: Setup, steps: seq<Scheduler.Step>, s: Scheduler.State)
    requires r.Valid() && SchedulerTheorems.Reaches(EnvOf(r), steps, s) && s.report.Some?
    ensures |s.report.value.targets| == |r.targets|
    ensures forall i :: 0 <= i < |r.targets| ==> Reported(r, i, s.report.value.targets[i])
  {
    RunReport(r, steps, s);
    var slots := s.report.value.targets;
    forall i | 0 <= i < |r.targets| ensures Reported(r, i, slots[i]) {
      TargetReported(r, i);
    }
  }

  /** The reference addresses of target i that are dialed, the first `maxAddrs` of them, all fail. */
  ghost predicate NothingConnects(r: Setup, i: nat)
    requires r.Valid() && i < |r.targets|
  {
    var reference := CaseOf(r, i).Dns().reference;
    forall k :: 0 <= k < |reference| && k < r.cfg.maxAddrs ==>
      r.nets[i].dial(AddrPort(reference[k], r.cfg.port % 65536)) != None
  }

  lemma NothingConnectsIff(r: Setup, i: nat)
    requires r.Valid() && i < |r.targets|
    ensures NothingConnects(r, i) <==> !CaseOf(r, i).Connected()
  {
    var c := CaseOf(r, i);
    var reference := c.Dns().reference;
    if c.Connected() {
      var p :| c.IsDialed(p) && c.net.dial(p) == None;
      var k: nat :| k < c.Width() && p == c.Nth(k);
      assert c.net.dial(AddrPort(reference[k], r.cfg.port % 65536)) == None;
    } else {
      forall k: nat | k < |reference| && k < r.cfg.maxAddrs
        ensures r.nets[i].dial(AddrPort(reference[k], r.cfg.port % 65536)) != None
      {
        assert c.IsDialed(c.Nth(k));
      }
    }
  }

  /** The local network is blamed for a target exactly when the run-wide check found the machine
      without an interface, a default route or a reachable baseline, and nothing connected. */
  lemma LocalBlameIff(r: Setup, steps: seq<Scheduler.Step>, s: Scheduler.State, i: nat)
    requires r.Valid() && SchedulerTheorems.Reaches(EnvOf(r), steps, s) && s.report.Some?
    requires i < |r.targets|
    ensures |s.report.value.targets| == |r.targets| && s.report.value.targets[i].Some?
    ensures s.report.value.targets[i].value.decision.verdict.LocalNetworkDown? <==>
      CaseOf(r, i).LocalUnusable() && NothingConnects(r, i)
    ensures CaseOf(r, i).LocalUnusable() <==> r.local.Some? && r.local.value.Down().Some?
  {
    RunReport(r, steps, s);
    TargetVerdict(r, i, LocalNetworkDown);
    NothingConnectsIff(r, i);
    OnTheWireProofs.UnusableIff(CaseOf(r, i));
  }

  // ------------------------------------------------- the run-wide findings

  lemma {:induction false} ProbeNamesAre(probes: seq<LocalNet.Probe>, a: string)
    ensures a in ProbeNames(probes, true) <==> exists p :: p in probes && p.ok && p.addr == a
    ensures a in ProbeNames(probes, false) <==> exists p :: p in probes && !p.ok && p.addr == a
    ensures |ProbeNames(probes, true)| + |ProbeNames(probes, false)| == |probes|
  {
    if probes != [] {
      ProbeNamesAre(probes[1..], a);
      assert forall p :: p in probes <==> p == probes[0] || p in probes[1..];
    }
  }

  /** What a finished run says about the machine it ran on. */
  lemma RunLocal(r: Setup, steps: seq<Scheduler.Step>, s: Scheduler.State)
    requires r.Valid() && SchedulerTheorems.Reaches(EnvOf(r), steps, s) && s.report.Some?
    ensures var l := s.report.value.local;
      && (l.up <==> l.downReason == None)
      && (l.dnsIntercept <==> r.probing && r.hijacked)
      && (l.proxyFlag <==> r.cfg.proxyInUse)
      && (r.local == None ==> l.up && l.defaultRoute && l.reachable == [] && l.unreachable == [])
      && (r.local.Some? ==>
            && l.downReason == r.local.value.Down() && l.defaultRoute == r.local.value.defaultRoute
            && |l.reachable| + |l.unreachable| == |r.local.value.baseline|
            && (forall a :: a in l.reachable <==> exists p :: p in r.local.value.baseline && p.ok && p.addr == a)
            && (forall a :: a in l.unreachable <==> exists p :: p in r.local.value.baseline && !p.ok && p.addr == a))
  {
    SchedulerTheorems.ScheduleIndependence(EnvOf(r), steps, s, r.control, r.baseline);
    LocalReportOf(r);
    if r.local.Some? {
      forall a {
        ProbeNamesAre(r.local.value.baseline, a);
      }
      ProbeNamesAre(r.local.value.baseline, "");
    }
  }

  /** The DoH note: there are targets, and for each of them every DoH resolver failed on the network. */
  lemma DohNoteIff(r: Setup, steps: seq<Scheduler.Step>, s: Scheduler.State)
    requires r.Valid() && SchedulerTheorems.Reaches(EnvOf(r), steps, s) && s.report.Some?
    ensures s.report.value.local.dohUnreachable <==>
      r.targets != [] && forall i :: 0 <= i < |r.nets| ==>
        r.nets[i].lookups.doh != []
        && forall ans :: ans in r.nets[i].lookups.doh ==> ans.err.Some? && ans.err.value.Net?
  {
    RunReport(r, steps, s);
    forall i | 0 <= i < |r.nets|
      ensures DohDown(r, i) <==>
        r.nets[i].lookups.doh != []
        && forall ans :: ans in r.nets[i].lookups.doh ==> ans.err.Some? && ans.err.value.Net?
    {
      AnalysisExact.DohUnavailableIff(r.cfg.tables, r.nets[i].lookups);
    }
  }
}
