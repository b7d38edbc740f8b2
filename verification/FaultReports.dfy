/** Exactly which faults of a run are reported, by counting faults. */
module FaultReports {
  import opened Common
  import opened Binomial
  import opened FaultTracker

  ghost predicate On(topo: Topology, cpu: Cpu, core: Core) {
    cpu in topo.logicalToCore && topo.logicalToCore[cpu] == core
  }

  /** How many of the faults are on the core. */
  ghost function FaultsOn(topo: Topology, cpus: seq<Cpu>, core: Core): nat {
    if cpus == [] then 0
    else FaultsOn(topo, cpus[..|cpus| - 1], core) + if On(topo, cpus[|cpus| - 1], core) then 1 else 0
  }

  /** How many are on any core. */
  ghost function FaultsKnown(topo: Topology, cpus: seq<Cpu>): nat {
    if cpus == [] then 0
    else FaultsKnown(topo, cpus[..|cpus| - 1]) + if cpus[|cpus| - 1] in topo.logicalToCore then 1 else 0
  }

  /** At fault `i`, which is on the core, the core has at least five faults
      and a share that is implausible at the 1% level. */
  ghost predicate DueAt(topo: Topology, cpus: seq<Cpu>, i: int, core: Core) {
    && 0 <= i < |cpus| && On(topo, cpus[i], core)
    && FaultsOn(topo, cpus[..i + 1], core) >= 5
    && var active := |ActiveSet(topo)|;
       active > 0
       && Tail(FaultsKnown(topo, cpus[..i + 1]), FaultsOn(topo, cpus[..i + 1], core), 1.0 / active as real) < 0.01
  }

  ghost predicate DueBefore(topo: Topology, cpus: seq<Cpu>, i: int, core: Core) {
    exists j :: 0 <= j < i && DueAt(topo, cpus, j, core)
  }

  lemma {:induction false} CountsSnoc(topo: Topology, cpus: seq<Cpu>, i: nat, core: Core)
    requires i < |cpus|
    ensures FaultsOn(topo, cpus[..i + 1], core)
         == FaultsOn(topo, cpus[..i], core) + if On(topo, cpus[i], core) then 1 else 0
    ensures FaultsKnown(topo, cpus[..i + 1])
         == FaultsKnown(topo, cpus[..i]) + if cpus[i] in topo.logicalToCore then 1 else 0
  {
    assert cpus[..i + 1][..i] == cpus[..i];
  }

  /** The tracker's state says what counting the faults says. */
  ghost predicate Agrees(topo: Topology, cpus: seq<Cpu>, i: nat, s: Faults)
    requires i <= |cpus|
  {
    && s.total == FaultsKnown(topo, cpus[..i])
    && (forall c :: CountOf(s, c) == FaultsOn(topo, cpus[..i], c))
    && (forall c :: c in s.flagged <==> DueBefore(topo, cpus, i, c))
  }

  lemma {:induction false} DueBeforeSnoc(topo: Topology, cpus: seq<Cpu>, i: nat, core: Core)
    requires i < |cpus|
    ensures DueBefore(topo, cpus, i + 1, core) <==> DueBefore(topo, cpus, i, core) || DueAt(topo, cpus, i, core)
  {
  }

  /** What a fault that is due on its core amounts to in the tracker. */
  lemma {:induction false} DueIsSignificant(topo: Topology, cpus: seq<Cpu>, i: nat, s: Faults, core: Core)
    requires i < |cpus| && On(topo, cpus[i], core)
    requires s.total == FaultsKnown(topo, cpus[..i + 1]) && CountOf(s, core) == FaultsOn(topo, cpus[..i + 1], core)
    ensures Significant(topo, s, core) <==> DueAt(topo, cpus, i, core)
    ensures |ActiveSet(topo)| > 0 ==>
              PValue(topo, s, core) == Tail(s.total, CountOf(s, core), 1.0 / |ActiveSet(topo)| as real)
  {
    if |ActiveSet(topo)| > 0 {
      InverseIsProbability(|ActiveSet(topo)|);
      UpperTailIsTail(s.total, CountOf(s, core), 1.0 / |ActiveSet(topo)| as real);
    }
  }

  /** The report made at fault `i`, if it is the first due on its core. */
  ghost predicate ReportIs(topo: Topology, cpus: seq<Cpu>, i: nat, event: Option<Cluster>)
    requires i < |cpus|
  {
    && (event.Some? <==> exists core :: DueAt(topo, cpus, i, core) && !DueBefore(topo, cpus, i, core))
    && (event.Some? ==>
          var e := event.value;
          && On(topo, cpus[i], e.core)
          && e.faults == FaultsOn(topo, cpus[..i + 1], e.core) && e.total == FaultsKnown(topo, cpus[..i + 1])
          && |ActiveSet(topo)| > 0 && e.pValue == Tail(e.total, e.faults, 1.0 / |ActiveSet(topo)| as real))
  }

  lemma {:induction false} CountedAgrees(topo: Topology, cpus: seq<Cpu>, i: nat, s: Faults, core: Core)
    requires i < |cpus| && Agrees(topo, cpus, i, s) && On(topo, cpus[i], core)
    ensures var s' := Counted(s, core);
            && s'.total == FaultsKnown(topo, cpus[..i + 1])
            && forall c :: CountOf(s', c) == FaultsOn(topo, cpus[..i + 1], c)
  {
    forall c ensures CountOf(Counted(s, core), c) == FaultsOn(topo, cpus[..i + 1], c) {
      CountsSnoc(topo, cpus, i, c);
    }
    CountsSnoc(topo, cpus, i, core);
  }

  lemma {:induction false} KnownAgrees(topo: Topology, cpus: seq<Cpu>, i: nat, s: Faults, core: Core)
    requires i < |cpus| && Agrees(topo, cpus, i, s) && On(topo, cpus[i], core)
    ensures Agrees(topo, cpus, i + 1, Step(topo, s, cpus[i]).0)
    ensures ReportIs(topo, cpus, i, Step(topo, s, cpus[i]).1)
  {
    var (s', event) := Step(topo, s, cpus[i]);
    CountedAgrees(topo, cpus, i, s, core);
    DueIsSignificant(topo, cpus, i, Counted(s, core), core);
    assert forall c :: DueAt(topo, cpus, i, c) ==> c == core;
    forall c ensures CountOf(s', c) == FaultsOn(topo, cpus[..i + 1], c) {
      assert CountOf(s', c) == CountOf(Counted(s, core), c);
    }
    forall c ensures c in s'.flagged <==> DueBefore(topo, cpus, i + 1, c) {
      DueBeforeSnoc(topo, cpus, i, c);
    }
  }

  lemma {:induction false} UnknownAgrees(topo: Topology, cpus: seq<Cpu>, i: nat, s: Faults)
    requires i < |cpus| && Agrees(topo, cpus, i, s) && cpus[i] !in topo.logicalToCore
    ensures Agrees(topo, cpus, i + 1, s) && ReportIs(topo, cpus, i, None)
  {
    CountsSnoc(topo, cpus, i, Core(0));
    forall c ensures CountOf(s, c) == FaultsOn(topo, cpus[..i + 1], c) {
      CountsSnoc(topo, cpus, i, c);
    }
    forall c ensures c in s.flagged <==> DueBefore(topo, cpus, i + 1, c) {
      DueBeforeSnoc(topo, cpus, i, c);
    }
  }

  /** One fault: what is reported and where the state stands then. */
  lemma {:induction false} StepAgrees(topo: Topology, cpus: seq<Cpu>, i: nat, s: Faults)
    requires i < |cpus| && Agrees(topo, cpus, i, s)
    ensures Agrees(topo, cpus, i + 1, Step(topo, s, cpus[i]).0)
    ensures ReportIs(topo, cpus, i, Step(topo, s, cpus[i]).1)
  {
    if cpus[i] in topo.logicalToCore {
      KnownAgrees(topo, cpus, i, s, topo.logicalToCore[cpus[i]]);
    } else {
      UnknownAgrees(topo, cpus, i, s);
    }
  }

  /** A real tracker through any faults: a fault is reported exactly if it is
      the first at which its core has at least five faults and an implausible
      share, whatever faults other cores have. */
  method Watch(topo: Topology, cpus: seq<Cpu>) returns (events: seq<Option<Cluster>>)
    ensures |events| == |cpus| && forall i :: 0 <= i < |cpus| ==> ReportIs(topo, cpus, i, events[i])
  {
    var t := new Tracker(topo);
    events := [];
    for i := 0 to |cpus|
      invariant t.topo == topo && |events| == i && Agrees(topo, cpus, i, t.State())
      invariant forall j :: 0 <= j < i ==> ReportIs(topo, cpus, j, events[j])
    {
      StepAgrees(topo, cpus, i, t.State());
      var event := t.Observe(cpus[i]);
      events := events + [event];
    }
  }

  /** The same for the tracker's runs as values. */
  lemma {:induction false} ReportedExactly(topo: Topology, cpus: seq<Cpu>, i: nat)
    requires i < |cpus|
    ensures Agrees(topo, cpus, i, After(topo, FRESH, cpus[..i]))
    ensures ReportIs(topo, cpus, i, EventAt(topo, FRESH, cpus, i))
  {
    if i > 0 {
      ReportedExactly(topo, cpus, i - 1);
      AfterPrefix(topo, FRESH, cpus, i - 1);
      StepAgrees(topo, cpus, i - 1, After(topo, FRESH, cpus[..i - 1]));
    }
    StepAgrees(topo, cpus, i, After(topo, FRESH, cpus[..i]));
  }
}
