/** Segfault clustering per physical core (internal/faultcluster): a state
    machine that flags a core whose share of the faults is implausible. */
module FaultTracker {
  import opened Common
  import opened Binomial

  const MIN_SAMPLES := 5
  const MAX_P_VALUE := 0.01

  /** A logical CPU and a physical core, by number. */
  datatype Cpu = Cpu(number: int)
  datatype Core = Core(number: int)

  datatype Topology = Topology(logicalToCore: map<Cpu, Core>, online: map<Cpu, bool>)

  predicate IsOnline(topo: Topology, id: Cpu) {
    id in topo.online && topo.online[id]
  }

  /** The cores with at least one online logical CPU. */
  function ActiveSet(topo: Topology): set<Core> {
    set id | id in topo.logicalToCore && IsOnline(topo, id) :: topo.logicalToCore[id]
  }

  method ActiveCores(topo: Topology) returns (cores: set<Core>)
    ensures cores == ActiveSet(topo)
  {
    cores := {};
    var todo := topo.logicalToCore.Keys;
    while todo != {}
      invariant todo <= topo.logicalToCore.Keys
      invariant cores
             == set id | id in topo.logicalToCore && id !in todo && IsOnline(topo, id) :: topo.logicalToCore[id]
      decreases todo
    {
      var id :| id in todo;
      if IsOnline(topo, id) {
        cores := cores + {topo.logicalToCore[id]};
      }
      todo := todo - {id};
    }
  }

  datatype Faults = Faults(count: map<Core, nat>, total: nat, flagged: set<Core>)

  const FRESH := Faults(map[], 0, {})

  datatype Cluster = Cluster(core: Core, faults: nat, total: nat, pValue: real)

  function CountOf(s: Faults, core: Core): nat {
    if core in s.count then s.count[core] else 0
  }

  /** One more fault on `core`. */
  function Counted(s: Faults, core: Core): Faults {
    s.(count := s.count[core := CountOf(s, core) + 1], total := s.total + 1)
  }

  function PValue(topo: Topology, s: Faults, core: Core): real
    requires |ActiveSet(topo)| > 0
  {
    UpperTail(s.total, CountOf(s, core), 1.0 / |ActiveSet(topo)| as real)
  }

  /** The counts after the fault make `core` a significant cluster. */
  predicate Significant(topo: Topology, s: Faults, core: Core) {
    && CountOf(s, core) >= MIN_SAMPLES
    && |ActiveSet(topo)| > 0
    && PValue(topo, s, core) < MAX_P_VALUE
  }

  /** What observing one fault does, and the event it emits, if any. */
  function Step(topo: Topology, s: Faults, cpu: Cpu): (Faults, Option<Cluster>) {
    if cpu !in topo.logicalToCore then (s, None)
    else
      var core := topo.logicalToCore[cpu];
      var s' := Counted(s, core);
      if core !in s.flagged && Significant(topo, s', core) then
        (s'.(flagged := s'.flagged + {core}),
         Some(Cluster(core, CountOf(s', core), s'.total, PValue(topo, s', core))))
      else (s', None)
  }

  class Tracker {
    const topo: Topology
    var countByCore: map<Core, nat>
    var total: nat
    var flagged: set<Core>

    ghost function State(): Faults
      reads this
    {
      Faults(countByCore, total, flagged)
    }

    constructor (topo: Topology)
      ensures this.topo == topo && State() == FRESH
    {
      this.topo := topo;
      countByCore, total, flagged := map[], 0, {};
    }

    method Observe(cpu: Cpu) returns (event: Option<Cluster>)
      modifies this
      ensures State() == Step(topo, old(State()), cpu).0
      ensures event == Step(topo, old(State()), cpu).1
    {
      if cpu !in topo.logicalToCore {
        return None;
      }
      var core := topo.logicalToCore[cpu];
      countByCore := countByCore[core := (if core in countByCore then countByCore[core] else 0) + 1];
      total := total + 1;
      var k := countByCore[core];
      if core in flagged || k < MIN_SAMPLES {
        return None;
      }
      var active := ActiveCores(topo);
      if |active| <= 0 {
        return None;
      }
      var pValue := UpperTailPValue(total, k, 1.0 / |active| as real);
      if pValue >= MAX_P_VALUE {
        return None;
      }
      flagged := flagged + {core};
      event := Some(Cluster(core, k, total, pValue));
    }
  }

  // ----- Runs

  /** The state after a sequence of faults. */
  function After(topo: Topology, s: Faults, cpus: seq<Cpu>): Faults {
    if cpus == [] then s else Step(topo, After(topo, s, cpus[..|cpus| - 1]), cpus[|cpus| - 1]).0
  }

  /** The event emitted at fault `i` of a run. */
  function EventAt(topo: Topology, s: Faults, cpus: seq<Cpu>, i: nat): Option<Cluster>
    requires i < |cpus|
  {
    Step(topo, After(topo, s, cpus[..i]), cpus[i]).1
  }

  ghost function Sum(m: map<Core, nat>, keys: set<Core>): nat
    requires keys <= m.Keys
    decreases keys
  {
    if keys == {} then 0
    else
      var k :| k in keys;
      m[k] + Sum(m, keys - {k})
  }

  lemma {:induction false} SumPick(m: map<Core, nat>, keys: set<Core>, k: Core)
    requires keys <= m.Keys && k in keys
    ensures Sum(m, keys) == m[k] + Sum(m, keys - {k})
    decreases keys
  {
    var j :| j in keys && Sum(m, keys) == m[j] + Sum(m, keys - {j});
    if j != k {
      SumPick(m, keys - {j}, k);
      SumPick(m, keys - {k}, j);
      assert keys - {j} - {k} == keys - {k} - {j};
    }
  }

  lemma {:induction false} SumSame(m: map<Core, nat>, m': map<Core, nat>, keys: set<Core>)
    requires keys <= m.Keys && keys <= m'.Keys && forall k :: k in keys ==> m[k] == m'[k]
    ensures Sum(m, keys) == Sum(m', keys)
    decreases keys
  {
    if keys != {} {
      var k :| k in keys;
      SumPick(m, keys, k);
      SumPick(m', keys, k);
      SumSame(m, m', keys - {k});
    }
  }

  /** Counting one fault adds one to the sum of the counts. */
  lemma {:induction false} CountedSum(s: Faults, core: Core)
    ensures Sum(Counted(s, core).count, Counted(s, core).count.Keys) == Sum(s.count, s.count.Keys) + 1
  {
    var m := Counted(s, core).count;
    SumPick(m, m.Keys, core);
    if core in s.count {
      SumPick(s.count, s.count.Keys, core);
      assert m.Keys - {core} == s.count.Keys - {core};
      SumSame(m, s.count, m.Keys - {core});
    } else {
      assert m.Keys - {core} == s.count.Keys;
      SumSame(m, s.count, s.count.Keys);
    }
  }

  ghost predicate Balanced(s: Faults) {
    && s.total == Sum(s.count, s.count.Keys)
    && (forall c :: c in s.count ==> s.count[c] <= s.total)
  }

  lemma {:induction false} StepBalanced(topo: Topology, s: Faults, cpu: Cpu)
    requires Balanced(s)
    ensures Balanced(Step(topo, s, cpu).0)
  {
    if cpu in topo.logicalToCore {
      CountedSum(s, topo.logicalToCore[cpu]);
    }
  }

  /** In every run the total is the sum of the per-core counts. */
  lemma {:induction false} RunBalanced(topo: Topology, cpus: seq<Cpu>)
    ensures Balanced(After(topo, FRESH, cpus))
    decreases |cpus|
  {
    if cpus != [] {
      RunBalanced(topo, cpus[..|cpus| - 1]);
      StepBalanced(topo, After(topo, FRESH, cpus[..|cpus| - 1]), cpus[|cpus| - 1]);
    }
  }

  lemma {:induction false} AfterPrefix(topo: Topology, s: Faults, cpus: seq<Cpu>, i: nat)
    requires i < |cpus|
    ensures After(topo, s, cpus[..i + 1]) == Step(topo, After(topo, s, cpus[..i]), cpus[i]).0
  {
    assert cpus[..i + 1][..i] == cpus[..i];
  }

  /** Flags are never cleared. */
  lemma {:induction false} FlagsGrow(topo: Topology, s: Faults, cpus: seq<Cpu>, i: nat, j: nat)
    requires i <= j <= |cpus|
    ensures After(topo, s, cpus[..i]).flagged <= After(topo, s, cpus[..j]).flagged
    decreases j
  {
    if i < j {
      FlagsGrow(topo, s, cpus, i, j - 1);
      AfterPrefix(topo, s, cpus, j - 1);
    }
  }

  /** A core is reported at most once in a run. */
  lemma {:induction false} AtMostOneEvent(topo: Topology, s: Faults, cpus: seq<Cpu>, i: nat, j: nat)
    requires i < j < |cpus|
    requires EventAt(topo, s, cpus, i).Some? && EventAt(topo, s, cpus, j).Some?
    ensures EventAt(topo, s, cpus, i).value.core != EventAt(topo, s, cpus, j).value.core
  {
    AfterPrefix(topo, s, cpus, i);
    FlagsGrow(topo, s, cpus, i + 1, j);
  }

  /** An event means at least five faults on its core and an upper tail
      probability below 0.01 at the counts reached. */
  lemma {:induction false} EventIsSignificant(topo: Topology, cpus: seq<Cpu>, i: nat)
    requires i < |cpus| && EventAt(topo, FRESH, cpus, i).Some?
    ensures var e := EventAt(topo, FRESH, cpus, i).value;
            && 5 <= e.faults <= e.total
            && |ActiveSet(topo)| > 0
            && e.pValue == Tail(e.total, e.faults, 1.0 / |ActiveSet(topo)| as real) < 0.01
            && e.faults == CountOf(After(topo, FRESH, cpus[..i + 1]), e.core)
            && e.total == After(topo, FRESH, cpus[..i + 1]).total
  {
    AfterPrefix(topo, FRESH, cpus, i);
    RunBalanced(topo, cpus[..i + 1]);
    var e := EventAt(topo, FRESH, cpus, i).value;
    InverseIsProbability(|ActiveSet(topo)|);
    UpperTailIsTail(e.total, e.faults, 1.0 / |ActiveSet(topo)| as real);
  }

  lemma InverseIsProbability(m: nat)
    requires m > 0
    ensures 0.0 < 1.0 / m as real <= 1.0
    ensures m >= 3 ==> 1.0 / m as real <= 1.0 / 3.0
  {
  }

  /** With one active core (or none) nothing is ever reported. */
  lemma {:induction false} OneCoreNeverEmits(topo: Topology, cpus: seq<Cpu>, i: nat)
    requires i < |cpus| && |ActiveSet(topo)| <= 1
    ensures EventAt(topo, FRESH, cpus, i) == None
  {
    if EventAt(topo, FRESH, cpus, i).Some? {
      EventIsSignificant(topo, cpus, i);
      var e := EventAt(topo, FRESH, cpus, i).value;
      TailCertain(e.total, e.faults);
    }
  }

  // ----- A single failing core

  /** Every fault is on `core`. */
  ghost predicate AllOn(topo: Topology, cpus: seq<Cpu>, core: Core) {
    forall i :: 0 <= i < |cpus| ==> cpus[i] in topo.logicalToCore && topo.logicalToCore[cpus[i]] == core
  }

  /** The fault a lone failing core is reported at, by number of active
      cores; 0 means never. */
  function ReportedAt(active: nat): nat {
    if active <= 1 then 0 else if active == 2 then 7 else 5
  }

  lemma {:induction false} LoneCounts(topo: Topology, cpus: seq<Cpu>, core: Core)
    requires AllOn(topo, cpus, core)
    ensures var s := After(topo, FRESH, cpus);
            s.total == |cpus| && CountOf(s, core) == |cpus| && s.flagged <= {core}
    decreases |cpus|
  {
    if cpus != [] {
      LoneCounts(topo, cpus[..|cpus| - 1], core);
    }
  }

  lemma {:induction false} PowMonotone(x: real, y: real, n: nat)
    requires 0.0 <= x <= y
    ensures 0.0 <= Pow(x, n) <= Pow(y, n)
  {
    if n > 0 {
      PowMonotone(x, y, n - 1);
      MulMonotone(x, y, Pow(x, n - 1), Pow(y, n - 1));
    }
  }

  lemma MulMonotone(a: real, b: real, c: real, d: real)
    requires 0.0 <= a <= b && 0.0 <= c <= d
    ensures 0.0 <= a * c <= b * d
  {
    assert a * c <= b * c <= b * d;
  }

  /** With n faults out of n the tail is (1/m)^n: small enough from the fifth
      fault on with three or more cores, from the seventh on with two. */
  lemma {:induction false} LoneTail(m: nat, n: nat)
    requires m >= 1 && 5 <= n <= 7
    ensures UpperTail(n, n, 1.0 / m as real) < 0.01 <==> ReportedAt(m) != 0 && n >= ReportedAt(m)
  {
    var p := 1.0 / m as real;
    InverseIsProbability(m);
    UpperTailIsTail(n, n, p);
    TailOfAll(n, p);
    if m == 1 {
      PowOne(n);
    } else if m == 2 {
      assert p == 0.5;
      SmallPowers(0.5);
    } else {
      PowMonotone(p, 1.0 / 3.0, n);
      SmallPowers(1.0 / 3.0);
    }
  }

  lemma SmallPowers(x: real)
    ensures Pow(x, 5) == x * x * x * x * x
    ensures Pow(x, 6) == x * x * x * x * x * x
    ensures Pow(x, 7) == x * x * x * x * x * x * x
  {
    assert Pow(x, 1) == x && Pow(x, 2) == x * x && Pow(x, 3) == x * (x * x);
    assert Pow(x, 4) == x * Pow(x, 3);
    assert Pow(x, 5) == x * Pow(x, 4);
    assert Pow(x, 6) == x * Pow(x, 5);
    assert Pow(x, 7) == x * Pow(x, 6);
  }

  /** The core is flagged as soon as its report is due. */
  lemma {:induction false} LoneFlag(topo: Topology, cpus: seq<Cpu>, core: Core)
    requires AllOn(topo, cpus, core)
    ensures var at := ReportedAt(|ActiveSet(topo)|);
            core in After(topo, FRESH, cpus).flagged <==> at != 0 && |cpus| >= at
    decreases |cpus|
  {
    if cpus != [] {
      var front := cpus[..|cpus| - 1];
      LoneFlag(topo, front, core);
      LoneStep(topo, front, cpus[|cpus| - 1], core);
    }
  }

  lemma {:induction false} LoneStep(topo: Topology, cpus: seq<Cpu>, cpu: Cpu, core: Core)
    requires AllOn(topo, cpus, core) && cpu in topo.logicalToCore && topo.logicalToCore[cpu] == core
    requires var at := ReportedAt(|ActiveSet(topo)|);
             core in After(topo, FRESH, cpus).flagged <==> at != 0 && |cpus| >= at
    ensures var at := ReportedAt(|ActiveSet(topo)|);
            var (s, e) := Step(topo, After(topo, FRESH, cpus), cpu);
            && (core in s.flagged <==> at != 0 && |cpus| + 1 >= at)
            && (e.Some? <==> at == |cpus| + 1)
  {
    var m, n := |ActiveSet(topo)|, |cpus| + 1;
    var s := After(topo, FRESH, cpus);
    LoneCounts(topo, cpus, core);
    if m >= 1 && 5 <= n <= 7 {
      LoneTail(m, n);
    } else if m == 1 && n > 7 {
      UpperTailIsTail(n, n, 1.0);
      TailCertain(n, n);
    }
  }

  /** A fresh tracker fed one core's faults reports it exactly once, at the
      fifth fault with three or more active cores and at the seventh with
      two; with fewer, never. */
  lemma {:induction false} LoneCoreReported(topo: Topology, cpus: seq<Cpu>, core: Core, i: nat)
    requires AllOn(topo, cpus, core) && i < |cpus|
    ensures EventAt(topo, FRESH, cpus, i).Some? <==> i + 1 == ReportedAt(|ActiveSet(topo)|)
  {
    LoneFlag(topo, cpus[..i], core);
    LoneStep(topo, cpus[..i], cpus[i], core);
  }
}
