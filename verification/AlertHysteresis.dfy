/** Hysteresis in closed loop with the alert it drives
    (internal/alerting/hysteresis.go). */
module AlertHysteresis {
  import opened Alert

  datatype Threshold = Threshold(fireAbove: real, resolveBelow: real)

  predicate ConditionTrue(h: Threshold, value: real, wasActive: bool) {
    if wasActive then !(value < h.resolveBelow) else value > h.fireAbove
  }

  predicate Active(r: Record) {
    r.state == Pending || r.state == Firing
  }

  datatype Reading = Reading(now: int, value: real, hold: int)

  function Step(h: Threshold, r: Record, x: Reading): (Record, bool) {
    Next(r, Eval(x.now, ConditionTrue(h, x.value, Active(r)), x.value, x.hold))
  }

  /** The records an alert goes through: each condition depends on the state
      the alert was in before. */
  ghost predicate Loop(h: Threshold, readings: seq<Reading>, records: seq<Record>) {
    && |records| == |readings| + 1 && records[0] == FRESH
    && forall i :: 0 <= i < |readings| ==> records[i + 1] == Step(h, records[i], readings[i]).0
  }

  /** The evaluations of such a run. */
  function Evals(h: Threshold, readings: seq<Reading>, records: seq<Record>): (evals: seq<Eval>)
    requires |readings| <= |records|
    ensures |evals| == |readings|
  {
    seq(|readings|, i requires 0 <= i < |readings| =>
      var x := readings[i];
      Eval(x.now, ConditionTrue(h, x.value, Active(records[i])), x.value, x.hold))
  }

  /** The closed loop is a run of the alert. */
  lemma {:induction false} LoopIsRun(h: Threshold, readings: seq<Reading>, records: seq<Record>, n: nat)
    requires Loop(h, readings, records) && n <= |readings|
    ensures records[n] == After(Evals(h, readings, records)[..n])
  {
    if n > 0 {
      LoopIsRun(h, readings, records, n - 1);
      var evals := Evals(h, readings, records);
      assert evals[..n][..n - 1] == evals[..n - 1];
    }
  }

  /** Reading `i` notified. */
  predicate Notifies(h: Threshold, readings: seq<Reading>, records: seq<Record>, i: nat)
    requires i < |readings| <= |records|
  {
    Step(h, records[i], readings[i]).1
  }

  predicate FiresAt(h: Threshold, readings: seq<Reading>, records: seq<Record>, i: nat)
    requires i < |readings| < |records|
  {
    Notifies(h, readings, records, i) && records[i + 1].state == Firing
  }

  /** What one reading can do. */
  lemma {:induction false} StepFacts(h: Threshold, r: Record, x: Reading)
    ensures var (r', notify) := Step(h, r, x);
            && (Active(r) && !Active(r') ==> x.value < h.resolveBelow)
            && (!Active(r) && Active(r') ==> x.value > h.fireAbove)
            && (r.state == Firing && r'.state != Firing ==> !Active(r'))
            && (notify && r'.state == Firing ==> r.state != Firing)
  {
  }

  /** Between the thresholds only a pending alert can change, by firing. */
  lemma {:induction false} StepBetween(h: Threshold, r: Record, x: Reading)
    requires h.resolveBelow <= x.value <= h.fireAbove
    ensures var (r', notify) := Step(h, r, x);
            && (r.state != Pending ==> r'.state == r.state && !notify)
            && (r.state == Pending && notify ==> r'.state == Firing)
  {
  }

  /** From an active alert to a later inactive one, some value was below the
      resolving threshold. */
  lemma {:induction false} FellBelow(h: Threshold, readings: seq<Reading>, records: seq<Record>, i: nat, j: nat)
      returns (a: nat)
    requires Loop(h, readings, records) && i < j <= |readings| && Active(records[i]) && !Active(records[j])
    ensures i <= a < j && readings[a].value < h.resolveBelow && !Active(records[a + 1])
    decreases j
  {
    if Active(records[j - 1]) {
      StepFacts(h, records[j - 1], readings[j - 1]);
      a := j - 1;
    } else {
      a := FellBelow(h, readings, records, i, j - 1);
    }
  }

  /** From an inactive alert to a later active one, some value was above the
      firing threshold. */
  lemma {:induction false} RoseAbove(h: Threshold, readings: seq<Reading>, records: seq<Record>, i: nat, j: nat)
      returns (b: nat)
    requires Loop(h, readings, records) && i < j <= |readings| && !Active(records[i]) && Active(records[j])
    ensures i <= b < j && readings[b].value > h.fireAbove
    decreases j
  {
    if !Active(records[j - 1]) {
      StepFacts(h, records[j - 1], readings[j - 1]);
      b := j - 1;
    } else {
      b := RoseAbove(h, readings, records, i, j - 1);
    }
  }

  /** A firing alert that is not firing later has left the active states. */
  lemma {:induction false} LeftFiring(h: Threshold, readings: seq<Reading>, records: seq<Record>, i: nat, j: nat)
      returns (k: nat)
    requires Loop(h, readings, records) && i < j <= |readings| && records[i].state == Firing
             && records[j].state != Firing
    ensures i < k <= j && !Active(records[k])
    decreases j
  {
    if records[j - 1].state == Firing {
      StepFacts(h, records[j - 1], readings[j - 1]);
      k := j;
    } else {
      k := LeftFiring(h, readings, records, i, j - 1);
    }
  }

  /** Between two firing notifications some value is below the resolving
      threshold and a later one above the firing threshold. */
  lemma {:induction false} NoFlapping(h: Threshold, readings: seq<Reading>, records: seq<Record>, i: nat, j: nat)
      returns (a: nat, b: nat)
    requires Loop(h, readings, records) && i < j < |readings|
    requires FiresAt(h, readings, records, i) && FiresAt(h, readings, records, j)
    ensures i < a < b <= j && readings[a].value < h.resolveBelow && readings[b].value > h.fireAbove
  {
    StepFacts(h, records[j], readings[j]);
    var k := LeftFiring(h, readings, records, i + 1, j);
    a := FellBelow(h, readings, records, i + 1, k);
    b := RoseAbove(h, readings, records, a + 1, j + 1);
  }

  ghost predicate Between(h: Threshold, readings: seq<Reading>, i: nat, j: nat)
    requires i <= j <= |readings|
  {
    forall k :: i <= k < j ==> h.resolveBelow <= readings[k].value <= h.fireAbove
  }

  /** Values between the thresholds leave an alert that is not pending alone. */
  lemma {:induction false} QuietUnlessPending(h: Threshold, readings: seq<Reading>, records: seq<Record>, i: nat,
                                              j: nat)
    requires Loop(h, readings, records) && i <= j <= |readings|
    requires Between(h, readings, i, j) && records[i].state != Pending
    ensures records[j].state == records[i].state
    ensures forall k :: i <= k < j ==> !Notifies(h, readings, records, k)
    decreases j
  {
    if i < j {
      QuietUnlessPending(h, readings, records, i, j - 1);
      StepBetween(h, records[j - 1], readings[j - 1]);
    }
  }

  /** A stretch of such values notifies at most once, and then by firing. */
  lemma {:induction false} AtMostOnce(h: Threshold, readings: seq<Reading>, records: seq<Record>, i: nat, j: nat,
                                      a: nat, b: nat)
    requires Loop(h, readings, records) && i <= a <= b < j <= |readings| && Between(h, readings, i, j)
    requires Notifies(h, readings, records, a) && Notifies(h, readings, records, b)
    ensures a == b && FiresAt(h, readings, records, a)
  {
    StepBetween(h, records[a], readings[a]);
    QuietUnlessPending(h, readings, records, a + 1, j);
  }

  // ----- Exactly when an alert is active

  lemma {:induction false} ActiveStep(h: Threshold, r: Record, x: Reading)
    ensures Active(Step(h, r, x).0) <==> if Active(r) then x.value >= h.resolveBelow else x.value > h.fireAbove
  {
  }

  /** Some value was above the firing threshold and none since then below the
      resolving one. */
  ghost predicate Triggered(h: Threshold, readings: seq<Reading>, n: nat)
    requires n <= |readings|
  {
    exists k :: 0 <= k < n && readings[k].value > h.fireAbove
                && forall j :: k < j < n ==> readings[j].value >= h.resolveBelow
  }

  /** Every run is active exactly where its values say so. */
  ghost predicate Faithful(h: Threshold) {
    forall readings, records, n :: Loop(h, readings, records) && 0 <= n <= |readings| ==>
      (Active(records[n]) <==> Triggered(h, readings, n))
  }

  lemma {:induction false} TriggeredSnoc(h: Threshold, readings: seq<Reading>, n: nat)
    requires n < |readings|
    ensures var v := readings[n].value;
            Triggered(h, readings, n + 1) <==> v > h.fireAbove || (Triggered(h, readings, n) && v >= h.resolveBelow)
  {
    if Triggered(h, readings, n) && readings[n].value >= h.resolveBelow {
      var k :| 0 <= k < n && readings[k].value > h.fireAbove
               && forall j :: k < j < n ==> readings[j].value >= h.resolveBelow;
      assert forall j :: k < j < n + 1 ==> readings[j].value >= h.resolveBelow;
    }
    if Triggered(h, readings, n + 1) {
      var k :| 0 <= k < n + 1 && readings[k].value > h.fireAbove
               && forall j :: k < j < n + 1 ==> readings[j].value >= h.resolveBelow;
      assert k < n ==> readings[n].value >= h.resolveBelow;
      assert forall j :: k < j < n ==> readings[j].value >= h.resolveBelow;
    }
  }

  lemma {:induction false} ActiveIffTriggered(h: Threshold, readings: seq<Reading>, records: seq<Record>, n: nat)
    requires Loop(h, readings, records) && n <= |readings| && h.resolveBelow <= h.fireAbove
    ensures Active(records[n]) <==> Triggered(h, readings, n)
  {
    if n > 0 {
      ActiveIffTriggered(h, readings, records, n - 1);
      ActiveStep(h, records[n - 1], readings[n - 1]);
      TriggeredSnoc(h, readings, n - 1);
    }
  }

  /** With the thresholds the wrong way round a value between them switches
      the alert on and off. */
  lemma {:induction false} Flutters(h: Threshold, v: real) returns (readings: seq<Reading>, records: seq<Record>)
    requires h.fireAbove < v < h.resolveBelow
    ensures Loop(h, readings, records) && |readings| == 2
    ensures !Active(records[2]) && Triggered(h, readings, 2)
  {
    var x := Reading(0, v, 1);
    readings := [x, x];
    var r1 := Step(h, FRESH, x).0;
    var r2 := Step(h, r1, x).0;
    records := [FRESH, r1, r2];
    ActiveStep(h, FRESH, x);
    ActiveStep(h, r1, x);
    assert readings[1].value > h.fireAbove;
  }

  /** An alert is active exactly when a value was above the firing threshold
      and none since below the resolving one, in every run, if and only if the
      resolving threshold is not above the firing one. */
  lemma {:induction false} FaithfulIff(h: Threshold)
    ensures Faithful(h) <==> h.resolveBelow <= h.fireAbove
  {
    if h.resolveBelow <= h.fireAbove {
      forall readings, records, n | Loop(h, readings, records) && 0 <= n <= |readings|
        ensures Active(records[n]) <==> Triggered(h, readings, n)
      {
        ActiveIffTriggered(h, readings, records, n);
      }
    } else {
      var readings, records := Flutters(h, (h.fireAbove + h.resolveBelow) / 2.0);
      assert !(Active(records[2]) <==> Triggered(h, readings, 2));
    }
  }
}
