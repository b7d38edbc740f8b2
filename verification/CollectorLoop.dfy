/** The loop that runs one collector (internal/collector/runtime.go): back off
    after errors, give up after three timeouts in a row. */
module CollectorLoop {

  const MAX_BACKOFF := 10
  const MAX_TIMEOUTS := 3

  datatype Outcome = TimedOut | Failed | Succeeded
  datatype Report = ErrorReport | DisabledReport | RecoveredReport

  // ----- What a run means

  /** Just after the last success. */
  function SinceSuccess(outs: seq<Outcome>): (s: nat)
    ensures s <= |outs|
    ensures s > 0 ==> outs[s - 1].Succeeded?
    ensures forall i :: s <= i < |outs| ==> !outs[i].Succeeded?
  {
    if outs == [] then 0
    else if outs[|outs| - 1].Succeeded? then |outs|
    else SinceSuccess(outs[..|outs| - 1])
  }

  function Failures(outs: seq<Outcome>): nat {
    if outs == [] then 0 else Failures(outs[..|outs| - 1]) + if outs[|outs| - 1].Failed? then 1 else 0
  }

  /** Errors since the last success; timeouts neither count nor clear. */
  function Errors(outs: seq<Outcome>): nat {
    Failures(outs[SinceSuccess(outs)..])
  }

  function Pow2(n: nat): (r: nat)
    ensures r >= 1
  {
    if n == 0 then 1 else 2 * Pow2(n - 1)
  }

  function Min(a: int, b: int): int {
    if a <= b then a else b
  }

  /** The ticker period the run has led to, in intervals. */
  function Period(outs: seq<Outcome>): nat {
    Min(MAX_BACKOFF, Pow2(Errors(outs)))
  }

  /** The run ends in three timeouts. */
  predicate ThreeTimeouts(outs: seq<Outcome>) {
    |outs| >= MAX_TIMEOUTS && forall i :: |outs| - MAX_TIMEOUTS <= i < |outs| ==> outs[i].TimedOut?
  }

  /** What the last outcome of a run has to report. */
  function Reports(outs: seq<Outcome>): seq<Report>
    requires outs != []
  {
    match outs[|outs| - 1]
    case TimedOut => if ThreeTimeouts(outs) then [ErrorReport, DisabledReport] else [ErrorReport]
    case Failed => [ErrorReport]
    case Succeeded => if Errors(outs[..|outs| - 1]) > 0 then [RecoveredReport] else []
  }

  lemma {:induction false} FailuresAppend(outs: seq<Outcome>, o: Outcome)
    ensures Failures(outs + [o]) == Failures(outs) + if o.Failed? then 1 else 0
  {
    assert (outs + [o])[..|outs|] == outs;
  }

  lemma {:induction false} SinceSuccessAppend(outs: seq<Outcome>, o: Outcome)
    ensures SinceSuccess(outs + [o]) == if o.Succeeded? then |outs| + 1 else SinceSuccess(outs)
  {
    assert (outs + [o])[..|outs|] == outs;
  }

  lemma {:induction false} ErrorsStep(outs: seq<Outcome>, o: Outcome)
    ensures Errors(outs + [o])
         == match o case TimedOut => Errors(outs) case Failed => Errors(outs) + 1 case Succeeded => 0
  {
    SinceSuccessAppend(outs, o);
    var more, since := outs + [o], outs[SinceSuccess(outs)..];
    var rest := more[SinceSuccess(more)..];
    if o.Succeeded? {
      assert rest == [];
    } else {
      assert rest == since + [o];
      FailuresAppend(since, o);
    }
  }

  // ----- The loop

  lemma {:induction false} PowMonotone(m: nat, n: nat)
    requires m <= n
    ensures Pow2(m) <= Pow2(n)
  {
    if m < n {
      PowMonotone(m, n - 1);
    }
  }

  method Backoff(errors: nat) returns (multiplier: nat)
    ensures multiplier == Min(MAX_BACKOFF, Pow2(errors))
  {
    multiplier := 1;
    var i := 0;
    while i < errors
      invariant i <= errors && multiplier == Pow2(i) < MAX_BACKOFF
    {
      multiplier := multiplier * 2;
      if multiplier >= MAX_BACKOFF {
        PowMonotone(i + 1, errors);
        return MAX_BACKOFF;
      }
      i := i + 1;
    }
  }

  /** The timeouts counted so far are those that end the run. */
  ghost predicate TrailingTimeouts(outs: seq<Outcome>, n: nat) {
    && n <= |outs|
    && (forall i :: |outs| - n <= i < |outs| ==> outs[i].TimedOut?)
    && (n < |outs| ==> !outs[|outs| - n - 1].TimedOut?)
  }

  lemma {:induction false} TrailingIff(outs: seq<Outcome>, n: nat)
    requires TrailingTimeouts(outs, n)
    ensures ThreeTimeouts(outs) <==> n >= MAX_TIMEOUTS
  {
    if n < MAX_TIMEOUTS <= |outs| {
      assert !outs[|outs| - n - 1].TimedOut?;
    }
  }

  /** The loop's variables. */
  datatype Counters = Counters(errors: nat, timeouts: nat, period: nat)

  ghost predicate Tracks(outs: seq<Outcome>, c: Counters) {
    c.errors == Errors(outs) && TrailingTimeouts(outs, c.timeouts) && c.period == Period(outs)
  }

  lemma {:induction false} TrailingStep(outs: seq<Outcome>, o: Outcome, n: nat)
    requires TrailingTimeouts(outs, n)
    ensures TrailingTimeouts(outs + [o], if o.TimedOut? then n + 1 else 0)
  {
  }

  /** One tick of the loop. */
  method Tick(c: Counters, o: Outcome, ghost outs: seq<Outcome>)
      returns (c': Counters, report: seq<Report>, stop: bool)
    requires Tracks(outs, c)
    ensures Tracks(outs + [o], c') && report == Reports(outs + [o]) && stop == ThreeTimeouts(outs + [o])
  {
    ghost var now := outs + [o];
    assert now[..|outs|] == outs && now[|outs|] == o;
    ErrorsStep(outs, o);
    TrailingStep(outs, o, c.timeouts);
    TrailingIff(now, if o.TimedOut? then c.timeouts + 1 else 0);
    match o {
      case TimedOut =>
        c' := c.(timeouts := c.timeouts + 1);
        report := [ErrorReport];
        stop := c'.timeouts >= MAX_TIMEOUTS;
        if stop {
          report := report + [DisabledReport];
        }
      case Failed =>
        var multiplier := Backoff(c.errors + 1);
        c' := Counters(c.errors + 1, 0, multiplier);
        report, stop := [ErrorReport], false;
      case Succeeded =>
        c' := c.(timeouts := 0);
        report, stop := [], false;
        if c'.errors > 0 {
          c' := c'.(errors := 0, period := 1);
          report := [RecoveredReport];
        }
    }
  }

  /** `n` ticks were taken, none of them after three timeouts in a row, with
      these reports and these periods in force afterwards. */
  ghost predicate Logged(outs: seq<Outcome>, n: nat, reports: seq<seq<Report>>, periods: seq<nat>) {
    && |reports| == |periods| == n <= |outs|
    && forall k :: 0 <= k < n ==> LoggedAt(outs, k, reports[k], periods[k])
  }

  ghost predicate LoggedAt(outs: seq<Outcome>, k: nat, report: seq<Report>, period: nat)
    requires k < |outs|
  {
    !ThreeTimeouts(outs[..k]) && report == Reports(outs[..k + 1]) && period == Period(outs[..k + 1])
  }

  lemma {:induction false} LoggedStep(outs: seq<Outcome>, n: nat, reports: seq<seq<Report>>, periods: seq<nat>,
                                      report: seq<Report>, period: nat)
    requires Logged(outs, n, reports, periods) && n < |outs| && !ThreeTimeouts(outs[..n])
    requires report == Reports(outs[..n + 1]) && period == Period(outs[..n + 1])
    ensures Logged(outs, n + 1, reports + [report], periods + [period])
  {
    forall k | 0 <= k < n + 1 ensures LoggedAt(outs, k, (reports + [report])[k], (periods + [period])[k]) {
      if k < n {
        assert LoggedAt(outs, k, reports[k], periods[k]);
      }
    }
  }

  /** Runs until the outcomes end (the loop is cancelled) or the collector is
      disabled: exactly at the first three timeouts in a row. */
  method RunLoop(outs: seq<Outcome>) returns (reports: seq<seq<Report>>, periods: seq<nat>, disabled: bool)
    ensures Logged(outs, |reports|, reports, periods)
    ensures if disabled then ThreeTimeouts(outs[..|reports|]) else |reports| == |outs| && !ThreeTimeouts(outs)
  {
    reports, periods, disabled := [], [], false;
    var c := Counters(0, 0, 1);
    for i := 0 to |outs|
      invariant |reports| == i && Logged(outs, i, reports, periods)
      invariant Tracks(outs[..i], c) && !ThreeTimeouts(outs[..i]) && !disabled
    {
      assert outs[..i + 1] == outs[..i] + [outs[i]];
      var report;
      c, report, disabled := Tick(c, outs[i], outs[..i]);
      LoggedStep(outs, i, reports, periods, report, c.period);
      reports, periods := reports + [report], periods + [c.period];
      if disabled {
        return;
      }
    }
    assert outs[..|outs|] == outs;
  }

  /** Every period lies between one and ten intervals, never shrinks before a
      success and is one interval again at it. */
  lemma {:induction false} PeriodBounds(outs: seq<Outcome>, o: Outcome)
    ensures 1 <= Period(outs) <= MAX_BACKOFF
    ensures if o.Succeeded? then Period(outs + [o]) == 1 else Period(outs) <= Period(outs + [o])
  {
    ErrorsStep(outs, o);
    PowMonotone(Errors(outs), Errors(outs) + 1);
  }

  /** The backoff in force after some errors: 1, 2, 4, 8 and then 10. */
  lemma {:induction false} BackoffTable(errors: nat)
    ensures Min(MAX_BACKOFF, Pow2(errors))
         == if errors == 0 then 1 else if errors == 1 then 2 else if errors == 2 then 4
            else if errors == 3 then 8 else 10
  {
    assert Pow2(1) == 2 && Pow2(2) == 2 * Pow2(1) && Pow2(3) == 2 * Pow2(2) && Pow2(4) == 2 * Pow2(3);
    if errors > 4 {
      PowMonotone(4, errors);
    }
  }

  lemma {:induction false} FailuresIff(outs: seq<Outcome>)
    ensures Failures(outs) > 0 <==> exists i :: 0 <= i < |outs| && outs[i].Failed?
    decreases |outs|
  {
    if outs != [] {
      var front := outs[..|outs| - 1];
      FailuresIff(front);
      if i :| 0 <= i < |front| && front[i].Failed? {
        assert outs[i].Failed?;
      }
      if i :| 0 <= i < |outs| && outs[i].Failed? {
        assert i < |front| ==> front[i].Failed?;
      }
    }
  }

  /** Some error came after the last success. */
  ghost predicate Troubled(outs: seq<Outcome>) {
    exists i :: 0 <= i < |outs| && outs[i].Failed? && forall j :: i < j < |outs| ==> !outs[j].Succeeded?
  }

  lemma {:induction false} ErrorsIff(outs: seq<Outcome>)
    ensures Errors(outs) > 0 <==> Troubled(outs)
  {
    var s := SinceSuccess(outs);
    FailuresIff(outs[s..]);
    if Errors(outs) > 0 {
      var i :| 0 <= i < |outs[s..]| && outs[s..][i].Failed?;
      assert outs[s + i].Failed?;
    }
    if Troubled(outs) {
      var i :| 0 <= i < |outs| && outs[i].Failed? && forall j :: i < j < |outs| ==> !outs[j].Succeeded?;
      assert s > 0 ==> outs[s - 1].Succeeded? && i != s - 1;
      assert outs[s..][i - s].Failed?;
    }
  }

  /** Every timeout and every error is reported as one; a recovery exactly at
      a success after an error with no success in between; and that it is
      disabled exactly at the third timeout in a row. */
  lemma {:induction false} ReportsMean(outs: seq<Outcome>)
    requires outs != []
    ensures var n, reports := |outs|, Reports(outs);
            && (ErrorReport in reports <==> !outs[n - 1].Succeeded?)
            && (RecoveredReport in reports <==> outs[n - 1].Succeeded? && Troubled(outs[..n - 1]))
            && (DisabledReport in reports <==>
                  n >= 3 && outs[n - 1].TimedOut? && outs[n - 2].TimedOut? && outs[n - 3].TimedOut?)
            && |reports| <= 2
  {
    ErrorsIff(outs[..|outs| - 1]);
  }

  /** `time.Duration(float64(interval) * 0.8)`, cut toward zero, unless the
      configured timeout is shorter. */
  function EffectiveTimeout(interval: int, configured: int): (r: int)
    ensures r <= configured && (interval >= 0 ==> 10 * r <= 8 * interval)
    ensures r == configured || (interval >= 0 && 8 * interval < 10 * (r + 1)) || interval < 0
  {
    var hard := if interval >= 0 then 8 * interval / 10 else -(8 * -interval / 10);
    if hard < configured then hard else configured
  }
}
