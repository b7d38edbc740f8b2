/** One alert's state machine (internal/alerting/alert.go). Times are integers
    and need not increase from one evaluation to the next. */
module Alert {

  datatype State = Inactive | Pending | Firing | Resolved

  datatype Transition = Transition(before: State, after: State, at: int)

  /** What an alert remembers. */
  datatype Record = Record(
    state: State, pendingSince: int, firingSince: int, resolvedAt: int, lastEval: int, value: real,
    history: seq<Transition>)

  const FRESH := Record(Inactive, 0, 0, 0, 0, 0.0, [])

  /** One evaluation: when, whether the condition holds, the value, and how
      long the condition must hold before the alert fires. */
  datatype Eval = Eval(now: int, cond: bool, value: real, hold: int)

  function Moved(r: Record, to_: State, now: int): Record {
    r.(history := r.history + [Transition(r.state, to_, now)], state := to_)
  }

  /** An evaluation's effect, and whether it is worth a notification. */
  function Next(r: Record, e: Eval): (Record, bool) {
    var r := r.(lastEval := e.now, value := e.value);
    match r.state
    case Inactive => if e.cond then Begun(r, e) else (r, false)
    case Resolved => if e.cond then Begun(r, e) else (r, false)
    case Pending =>
      if !e.cond then (Moved(r, Inactive, e.now), false)
      else if e.now - r.pendingSince >= e.hold then (Moved(r, Firing, e.now).(firingSince := e.now), true)
      else (r, false)
    case Firing => if e.cond then (r, false) else (Moved(r, Resolved, e.now).(resolvedAt := e.now), true)
  }

  function Begun(r: Record, e: Eval): (Record, bool) {
    var p := Moved(r, Pending, e.now).(pendingSince := e.now);
    if e.hold <= 0 then (Moved(p, Firing, e.now).(firingSince := e.now), true) else (p, false)
  }

  class Alert {
    var state: State
    var pendingSince: int
    var firingSince: int
    var resolvedAt: int
    var lastEval: int
    var value: real
    var history: seq<Transition>

    function View(): Record
      reads this
    {
      Record(state, pendingSince, firingSince, resolvedAt, lastEval, value, history)
    }

    constructor ()
      ensures View() == FRESH
    {
      state, pendingSince, firingSince, resolvedAt, lastEval, value, history := Inactive, 0, 0, 0, 0, 0.0, [];
    }

    method Move(to_: State, now: int)
      modifies this`state, this`history
      ensures View() == Moved(old(View()), to_, now)
    {
      history := history + [Transition(state, to_, now)];
      state := to_;
    }

    method EvaluateFor(e: Eval) returns (notify: bool)
      modifies this
      ensures (View(), notify) == Next(old(View()), e)
    {
      lastEval := e.now;
      value := e.value;
      if state == Inactive || state == Resolved {
        if !e.cond {
          return false;
        }
        Move(Pending, e.now);
        pendingSince := e.now;
        if e.hold <= 0 {
          Move(Firing, e.now);
          firingSince := e.now;
          return true;
        }
        return false;
      } else if state == Pending {
        if !e.cond {
          Move(Inactive, e.now);
          return false;
        }
        if e.now - pendingSince >= e.hold {
          Move(Firing, e.now);
          firingSince := e.now;
          return true;
        }
        return false;
      } else {
        if e.cond {
          return false;
        }
        Move(Resolved, e.now);
        resolvedAt := e.now;
        return true;
      }
    }
  }

  // ----- Runs

  /** The alert after a run of evaluations. */
  function After(evals: seq<Eval>): Record {
    if evals == [] then FRESH else Next(After(evals[..|evals| - 1]), evals[|evals| - 1]).0
  }

  /** Whether evaluation `i` notified. */
  function Notified(evals: seq<Eval>, i: nat): bool
    requires i < |evals|
  {
    Next(After(evals[..i]), evals[i]).1
  }

  /** The states entered with a notification, in order. */
  function Notices(evals: seq<Eval>): seq<State> {
    if evals == [] then []
    else
      var front, (r, notify) := Notices(evals[..|evals| - 1]), Next(After(evals[..|evals| - 1]), evals[|evals| - 1]);
      if notify then front + [r.state] else front
  }

  // ----- The history is a path

  predicate Legal(t: Transition) {
    match t.before
    case Inactive => t.after == Pending
    case Resolved => t.after == Pending
    case Pending => t.after == Inactive || t.after == Firing
    case Firing => t.after == Resolved
  }

  ghost predicate Path(history: seq<Transition>, end: State) {
    && (forall i :: 0 <= i < |history| ==> Legal(history[i]))
    && (forall i :: 0 < i < |history| ==> history[i].before == history[i - 1].after)
    && (history != [] ==> history[0].before == Inactive)
    && end == if history == [] then Inactive else history[|history| - 1].after
  }

  lemma {:induction false} PathExtends(history: seq<Transition>, end: State, t: Transition)
    requires Path(history, end) && t.before == end && Legal(t)
    ensures Path(history + [t], t.after)
  {
  }

  lemma {:induction false} NextExtendsPath(r: Record, e: Eval)
    requires Path(r.history, r.state)
    ensures Path(Next(r, e).0.history, Next(r, e).0.state)
  {
    var first := Transition(r.state, Pending, e.now);
    match r.state
    case Firing => PathExtends(r.history, r.state, Transition(Firing, Resolved, e.now));
    case Pending =>
      PathExtends(r.history, r.state, Transition(Pending, Inactive, e.now));
      PathExtends(r.history, r.state, Transition(Pending, Firing, e.now));
    case Inactive =>
      PathExtends(r.history, r.state, first);
      PathExtends(r.history + [first], Pending, Transition(Pending, Firing, e.now));
    case Resolved =>
      PathExtends(r.history, r.state, first);
      PathExtends(r.history + [first], Pending, Transition(Pending, Firing, e.now));
  }

  /** In every run the history is a connected path over the five legal edges
      from inactive to the current state. */
  lemma {:induction false} HistoryIsPath(evals: seq<Eval>)
    ensures Path(After(evals).history, After(evals).state)
    decreases |evals|
  {
    if evals != [] {
      HistoryIsPath(evals[..|evals| - 1]);
      NextExtendsPath(After(evals[..|evals| - 1]), evals[|evals| - 1]);
    }
  }

  // ----- Notifications alternate

  /** Firing first, then resolved, and so on; the alert is firing exactly
      after an odd number of them. */
  lemma {:induction false} NoticesAlternate(evals: seq<Eval>)
    ensures forall i :: 0 <= i < |Notices(evals)| ==> Notices(evals)[i] == if i % 2 == 0 then Firing else Resolved
    ensures |Notices(evals)| % 2 == 1 <==> After(evals).state == Firing
    decreases |evals|
  {
    if evals != [] {
      NoticesAlternate(evals[..|evals| - 1]);
    }
  }

  // ----- When an alert fires, in terms of the conditions alone

  /** Start of the unbroken stretch of true conditions that ends the run. */
  function StretchStart(evals: seq<Eval>): (s: nat)
    ensures s <= |evals|
    ensures forall i :: s <= i < |evals| ==> evals[i].cond
    ensures s > 0 ==> !evals[s - 1].cond
  {
    if evals == [] then 0
    else if !evals[|evals| - 1].cond then |evals|
    else StretchStart(evals[..|evals| - 1])
  }

  /** The condition has held long enough at evaluation `k` of the stretch. */
  predicate Ripe(evals: seq<Eval>, k: nat)
    requires StretchStart(evals) <= k < |evals|
  {
    evals[k].now - evals[StretchStart(evals)].now >= evals[k].hold
  }

  ghost predicate EverRipe(evals: seq<Eval>) {
    exists k :: StretchStart(evals) <= k < |evals| && Ripe(evals, k)
  }

  /** What the state has to be. */
  ghost predicate StateFits(evals: seq<Eval>, r: Record) {
    var s := StretchStart(evals);
    && (s == |evals| <==> r.state == Inactive || r.state == Resolved)
    && (r.state == Firing <==> s < |evals| && EverRipe(evals))
    && (s < |evals| ==> r.pendingSince == evals[s].now)
  }

  lemma {:induction false} StretchGrows(evals: seq<Eval>, e: Eval)
    ensures StretchStart(evals + [e]) == if e.cond then StretchStart(evals) else |evals| + 1
    ensures e.cond ==> (EverRipe(evals + [e]) <==> EverRipe(evals) || Ripe(evals + [e], |evals|))
  {
    var more := evals + [e];
    assert more[..|evals|] == evals;
    if e.cond {
      var s := StretchStart(evals);
      assert forall k :: s <= k < |evals| ==> (Ripe(more, k) <==> Ripe(evals, k));
      if EverRipe(more) {
        var k :| s <= k < |more| && Ripe(more, k);
        assert k < |evals| ==> Ripe(evals, k);
      }
      if EverRipe(evals) {
        var k :| s <= k < |evals| && Ripe(evals, k);
        assert Ripe(more, k);
      }
    }
  }

  lemma {:induction false} StateFitsRun(evals: seq<Eval>)
    ensures StateFits(evals, After(evals))
    decreases |evals|
  {
    if evals != [] {
      var front, e := evals[..|evals| - 1], evals[|evals| - 1];
      assert evals == front + [e];
      StateFitsRun(front);
      StretchGrows(front, e);
      if e.cond && StretchStart(front) < |front| {
        assert evals[StretchStart(front)] == front[StretchStart(front)];
      }
    }
  }

  /** The alert fires at the last evaluation of a run exactly when its
      condition has held without a break since some evaluation, is ripe now
      and was not ripe before. */
  lemma {:induction false} FiresExactly(evals: seq<Eval>)
    requires evals != []
    ensures var last := |evals| - 1;
            (Notified(evals, last) && After(evals).state == Firing)
            <==> (evals[last].cond && Ripe(evals, last)
                  && forall k :: StretchStart(evals) <= k < last ==> !Ripe(evals, k))
  {
    var front, e := evals[..|evals| - 1], evals[|evals| - 1];
    assert evals == front + [e];
    StateFitsRun(front);
    StateFitsRun(evals);
    StretchGrows(front, e);
    if e.cond {
      var s := StretchStart(front);
      assert forall k :: s <= k < |front| ==> (Ripe(evals, k) <==> Ripe(front, k));
    }
  }

  /** It resolves exactly at the first false condition after a stretch that
      made it fire. */
  lemma {:induction false} ResolvesExactly(evals: seq<Eval>)
    requires evals != []
    ensures var last := |evals| - 1;
            (Notified(evals, last) && After(evals).state == Resolved)
            <==> (!evals[last].cond && EverRipe(evals[..last]))
  {
    StateFitsRun(evals[..|evals| - 1]);
  }

  // ----- What the times and the history mean

  ghost predicate FiredAt(evals: seq<Eval>, i: int) {
    0 <= i < |evals| && Notified(evals, i) && After(evals[..i + 1]).state == Firing
  }

  ghost predicate ResolvedAt(evals: seq<Eval>, i: int) {
    0 <= i < |evals| && Notified(evals, i) && After(evals[..i + 1]).state == Resolved
  }

  lemma {:induction false} SamePrefix(evals: seq<Eval>, i: nat)
    requires i < |evals| - 1
    ensures var front := evals[..|evals| - 1];
            (FiredAt(evals, i) <==> FiredAt(front, i)) && (ResolvedAt(evals, i) <==> ResolvedAt(front, i))
  {
    var front := evals[..|evals| - 1];
    assert front[..i] == evals[..i] && front[..i + 1] == evals[..i + 1];
  }

  /** Which evaluations made the alert fire, and which resolved it. */
  ghost function Fired(evals: seq<Eval>): (r: seq<bool>)
    ensures |r| == |evals|
  {
    seq(|evals|, i requires 0 <= i < |evals| => FiredAt(evals, i))
  }

  ghost function ResolvedBy(evals: seq<Eval>): (r: seq<bool>)
    ensures |r| == |evals|
  {
    seq(|evals|, i requires 0 <= i < |evals| => ResolvedAt(evals, i))
  }

  lemma {:induction false} FlagsSnoc(evals: seq<Eval>)
    requires evals != []
    ensures var last := |evals| - 1;
            && Fired(evals) == Fired(evals[..last]) + [FiredAt(evals, last)]
            && ResolvedBy(evals) == ResolvedBy(evals[..last]) + [ResolvedAt(evals, last)]
  {
    forall i | 0 <= i < |evals| - 1 ensures Fired(evals)[i] == Fired(evals[..|evals| - 1])[i]
                                         && ResolvedBy(evals)[i] == ResolvedBy(evals[..|evals| - 1])[i] {
      SamePrefix(evals, i);
    }
  }

  /** The time is that of the last flagged evaluation, 0 if there is none. */
  ghost predicate TimeOfLast(evals: seq<Eval>, flags: seq<bool>, time: int)
    requires |flags| == |evals|
  {
    && ((forall i :: 0 <= i < |evals| ==> !flags[i]) ==> time == 0)
    && forall i :: 0 <= i < |evals| && flags[i] && (forall j :: i < j < |evals| ==> !flags[j]) ==> time == evals[i].now
  }

  lemma {:induction false} TimeSnoc(evals: seq<Eval>, front: seq<Eval>, e: Eval, flags: seq<bool>,
                                    before: seq<bool>, f: bool, time: int, time': int)
    requires |before| == |front| && TimeOfLast(front, before, time)
    requires evals == front + [e] && flags == before + [f] && time' == if f then e.now else time
    ensures TimeOfLast(evals, flags, time')
  {
    assert evals[|front|] == e && flags[|front|] == f;
    if f {
      assert !forall i :: 0 <= i < |evals| ==> !flags[i];
    } else {
      assert forall i :: 0 <= i < |front| ==> evals[i] == front[i] && flags[i] == before[i];
      assert (forall i :: 0 <= i < |evals| ==> !flags[i]) ==> forall i :: 0 <= i < |front| ==> !before[i];
      forall i | 0 <= i < |evals| && flags[i] && (forall j :: i < j < |evals| ==> !flags[j])
        ensures time == evals[i].now
      {
        assert i < |front| && before[i];
        assert forall j :: i < j < |front| ==> !before[j];
      }
    }
  }

  /** When an alert began to fire is the time of the last evaluation that made
      it fire. */
  lemma {:induction false} FiringSinceMeans(evals: seq<Eval>)
    ensures TimeOfLast(evals, Fired(evals), After(evals).firingSince)
    decreases |evals|
  {
    if evals != [] {
      var front, e := evals[..|evals| - 1], evals[|evals| - 1];
      FiringSinceMeans(front);
      FlagsSnoc(evals);
      LastTimes(evals);
      TimeSnoc(evals, front, e, Fired(evals), Fired(front), FiredAt(evals, |front|), After(front).firingSince,
               After(evals).firingSince);
    }
  }

  /** When it was resolved is the time of the last one that resolved it. */
  lemma {:induction false} ResolvedAtMeans(evals: seq<Eval>)
    ensures TimeOfLast(evals, ResolvedBy(evals), After(evals).resolvedAt)
    decreases |evals|
  {
    if evals != [] {
      var front, e := evals[..|evals| - 1], evals[|evals| - 1];
      ResolvedAtMeans(front);
      FlagsSnoc(evals);
      LastTimes(evals);
      TimeSnoc(evals, front, e, ResolvedBy(evals), ResolvedBy(front), ResolvedAt(evals, |front|),
               After(front).resolvedAt, After(evals).resolvedAt);
    }
  }

  lemma {:induction false} LastTimes(evals: seq<Eval>)
    requires evals != []
    ensures var last := |evals| - 1;
            var r, r', e := After(evals[..last]), After(evals), evals[last];
            && r'.firingSince == (if FiredAt(evals, last) then e.now else r.firingSince)
            && r'.resolvedAt == (if ResolvedAt(evals, last) then e.now else r.resolvedAt)
            && r'.lastEval == e.now && r'.value == e.value
  {
    assert evals[..|evals|] == evals;
    StepTimes(After(evals[..|evals| - 1]), evals[|evals| - 1]);
  }

  lemma {:induction false} StepTimes(r: Record, e: Eval)
    ensures var (r', notify) := Next(r, e);
            && r'.firingSince == (if notify && r'.state == Firing then e.now else r.firingSince)
            && r'.resolvedAt == (if notify && r'.state == Resolved then e.now else r.resolvedAt)
  {
  }

  /** An evaluation adds to the history exactly if it changes the state: at
      most two transitions, at its own time. */
  lemma {:induction false} HistoryGrows(evals: seq<Eval>)
    requires evals != []
    ensures var last := |evals| - 1;
            var r, r' := After(evals[..last]), After(evals);
            && r.history <= r'.history && |r'.history| <= |r.history| + 2
            && (r'.history == r.history <==> r'.state == r.state)
            && forall k :: |r.history| <= k < |r'.history| ==> r'.history[k].at == evals[last].now
  {
  }
}
