/** Whole runs of a manager, with silences coming and going. */
module AlertRuns {
  import opened Alert
  import opened AlertManager

  /** What happens to a manager and its silence store. */
  datatype Act = AddSilence(silence: Silence) | RemoveSilence(id: string) | Ask(key: Key, eval: Eval)

  /** The silences stored after these acts. */
  function SilencesAfter(acts: seq<Act>): map<string, Silence> {
    if acts == [] then map[]
    else
      var before := SilencesAfter(acts[..|acts| - 1]);
      match acts[|acts| - 1]
      case AddSilence(s) => before[s.id := s]
      case RemoveSilence(id) => before - {id}
      case Ask(_, _) => before
  }

  /** The evaluations of one key. */
  function EvalsOf(acts: seq<Act>, k: Key): seq<Eval> {
    if acts == [] then []
    else
      var act := acts[|acts| - 1];
      EvalsOf(acts[..|acts| - 1], k) + (if act.Ask? && act.key == k then [act.eval] else [])
  }

  /** Every alert is in the state its own evaluations lead to. */
  ghost predicate Independent(acts: seq<Act>, records: Records) {
    forall k :: RecordOf(records, k) == After(EvalsOf(acts, k))
  }

  /** The alert's state machine calls for a notification at act `i`. */
  ghost predicate Transitions(acts: seq<Act>, i: nat)
    requires i < |acts|
  {
    acts[i].Ask? && Next(After(EvalsOf(acts[..i], acts[i].key)), acts[i].eval).1
  }

  ghost predicate Muted(acts: seq<Act>, i: nat)
    requires i < |acts|
  {
    acts[i].Ask? && IsSilenced(SilencesAfter(acts[..i]), acts[i].eval.now, acts[i].key.labels)
  }

  lemma {:induction false} EvalsStep(acts: seq<Act>, i: nat, k: Key)
    requires i < |acts|
    ensures EvalsOf(acts[..i + 1], k)
         == EvalsOf(acts[..i], k) + (if acts[i].Ask? && acts[i].key == k then [acts[i].eval] else [])
  {
    assert acts[..i + 1][..i] == acts[..i];
  }

  lemma {:induction false} AfterSnoc(evals: seq<Eval>, e: Eval)
    ensures After(evals + [e]) == Next(After(evals), e).0
  {
    assert (evals + [e])[..|evals|] == evals;
  }

  /** Acts on silences leave the alerts alone. */
  lemma {:induction false} IndependentKept(acts: seq<Act>, i: nat, records: Records)
    requires i < |acts| && Independent(acts[..i], records) && !acts[i].Ask?
    ensures Independent(acts[..i + 1], records)
  {
    forall k ensures RecordOf(records, k) == After(EvalsOf(acts[..i + 1], k)) {
      EvalsStep(acts, i, k);
      assert EvalsOf(acts[..i], k) + [] == EvalsOf(acts[..i], k);
    }
  }

  /** An evaluation advances its own alert and no other. */
  lemma {:induction false} IndependentStep(acts: seq<Act>, i: nat, records: Records)
    requires i < |acts| && Independent(acts[..i], records) && acts[i].Ask?
    ensures Independent(acts[..i + 1], Evaluated(records, acts[i].key, acts[i].eval).0)
    ensures Evaluated(records, acts[i].key, acts[i].eval).1 <==> Transitions(acts, i)
  {
    var key, e := acts[i].key, acts[i].eval;
    var records' := Evaluated(records, key, e).0;
    forall k ensures RecordOf(records', k) == After(EvalsOf(acts[..i + 1], k)) {
      EvalsStep(acts, i, k);
      if k == key {
        AfterSnoc(EvalsOf(acts[..i], k), e);
      } else {
        assert EvalsOf(acts[..i], k) + [] == EvalsOf(acts[..i], k);
      }
    }
  }

  /** A notification is given exactly if one is due and not muted. */
  ghost predicate NotedAt(acts: seq<Act>, i: nat, notified: bool)
    requires i < |acts|
  {
    notified <==> Transitions(acts, i) && !Muted(acts, i)
  }

  ghost predicate Noted(acts: seq<Act>, notified: seq<bool>) {
    |notified| <= |acts| && forall i :: 0 <= i < |notified| ==> NotedAt(acts, i, notified[i])
  }

  lemma {:induction false} NotedStep(acts: seq<Act>, notified: seq<bool>, n: bool)
    requires Noted(acts, notified) && |notified| < |acts| && NotedAt(acts, |notified|, n)
    ensures Noted(acts, notified + [n])
  {
    forall i | 0 <= i < |notified| + 1 ensures NotedAt(acts, i, (notified + [n])[i]) {
      if i < |notified| {
        assert NotedAt(acts, i, notified[i]);
      }
    }
  }

  /** One act on a manager; whether it notified. */
  method Perform(m: Manager, acts: seq<Act>, i: nat, ghost records: Records)
      returns (notified: bool, ghost records': Records)
    requires i < |acts| && m.Valid() && m.Holds(records) && Independent(acts[..i], records)
    requires m.silences.silences == SilencesAfter(acts[..i])
    modifies m, m.silences, m.alerts.Values
    ensures m.Valid() && m.Holds(records') && Independent(acts[..i + 1], records')
    ensures m.silences.silences == SilencesAfter(acts[..i + 1])
    ensures NotedAt(acts, i, notified)
    ensures forall a :: a in m.alerts.Values ==> a in old(m.alerts.Values) || fresh(a)
  {
    assert acts[..i + 1][..i] == acts[..i];
    notified, records' := false, records;
    match acts[i] {
      case AddSilence(s) =>
        IndependentKept(acts, i, records);
        m.silences.Add(s);
      case RemoveSilence(id) =>
        IndependentKept(acts, i, records);
        m.silences.Remove(id);
      case Ask(k, e) =>
        IndependentStep(acts, i, records);
        records' := Evaluated(records, k, e).0;
        var _, n := m.Evaluate(k, e, records);
        notified := n;
    }
  }

  /** A new manager put through the acts: every alert ends where its own
      evaluations lead, and a notification is given exactly where one is due
      and no silence stored at that time covers it. */
  method Serve(acts: seq<Act>) returns (m: Manager, notified: seq<bool>, ghost records: Records)
    ensures fresh(m) && m.Holds(records) && Independent(acts, records)
    ensures |notified| == |acts| && Noted(acts, notified)
  {
    var store := new SilenceStore();
    m := new Manager(store);
    notified, records := [], map[];
    for i := 0 to |acts|
      invariant fresh(m) && fresh(m.silences) && forall a :: a in m.alerts.Values ==> fresh(a)
      invariant m.Valid() && m.Holds(records) && Independent(acts[..i], records)
      invariant m.silences.silences == SilencesAfter(acts[..i])
      invariant |notified| == i && Noted(acts, notified)
    {
      var n;
      n, records := Perform(m, acts, i, records);
      NotedStep(acts, notified, n);
      notified := notified + [n];
    }
    assert acts[..|acts|] == acts;
  }

  // ----- With and without silences

  /** The evaluations alone. */
  function Asks(acts: seq<Act>): seq<Act> {
    if acts == [] then []
    else
      var act := acts[|acts| - 1];
      Asks(acts[..|acts| - 1]) + (if act.Ask? then [act] else [])
  }

  lemma {:induction false} AsksEvals(acts: seq<Act>, k: Key)
    ensures EvalsOf(Asks(acts), k) == EvalsOf(acts, k)
    decreases |acts|
  {
    if acts != [] {
      var front, act := acts[..|acts| - 1], acts[|acts| - 1];
      AsksEvals(front, k);
      if act.Ask? {
        assert (Asks(front) + [act])[..|Asks(front)|] == Asks(front);
      } else {
        assert Asks(front) + [] == Asks(front) && EvalsOf(front, k) + [] == EvalsOf(front, k);
      }
    }
  }

  /** Evaluation `i` comes after as many evaluations as precede it. */
  lemma {:induction false} AsksAt(acts: seq<Act>, i: nat)
    requires i < |acts| && acts[i].Ask?
    ensures var n := |Asks(acts[..i])|;
            n < |Asks(acts)| && Asks(acts)[n] == acts[i] && Asks(acts)[..n] == Asks(acts[..i])
    decreases |acts|
  {
    var front := acts[..|acts| - 1];
    if i < |front| {
      assert front[..i] == acts[..i];
      AsksAt(front, i);
    }
  }

  lemma {:induction false} NoSilences(acts: seq<Act>)
    requires forall i :: 0 <= i < |acts| ==> acts[i].Ask?
    ensures SilencesAfter(acts) == map[]
    decreases |acts|
  {
    if acts != [] {
      NoSilences(acts[..|acts| - 1]);
    }
  }

  lemma {:induction false} AllAsks(acts: seq<Act>)
    ensures forall i :: 0 <= i < |Asks(acts)| ==> Asks(acts)[i].Ask?
    decreases |acts|
  {
    if acts != [] {
      AllAsks(acts[..|acts| - 1]);
    }
  }

  /** The n-th evaluation transitions the same with silences or without, and
      without none of it is muted. */
  lemma {:induction false} SameTransition(acts: seq<Act>, i: nat)
    requires i < |acts| && acts[i].Ask?
    ensures var n := |Asks(acts[..i])|;
            n < |Asks(acts)| && (Transitions(Asks(acts), n) <==> Transitions(acts, i)) && !Muted(Asks(acts), n)
  {
    AsksAt(acts, i);
    AsksEvals(acts[..i], acts[i].key);
    AllAsks(acts[..i]);
    NoSilences(Asks(acts[..i]));
  }

  /** Two managers, one with silences coming and going and one that only gets
      the evaluations: all alerts and their histories end up the same, and the
      first notifies exactly where the second does and no silence stored at
      that time covers the alert. */
  method WithAndWithout(acts: seq<Act>)
      returns (m: Manager, plain: Manager, notified: seq<bool>, loud: seq<bool>, ghost records: Records,
               ghost same: Records)
    ensures m.Holds(records) && plain.Holds(same) && forall k :: RecordOf(records, k) == RecordOf(same, k)
    ensures |notified| == |acts| && |loud| == |Asks(acts)|
    ensures forall i :: 0 <= i < |acts| && !acts[i].Ask? ==> !notified[i]
    ensures forall i :: 0 <= i < |acts| && acts[i].Ask? ==>
              |Asks(acts[..i])| < |loud| && (notified[i] <==> loud[|Asks(acts[..i])|] && !Muted(acts, i))
  {
    m, notified, records := Serve(acts);
    plain, loud, same := Serve(Asks(acts));
    forall k ensures RecordOf(records, k) == RecordOf(same, k) {
      AsksEvals(acts, k);
    }
    forall i | 0 <= i < |acts| ensures !acts[i].Ask? ==> !notified[i] {
      assert NotedAt(acts, i, notified[i]);
    }
    forall i | 0 <= i < |acts| && acts[i].Ask?
      ensures |Asks(acts[..i])| < |loud| && (notified[i] <==> loud[|Asks(acts[..i])|] && !Muted(acts, i))
    {
      SameTransition(acts, i);
      assert NotedAt(acts, i, notified[i]) && NotedAt(Asks(acts), |Asks(acts[..i])|, loud[|Asks(acts[..i])|]);
    }
  }
}
