/** The alert manager and silences (internal/alerting: manager.go and
    silence.go). Alerts are keyed by rule and labels directly. */
module AlertManager {
  import opened Alert

  type Labels = map<string, string>

  // ----- Silences

  datatype Silence = Silence(id: string, matchers: Labels, startsAt: int, endsAt: int)

  datatype SilenceResult = Ok(silence: Silence) | NoEnd | EndsBeforeStart

  const ZERO_TIME := 0

  predicate ActiveAt(s: Silence, t: int) {
    !(t < s.startsAt) && t < s.endsAt
  }

  /** A silence is refused exactly when it has no end or would never be in
      effect; every accepted one has a window that closes for good. */
  method NewSilence(id: string, matchers: Labels, startsAt: int, endsAt: int) returns (r: SilenceResult)
    ensures r.NoEnd? <==> endsAt == ZERO_TIME
    ensures r.EndsBeforeStart? <==>
              endsAt != ZERO_TIME && !exists t :: ActiveAt(Silence(id, matchers, startsAt, endsAt), t)
    ensures r.Ok? ==> r.silence.id == id && r.silence.matchers == matchers
    ensures r.Ok? ==> forall t :: ActiveAt(r.silence, t) <==> startsAt <= t < endsAt
  {
    if endsAt == ZERO_TIME {
      return NoEnd;
    }
    if !(endsAt > startsAt) {
      return EndsBeforeStart;
    }
    assert ActiveAt(Silence(id, matchers, startsAt, endsAt), startsAt);
    return Ok(Silence(id, matchers, startsAt, endsAt));
  }

  /** Reading a missing label gives the empty string. */
  function Label(labels: Labels, k: string): string {
    if k in labels then labels[k] else ""
  }

  ghost predicate Covers(matchers: Labels, labels: Labels) {
    matchers != map[] && forall k :: k in matchers ==> Label(labels, k) == matchers[k]
  }

  /** A matcher asks for its value, or for a label to be missing or empty. */
  lemma {:induction false} CoversMeans(matchers: Labels, labels: Labels)
    ensures Covers(matchers, labels) <==>
            && matchers != map[]
            && forall k :: k in matchers ==> if k in labels then labels[k] == matchers[k] else matchers[k] == ""
  {
  }

  method Matches(s: Silence, labels: Labels) returns (r: bool)
    ensures r <==> Covers(s.matchers, labels)
  {
    if |s.matchers| == 0 {
      return false;
    }
    var todo := s.matchers.Keys;
    while todo != {}
      invariant todo <= s.matchers.Keys
      invariant forall k :: k in s.matchers.Keys - todo ==> Label(labels, k) == s.matchers[k]
      decreases todo
    {
      var k :| k in todo;
      if Label(labels, k) != s.matchers[k] {
        return false;
      }
      todo := todo - {k};
    }
    return true;
  }

  /** Every matcher is a label of the alert, as documented. */
  ghost predicate AllPresent(matchers: Labels, labels: Labels) {
    matchers != map[] && forall k :: k in matchers ==> k in labels && labels[k] == matchers[k]
  }

  /** The documented rule and the code agree on all labels exactly when no
      matcher asks for an empty value. */
  lemma {:induction false} PresenceIff(matchers: Labels)
    ensures (forall labels :: Covers(matchers, labels) <==> AllPresent(matchers, labels))
            <==> forall k :: k in matchers ==> matchers[k] != ""
  {
    if k :| k in matchers && matchers[k] == "" {
      var labels := matchers - {k};
      assert Covers(matchers, labels) && !AllPresent(matchers, labels);
    }
  }

  ghost predicate IsSilenced(silences: map<string, Silence>, t: int, labels: Labels) {
    exists id :: id in silences && ActiveAt(silences[id], t) && Covers(silences[id].matchers, labels)
  }

  class SilenceStore {
    var silences: map<string, Silence>

    constructor ()
      ensures silences == map[]
    {
      silences := map[];
    }

    method Add(s: Silence)
      modifies this
      ensures silences == old(silences)[s.id := s]
    {
      silences := silences[s.id := s];
    }

    method Remove(id: string)
      modifies this
      ensures silences == old(silences) - {id}
    {
      silences := silences - {id};
    }

    method Silenced(t: int, labels: Labels) returns (r: bool)
      ensures r <==> IsSilenced(silences, t, labels)
    {
      var todo := silences.Keys;
      while todo != {}
        invariant todo <= silences.Keys
        invariant forall id :: id in silences.Keys - todo ==>
                    !(ActiveAt(silences[id], t) && Covers(silences[id].matchers, labels))
        decreases todo
      {
        var id :| id in todo;
        if ActiveAt(silences[id], t) {
          var m := Matches(silences[id], labels);
          if m {
            return true;
          }
        }
        todo := todo - {id};
      }
      return false;
    }
  }

  // ----- The manager

  datatype Key = Key(ruleId: string, labels: Labels)
  type Records = map<Key, Record>

  function RecordOf(records: Records, k: Key): Record {
    if k in records then records[k] else FRESH
  }

  /** An evaluation's effect on all alerts, and whether it transitioned. */
  function Evaluated(records: Records, k: Key, e: Eval): (Records, bool) {
    var (r, notify) := Next(RecordOf(records, k), e);
    (records[k := r], notify)
  }

  lemma UpdateTwice(records: Records, k: Key, a: Record, b: Record)
    ensures records[k := a][k := b] == records[k := b]
  {
  }

  class Manager {
    const silences: SilenceStore
    var alerts: map<Key, Alert>

    ghost predicate Valid()
      reads this
    {
      forall j, k :: j in alerts && k in alerts && alerts[j] == alerts[k] ==> j == k
    }

    /** The alerts are in the states `records` says. */
    ghost predicate Holds(records: Records)
      reads this, alerts.Values
    {
      alerts.Keys == records.Keys && forall k :: k in alerts ==> alerts[k].View() == records[k]
    }

    constructor (silences: SilenceStore)
      ensures Valid() && Holds(map[]) && alerts == map[] && this.silences == silences
    {
      this.silences := silences;
      alerts := map[];
    }

    /** Advances one alert; a silence can only hold back the notification. */
    method Evaluate(k: Key, e: Eval, ghost records: Records) returns (alert: Alert, notify: bool)
      requires Valid() && Holds(records)
      modifies this, alerts.Values
      ensures Valid() && Holds(Evaluated(records, k, e).0)
      ensures k in alerts && alerts[k] == alert
      ensures notify <==> Evaluated(records, k, e).1 && !IsSilenced(silences.silences, e.now, k.labels)
      ensures silences.silences == old(silences.silences)
      ensures forall a :: a in alerts.Values ==> a in old(alerts.Values) || fresh(a)
    {
      var transitioned;
      alert, transitioned := Advance(k, e, records);
      if !transitioned {
        return alert, false;
      }
      var silenced := silences.Silenced(e.now, k.labels);
      return alert, !silenced;
    }

    method Advance(k: Key, e: Eval, ghost records: Records) returns (alert: Alert, transitioned: bool)
      requires Valid() && Holds(records)
      modifies this, alerts.Values
      ensures Valid() && Holds(Evaluated(records, k, e).0)
      ensures k in alerts && alerts[k] == alert
      ensures transitioned == Evaluated(records, k, e).1
      ensures forall a :: a in alerts.Values ==> a in old(alerts.Values) || fresh(a)
    {
      alert := Lookup(k, records);
      ghost var known := records[k := RecordOf(records, k)];
      transitioned := AdvanceKnown(k, e, known);
      UpdateTwice(records, k, RecordOf(records, k), alert.View());
    }

    method AdvanceKnown(k: Key, e: Eval, ghost records: Records) returns (transitioned: bool)
      requires Valid() && Holds(records) && k in alerts
      modifies alerts[k]
      ensures Holds(records[k := alerts[k].View()])
      ensures (alerts[k].View(), transitioned) == Next(records[k], e)
    {
      assert forall j :: j in alerts && j != k ==> alerts[j] != alerts[k];
      transitioned := alerts[k].EvaluateFor(e);
    }

    /** The keys of all firing alerts, each once. */
    method ListFiring(ghost records: Records) returns (firing: seq<Key>)
      requires Holds(records)
      ensures forall k :: k in firing <==> k in records && records[k].state == Firing
      ensures forall i, j :: 0 <= i < j < |firing| ==> firing[i] != firing[j]
    {
      firing := [];
      var todo := alerts.Keys;
      while todo != {}
        invariant todo <= alerts.Keys
        invariant forall k :: k in firing <==> k in alerts.Keys - todo && records[k].state == Firing
        invariant forall i, j :: 0 <= i < j < |firing| ==> firing[i] != firing[j]
        decreases todo
      {
        var k :| k in todo;
        assert k !in firing;
        if alerts[k].state == Firing {
          firing := firing + [k];
        }
        todo := todo - {k};
      }
    }

    /** Finds or creates an alert. */
    method Lookup(k: Key, ghost records: Records) returns (alert: Alert)
      requires Valid() && Holds(records)
      modifies this
      ensures Valid() && Holds(records[k := RecordOf(records, k)])
      ensures k in alerts && alerts[k] == alert
      ensures alerts.Keys == old(alerts.Keys) + {k} && alerts.Values == old(alerts.Values) + {alert}
      ensures alert in old(alerts.Values) || fresh(alert)
    {
      if k in alerts {
        alert := alerts[k];
      } else {
        alert := new Alert();
        alerts := alerts[k := alert];
      }
    }
  }
}
