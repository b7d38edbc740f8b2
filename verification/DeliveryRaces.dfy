/** Exactly which networks and hubs make delivery safe. */
module DeliveryRaces {
  import opened Common
  import opened FlatLog
  import opened Ingest
  import opened Delivery

  function OneBatch(it: Item): Batch {
    Packed("b", "h", [it])
  }

  function OneRequest(it: Item): Request {
    Request("h", OneBatch(it))
  }

  const NEW_AGENT := Agent([], 0, Idle, {}, {}, {})

  function Holding(it: Item): Agent {
    Agent([it], 1, Idle, {}, {it}, {})
  }

  function Awaiting(it: Item): Agent {
    Agent([it], 1, Waiting("b", [it]), {"b"}, {it}, {})
  }

  function Acked(it: Item): Agent {
    Agent([], 1, Idle, {"b"}, {it}, {it})
  }

  const NEW_HUB := HubState({}, {}, [])

  /** The id is marked and the receive still under way. */
  function MarkedHub(it: Item): HubState {
    HubState({SeenKey("h", "b")}, {OneRequest(it)}, [])
  }

  const SUCCESS := Reply("h", "b", true)

  function Single(a: Agent, requests: set<Request>, replies: set<Reply>, issued: Contents, hub: HubState): State {
    State(map["h" := a], requests, replies, issued, hub)
  }

  /** A replay overtakes the handler of its original: append, send, mark,
      mark again, which is answered as a duplicate, acknowledge. */
  function RaceSteps(it: Item): seq<Step> {
    [Append("h", it), Send("h", 1, "b"), Mark(OneRequest(it), true), Mark(OneRequest(it), false), AckReply("h")]
  }

  function RaceStates(it: Item): seq<State> {
    var q, issued := OneRequest(it), map[OneBatch(it) := [it]];
    [Single(NEW_AGENT, {}, {}, map[], NEW_HUB),
     Single(Holding(it), {}, {}, map[], NEW_HUB),
     Single(Awaiting(it), {q}, {}, issued, NEW_HUB),
     Single(Awaiting(it), {q}, {}, issued, MarkedHub(it)),
     Single(Awaiting(it), {}, {SUCCESS}, issued, MarkedHub(it)),
     Single(Acked(it), {}, {SUCCESS}, issued, MarkedHub(it))]
  }

  lemma {:induction false} RaceAppend(cfg: Config, it: Item)
    requires it.seqNo == 1
    ensures Enabled(cfg, RaceStates(it)[0], Append("h", it))
    ensures Apply(RaceStates(it)[0], Append("h", it)) == RaceStates(it)[1]
  {
    assert Appended(NEW_AGENT, it) == Holding(it);
  }

  lemma {:induction false} RaceSend(cfg: Config, it: Item)
    ensures Enabled(cfg, RaceStates(it)[1], Send("h", 1, "b"))
    ensures Apply(RaceStates(it)[1], Send("h", 1, "b")) == RaceStates(it)[2]
  {
    assert Holding(it).buffer[..1] == [it];
    assert Sending(Holding(it), "b", 1) == Awaiting(it);
    assert ProperId("b");
  }

  lemma {:induction false} RaceMark(cfg: Config, it: Item)
    requires cfg.replay
    ensures Enabled(cfg, RaceStates(it)[2], Mark(OneRequest(it), true))
    ensures Apply(RaceStates(it)[2], Mark(OneRequest(it), true)) == RaceStates(it)[3]
  {
    PackedCarries("b", "h", [it]);
    var none: set<string>, idle: set<Request> := {}, {};
    assert none + {SeenKey("h", "b")} == {SeenKey("h", "b")} && idle + {OneRequest(it)} == {OneRequest(it)};
    assert BeginStep(NEW_HUB, OneRequest(it)) == (MarkedHub(it), None);
  }

  lemma {:induction false} RaceDuplicate(cfg: Config, it: Item)
    ensures Enabled(cfg, RaceStates(it)[3], Mark(OneRequest(it), false))
    ensures Apply(RaceStates(it)[3], Mark(OneRequest(it), false)) == RaceStates(it)[4]
  {
    PackedCarries("b", "h", [it]);
    assert BeginStep(MarkedHub(it), OneRequest(it)) == (MarkedHub(it), Some(Duplicate));
  }

  lemma {:induction false} RaceAck(cfg: Config, it: Item)
    requires it.seqNo == 1
    ensures Enabled(cfg, RaceStates(it)[4], AckReply("h"))
    ensures Apply(RaceStates(it)[4], AckReply("h")) == RaceStates(it)[5]
  {
    assert LastSeq([it]) == 1;
    KeepNothing([it], 1, {});
    assert Acknowledged(Awaiting(it)) == Acked(it);
  }

  lemma {:induction false} RaceStep(cfg: Config, it: Item, i: nat)
    requires cfg.replay && it.seqNo == 1 && i < 5
    ensures Enabled(cfg, RaceStates(it)[i], RaceSteps(it)[i])
    ensures Apply(RaceStates(it)[i], RaceSteps(it)[i]) == RaceStates(it)[i + 1]
  {
    match i
    case 0 => RaceAppend(cfg, it);
    case 1 => RaceSend(cfg, it);
    case 2 => RaceMark(cfg, it);
    case 3 => RaceDuplicate(cfg, it);
    case _ => RaceAck(cfg, it);
  }

  /** On a replaying network any item can be acknowledged while nothing has
      been received. */
  lemma {:induction false} ReplayOvertakes(cfg: Config, it: Item)
    requires cfg.replay && it.seqNo == 1
    ensures IsRun(cfg, RaceStates(it), RaceSteps(it))
    ensures it in RaceStates(it)[5].agents["h"].acked && RaceStates(it)[5].hub.receipts == []
  {
    var states, steps := RaceStates(it), RaceSteps(it);
    assert Init(states[0]);
    forall i | 0 <= i < 5 ensures Enabled(cfg, states[i], steps[i]) && states[i + 1] == Apply(states[i], steps[i]) {
      RaceStep(cfg, it, i);
    }
  }

  /** The handler is then lost: its receive fails or the hub stops. */
  function LastStep(cfg: Config, it: Item): Step {
    if cfg.hubStops then RestartHub else Receive(OneRequest(it), Cancelled)
  }

  /** If a handler can be lost as well, that item is gone for good: it is in
      no buffer, no request, no handler and no receipt. */
  lemma {:induction false} ReplayLosesItem(cfg: Config, it: Item) returns (end: State)
    requires !Benign(cfg) && it.seqNo == 1
    ensures IsRun(cfg, RaceStates(it) + [end], RaceSteps(it) + [LastStep(cfg, it)])
    ensures end.agents == map["h" := Acked(it)] && end.requests == {} && end.hub.handlers == {}
            && end.hub.receipts == []
  {
    ReplayOvertakes(cfg, it);
    var before := RaceStates(it)[5];
    end := Apply(before, LastStep(cfg, it));
    assert MarkedHub(it).handlers - {OneRequest(it)} == {};
    RunSnoc(cfg, RaceStates(it), RaceSteps(it), end, LastStep(cfg, it));
  }

  lemma {:induction false} RunSnoc(cfg: Config, states: seq<State>, steps: seq<Step>, end: State, step: Step)
    requires IsRun(cfg, states, steps) && Enabled(cfg, states[|steps|], step) && end == Apply(states[|steps|], step)
    ensures IsRun(cfg, states + [end], steps + [step])
  {
    var states', steps' := states + [end], steps + [step];
    forall i | 0 <= i < |steps'|
      ensures Enabled(cfg, states'[i], steps'[i]) && states'[i + 1] == Apply(states'[i], steps'[i])
    {
      assert states'[i] == states[i];
      if i < |steps| {
        assert steps'[i] == steps[i] && states'[i + 1] == states[i + 1];
      }
    }
  }

  function SomeItem(): Item {
    Item(1, EventPriority, 0, InventoryPayload(0))
  }

  /** Acknowledged means received, in every state of every run, exactly when
      the network does not replay requests. */
  lemma {:induction false} SafeIff(cfg: Config)
    ensures AlwaysSafe(cfg) <==> !cfg.replay
  {
    if cfg.replay {
      var it := SomeItem();
      ReplayOvertakes(cfg, it);
      assert !Received(RaceStates(it)[5].issued, RaceStates(it)[5].hub.receipts, "h", it);
      assert !Safe(RaceStates(it)[5]);
    } else {
      forall states, steps, i | IsRun(cfg, states, steps) && 0 <= i < |states| ensures Safe(states[i]) {
        RunsAreSafe(cfg, states, steps, i);
      }
    }
  }

  /** Acknowledged means received or being received exactly when the network
      does not replay, or receives never fail and the hub never stops. */
  lemma {:induction false} InHandIff(cfg: Config)
    ensures AlwaysInHand(cfg) <==> !cfg.replay || (!cfg.receiveFails && !cfg.hubStops)
  {
    if Benign(cfg) {
      forall states, steps, i | IsRun(cfg, states, steps) && 0 <= i < |states| ensures InHand(states[i]) {
        RunsKeepInHand(cfg, states, steps, i);
      }
    } else {
      var it := SomeItem();
      var end := ReplayLosesItem(cfg, it);
      var states, steps := RaceStates(it) + [end], RaceSteps(it) + [LastStep(cfg, it)];
      assert states[6] == end && IsRun(cfg, states, steps);
      assert "h" in end.agents && it in end.agents["h"].acked;
      assert !InHand(end);
    }
  }
}
