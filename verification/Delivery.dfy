/** Agents, a lossy and delaying network, and the hub as one step system.
    An agent keeps sending its oldest items under a new batch id until a
    success response for that very attempt arrives; only then are they
    removed from its buffer. On the hub each request is served by its own
    handler, which first marks the batch id and then receives the batch. */
module Delivery {
  import opened Common
  import opened Schema
  import opened FlatLog
  import opened EventStore
  import opened Ingest

  datatype Attempt = Idle | Waiting(batchId: string, items: seq<Item>)

  /** `all` are the items ever appended, `used` all batch ids drawn so far,
      `acked` all items removed after a success response. */
  datatype Agent = Agent(
    buffer: seq<Item>, next: nat, attempt: Attempt, used: set<string>, all: set<Item>, acked: set<Item>)

  datatype Reply = Reply(hostId: string, batchId: string, ok: bool)

  /** Batches and the items they were made of. */
  type Contents = map<Batch, seq<Item>>

  /** `issued` are all batches ever sent. */
  datatype State = State(
    agents: map<string, Agent>, requests: set<Request>, replies: set<Reply>, issued: Contents, hub: HubState)

  /** Whether the network may deliver a request again, whether a receive may
      fail as a whole (its context cancelled), and whether the hub may stop. */
  datatype Config = Config(replay: bool, receiveFails: bool, hubStops: bool)

  /** `Stray` is a request whose batch names another host than its token. */
  datatype Step =
    | Append(host: string, item: Item)
    | Discard(host: string, gone: set<nat>)
    | Send(host: string, count: nat, batchId: string)
    | GiveUp(host: string)
    | RestartAgent(host: string)
    | AckReply(host: string)
    | Stray(request: Request)
    | Mark(request: Request, again: bool)
    | Receive(request: Request, ending: Ending)
    | LoseRequest(request: Request)
    | LoseReply(reply: Reply)
    | RestartHub

  predicate OfAgent(step: Step) {
    step.Append? || step.Discard? || step.Send? || step.GiveUp? || step.RestartAgent? || step.AckReply?
  }

  ghost predicate Enabled(cfg: Config, s: State, step: Step) {
    && (OfAgent(step) ==> step.host in s.agents)
    && match step
       case Append(h, it) => it.seqNo == s.agents[h].next + 1
       case Discard(h, gone) =>
         forall it :: it in s.agents[h].buffer && it.seqNo in gone ==> it.priority != EventPriority
       case Send(h, n, id) =>
         && s.agents[h].attempt.Idle? && 0 < n <= |s.agents[h].buffer|
         && ProperId(id) && id !in s.agents[h].used
       case AckReply(h) =>
         && s.agents[h].attempt.Waiting?
         && Reply(h, s.agents[h].attempt.batchId, true) in s.replies
       case Stray(q) => q.tokenHost != q.batch.hostId
       case Mark(q, again) => q in s.requests && (again ==> cfg.replay)
       case Receive(q, ending) =>
         && q in s.hub.handlers
         && (ending.Cancelled? ==> cfg.receiveFails) && (ending.Died? ==> cfg.hubStops)
       case RestartHub => cfg.hubStops
       case _ => true
  }

  function Appended(a: Agent, it: Item): Agent {
    a.(buffer := a.buffer + [it], next := a.next + 1, all := a.all + {it})
  }

  function Sending(a: Agent, id: string, n: nat): Agent
    requires n <= |a.buffer|
  {
    a.(attempt := Waiting(id, a.buffer[..n]), used := a.used + {id})
  }

  /** A restarted agent numbers on from the last item it still has. */
  function Restarted(a: Agent): Agent {
    a.(attempt := Idle, next := LastSeq(a.buffer))
  }

  /** The buffer's Ack up to the last item sent. */
  function Acknowledged(a: Agent): Agent
    requires a.attempt.Waiting?
  {
    var last := LastSeq(a.attempt.items);
    var removed := set it | it in a.buffer && it.seqNo <= last;
    a.(buffer := Keep(a.buffer, last, {}), attempt := Idle, acked := a.acked + removed)
  }

  function WithAgent(s: State, h: string, a: Agent): State {
    s.(agents := s.agents[h := a])
  }

  /** The replies with the hub's answer, if it gave one. */
  function Answered(replies: set<Reply>, q: Request, answer: Option<Status>): set<Reply> {
    match answer
    case None => replies
    case Some(status) => replies + {Reply(q.tokenHost, q.batch.batchId, status.Accepted? || status.Duplicate?)}
  }

  function Marked(s: State, q: Request, again: bool): State {
    var (hub, answer) := BeginStep(s.hub, q);
    s.(hub := hub, requests := if again then s.requests else s.requests - {q},
       replies := Answered(s.replies, q, answer))
  }

  function Finished(s: State, q: Request, ending: Ending): State {
    var (hub, answer) := FinishStep(s.hub, q, ending);
    s.(hub := hub, replies := Answered(s.replies, q, answer))
  }

  function Apply(s: State, step: Step): State
    requires OfAgent(step) ==> step.host in s.agents
    requires step.Send? ==> step.count <= |s.agents[step.host].buffer|
    requires step.AckReply? ==> s.agents[step.host].attempt.Waiting?
  {
    match step
    case Append(h, it) => WithAgent(s, h, Appended(s.agents[h], it))
    case Discard(h, gone) => WithAgent(s, h, s.agents[h].(buffer := Keep(s.agents[h].buffer, 0, gone)))
    case Send(h, n, id) =>
      var items := s.agents[h].buffer[..n];
      var b := Packed(id, h, items);
      WithAgent(s, h, Sending(s.agents[h], id, n)).(requests := s.requests + {Request(h, b)},
                                                           issued := s.issued[b := items])
    case GiveUp(h) => WithAgent(s, h, s.agents[h].(attempt := Idle))
    case RestartAgent(h) => WithAgent(s, h, Restarted(s.agents[h]))
    case AckReply(h) => WithAgent(s, h, Acknowledged(s.agents[h]))
    case Stray(q) => s.(requests := s.requests + {q})
    case Mark(q, again) => Marked(s, q, again)
    case Receive(q, ending) => Finished(s, q, ending)
    case LoseRequest(q) => s.(requests := s.requests - {q})
    case LoseReply(r) => s.(replies := s.replies - {r})
    case RestartHub => s.(hub := HubState({}, {}, s.hub.receipts))
  }

  // ----- The invariant

  ghost predicate SameBatch(a: Batch, b: Batch) {
    a.hostId == b.hostId && a.batchId == b.batchId
  }

  function KeyOf(b: Batch): string {
    SeenKey(b.hostId, b.batchId)
  }

  /** A batch with this name was received. */
  ghost predicate ReceivedAs(receipts: seq<Receipt>, host: string, id: string) {
    exists k :: 0 <= k < |receipts| && receipts[k].complete
                && receipts[k].request.batch.hostId == host && receipts[k].request.batch.batchId == id
  }

  /** The item itself, and not only one with an equal payload, was sent in
      the batch. */
  ghost predicate SentIn(issued: Contents, b: Batch, it: Item) {
    b in issued && it in issued[b]
  }

  /** The item was in a batch whose receive succeeded. */
  ghost predicate Received(issued: Contents, receipts: seq<Receipt>, host: string, it: Item) {
    exists k :: 0 <= k < |receipts| && receipts[k].complete
                && receipts[k].request.batch.hostId == host && SentIn(issued, receipts[k].request.batch, it)
  }

  ghost predicate UnderWayAs(handlers: set<Request>, host: string, id: string) {
    exists q :: q in handlers && q.batch.hostId == host && q.batch.batchId == id
  }

  /** The item is in a batch that is being received. */
  ghost predicate UnderWay(issued: Contents, handlers: set<Request>, host: string, it: Item) {
    exists q :: q in handlers && q.batch.hostId == host && SentIn(issued, q.batch, it)
  }

  ghost predicate IssuedAs(issued: Contents, b: Batch, items: seq<Item>) {
    b in issued && issued[b] == items
  }

  ghost predicate AgentOk(h: string, a: Agent, issued: Contents) {
    && WellFormed(a.buffer, a.next)
    && (forall it :: it in a.all && it.priority == EventPriority ==> it in a.buffer || it in a.acked)
    && (a.attempt.Waiting? ==>
          && a.attempt.items != [] && LastSeq(a.attempt.items) <= a.next
          && IssuedAs(issued, Packed(a.attempt.batchId, h, a.attempt.items), a.attempt.items)
          && forall it :: it in a.buffer && it.seqNo <= LastSeq(a.attempt.items) ==> it in a.attempt.items)
  }

  /** A batch name stands for one batch, drawn by the agent it names and
      packed from the items kept with it. */
  ghost predicate IssuedOk(s: State) {
    && (forall a, b :: a in s.issued && b in s.issued && SameBatch(a, b) ==> a == b)
    && (forall b :: b in s.issued ==>
          && ProperId(b.batchId) && b.hostId in s.agents && b.batchId in s.agents[b.hostId].used
          && b == Packed(b.batchId, b.hostId, s.issued[b]))
  }

  /** The batch names the host whose token it was sent with. */
  ghost predicate Own(q: Request) {
    q.tokenHost == q.batch.hostId
  }

  ghost predicate Traffic(s: State) {
    && (forall q :: q in s.requests && Own(q) ==> q.batch in s.issued)
    && (forall q :: q in s.hub.handlers ==> Own(q) && q.batch in s.issued)
    && (forall k :: 0 <= k < |s.hub.receipts| ==> s.hub.receipts[k].request.batch in s.issued)
    && (forall k :: k in s.hub.seen ==> exists b :: b in s.issued && KeyOf(b) == k)
  }

  /** A name marked as seen is not on its way to the hub again. */
  ghost predicate NeverResent(s: State) {
    forall q :: q in s.requests && Own(q) ==> KeyOf(q.batch) !in s.hub.seen
  }

  /** A name marked as seen was received or is being received. */
  ghost predicate SeenHeld(s: State) {
    forall b :: b in s.issued && KeyOf(b) in s.hub.seen ==>
      ReceivedAs(s.hub.receipts, b.hostId, b.batchId) || UnderWayAs(s.hub.handlers, b.hostId, b.batchId)
  }

  ghost predicate Dedup(cfg: Config, s: State) {
    if cfg.replay then SeenHeld(s) else NeverResent(s)
  }

  /** What a success response stands for. */
  ghost predicate AnswersOk(cfg: Config, s: State) {
    forall r :: r in s.replies && r.ok ==>
      || ReceivedAs(s.hub.receipts, r.hostId, r.batchId)
      || (cfg.replay && UnderWayAs(s.hub.handlers, r.hostId, r.batchId))
  }

  ghost predicate AckedOk(cfg: Config, s: State) {
    forall h, it :: h in s.agents && it in s.agents[h].acked ==>
      Received(s.issued, s.hub.receipts, h, it) || (cfg.replay && UnderWay(s.issued, s.hub.handlers, h, it))
  }

  ghost predicate Inv(cfg: Config, s: State) {
    && (forall h :: h in s.agents ==> AgentOk(h, s.agents[h], s.issued))
    && IssuedOk(s) && Traffic(s) && Dedup(cfg, s) && AnswersOk(cfg, s) && AckedOk(cfg, s)
  }

  ghost predicate Starting(a: Agent) {
    && WellFormed(a.buffer, a.next)
    && a.attempt.Idle? && a.used == {} && a.acked == {}
    && a.all == set it | it in a.buffer
  }

  ghost predicate Init(s: State) {
    && s.requests == {} && s.replies == {} && s.issued == map[] && s.hub == HubState({}, {}, [])
    && forall h :: h in s.agents ==> Starting(s.agents[h])
  }

  // ----- Steps of an agent

  lemma {:induction false} AppendOk(h: string, a: Agent, issued: Contents, it: Item)
    requires AgentOk(h, a, issued) && it.seqNo == a.next + 1
    ensures AgentOk(h, Appended(a, it), issued)
  {
    ExtendWellFormed(a.buffer, a.next, it);
    assert forall x :: x in a.buffer + [it] <==> x in a.buffer || x == it;
  }

  lemma {:induction false} DiscardOk(h: string, a: Agent, issued: Contents, gone: set<nat>)
    requires AgentOk(h, a, issued)
    requires forall it :: it in a.buffer && it.seqNo in gone ==> it.priority != EventPriority
    ensures AgentOk(h, a.(buffer := Keep(a.buffer, 0, gone)), issued)
  {
    KeepWellFormed(a.buffer, a.next, 0, gone);
    forall it ensures it in Keep(a.buffer, 0, gone) <==> it in a.buffer && it.seqNo > 0 && it.seqNo !in gone {
      KeepMember(a.buffer, 0, gone, it);
    }
  }

  lemma {:induction false} RestartOk(h: string, a: Agent, issued: Contents)
    requires AgentOk(h, a, issued)
    ensures AgentOk(h, Restarted(a), issued)
  {
    LastSeqBounds(a.buffer, a.next);
  }

  lemma {:induction false} AckOk(h: string, a: Agent, issued: Contents)
    requires AgentOk(h, a, issued) && a.attempt.Waiting?
    ensures AgentOk(h, Acknowledged(a), issued)
  {
    var last := LastSeq(a.attempt.items);
    KeepWellFormed(a.buffer, a.next, last, {});
    forall it ensures it in Keep(a.buffer, last, {}) <==> it in a.buffer && it.seqNo > last {
      KeepMember(a.buffer, last, {}, it);
    }
  }

  lemma {:induction false} SentOk(h: string, a: Agent, issued: Contents, n: nat, id: string)
    requires AgentOk(h, a, issued) && 0 < n <= |a.buffer|
    ensures AgentOk(h, Sending(a, id, n), issued[Packed(id, h, a.buffer[..n]) := a.buffer[..n]])
  {
    var items := a.buffer[..n];
    assert LastSeq(items) == a.buffer[n - 1].seqNo;
    forall it | it in a.buffer && it.seqNo <= LastSeq(items) ensures it in items {
      var i :| 0 <= i < |a.buffer| && a.buffer[i] == it;
      assert i < n;
      assert items[i] == it;
    }
  }

  /** Changing one agent keeps everything but what concerns that agent. */
  lemma {:induction false} OneAgent(cfg: Config, s: State, h: string, a: Agent)
    requires Inv(cfg, s) && h in s.agents && AgentOk(h, a, s.issued)
    requires s.agents[h].used <= a.used
    requires forall it :: it in a.acked ==>
               Received(s.issued, s.hub.receipts, h, it) || (cfg.replay && UnderWay(s.issued, s.hub.handlers, h, it))
    ensures Inv(cfg, WithAgent(s, h, a))
  {
    var s' := WithAgent(s, h, a);
    assert Traffic(s') && Dedup(cfg, s') && AnswersOk(cfg, s');
    assert IssuedOk(s');
  }

  lemma {:induction false} SameAcked(cfg: Config, s: State, h: string, a: Agent)
    requires Inv(cfg, s) && h in s.agents && AgentOk(h, a, s.issued)
    requires s.agents[h].used == a.used && s.agents[h].acked == a.acked
    ensures Inv(cfg, WithAgent(s, h, a))
  {
    OneAgent(cfg, s, h, a);
  }

  /** Two issued batches with one key are one batch. */
  lemma {:induction false} KeyNames(s: State, a: Batch, b: Batch)
    requires IssuedOk(s) && a in s.issued && ProperId(b.batchId) && KeyOf(a) == KeyOf(b)
    ensures SameBatch(a, b)
  {
    SeenKeyInjective(a.hostId, a.batchId, b.hostId, b.batchId);
  }

  /** The hub has not seen a name never used before. */
  lemma {:induction false} FreshUnseen(s: State, b: Batch)
    requires IssuedOk(s) && Traffic(s) && ProperId(b.batchId)
    requires b.hostId in s.agents && b.batchId !in s.agents[b.hostId].used
    ensures KeyOf(b) !in s.hub.seen
  {
    if KeyOf(b) in s.hub.seen {
      var a :| a in s.issued && KeyOf(a) == KeyOf(b);
      KeyNames(s, a, b);
    }
  }

  function Issue(s: State, b: Batch, items: seq<Item>): State
    requires b.hostId in s.agents
  {
    var a := s.agents[b.hostId];
    WithAgent(s, b.hostId, a.(used := a.used + {b.batchId})).(requests := s.requests + {Request(b.hostId, b)},
                                                              issued := s.issued[b := items])
  }

  /** What was sent stays sent. */
  lemma {:induction false} IssuedGrows(s: State, b: Batch, items: seq<Item>)
    requires b !in s.issued
    ensures forall h, it :: Received(s.issued, s.hub.receipts, h, it) ==>
              Received(s.issued[b := items], s.hub.receipts, h, it)
    ensures forall h, it :: UnderWay(s.issued, s.hub.handlers, h, it) ==>
              UnderWay(s.issued[b := items], s.hub.handlers, h, it)
  {
    var more := s.issued[b := items];
    forall h, it | Received(s.issued, s.hub.receipts, h, it) ensures Received(more, s.hub.receipts, h, it) {
      var k :| 0 <= k < |s.hub.receipts| && s.hub.receipts[k].complete
               && s.hub.receipts[k].request.batch.hostId == h && SentIn(s.issued, s.hub.receipts[k].request.batch, it);
      assert SentIn(more, s.hub.receipts[k].request.batch, it);
    }
    forall h, it | UnderWay(s.issued, s.hub.handlers, h, it) ensures UnderWay(more, s.hub.handlers, h, it) {
      var q :| q in s.hub.handlers && q.batch.hostId == h && SentIn(s.issued, q.batch, it);
      assert SentIn(more, q.batch, it);
    }
  }

  /** A batch under a name never used before joins the traffic. */
  lemma {:induction false} FreshBatch(cfg: Config, s: State, b: Batch, items: seq<Item>)
    requires Inv(cfg, s) && b.hostId in s.agents && ProperId(b.batchId) && b.batchId !in s.agents[b.hostId].used
    requires b == Packed(b.batchId, b.hostId, items)
    ensures Inv(cfg, Issue(s, b, items))
  {
    var s' := Issue(s, b, items);
    FreshIssued(s, b, items);
    FreshUnseen(s, b);
    assert Dedup(cfg, s') && Traffic(s') && AnswersOk(cfg, s');
    FreshAcked(cfg, s, b, items);
    forall h | h in s'.agents ensures AgentOk(h, s'.agents[h], s'.issued) {
      assert AgentOk(h, s.agents[h], s.issued);
    }
  }

  lemma {:induction false} FreshIssued(s: State, b: Batch, items: seq<Item>)
    requires IssuedOk(s) && b.hostId in s.agents && ProperId(b.batchId) && b.batchId !in s.agents[b.hostId].used
    requires b == Packed(b.batchId, b.hostId, items)
    ensures b !in s.issued && IssuedOk(Issue(s, b, items))
  {
    assert forall x :: x in s.issued ==> !SameBatch(x, b);
  }

  lemma {:induction false} FreshAcked(cfg: Config, s: State, b: Batch, items: seq<Item>)
    requires AckedOk(cfg, s) && b.hostId in s.agents && b !in s.issued
    ensures AckedOk(cfg, Issue(s, b, items))
  {
    IssuedGrows(s, b, items);
  }

  lemma {:induction false} IssueThenWait(s: State, h: string, b: Batch, items: seq<Item>, a: Agent)
    requires h in s.agents && b.hostId == h
    ensures WithAgent(Issue(s, b, items), h, a)
         == WithAgent(s, h, a).(requests := s.requests + {Request(h, b)},
                                                           issued := s.issued[b := items])
  {
  }

  lemma {:induction false} SendStep(cfg: Config, s: State, h: string, n: nat, id: string)
    requires Inv(cfg, s) && Enabled(cfg, s, Send(h, n, id))
    ensures Inv(cfg, Apply(s, Send(h, n, id)))
  {
    var a := s.agents[h];
    var items := a.buffer[..n];
    var b := Packed(id, h, items);
    PackedCarries(id, h, items);
    SentOk(h, a, s.issued, n, id);
    FreshBatch(cfg, s, b, items);
    IssueThenWait(s, h, b, items, Sending(a, id, n));
    SameAcked(cfg, Issue(s, b, items), h, Sending(a, id, n));
  }

  /** A success response means that every item the agent may now remove was
      received or, on a replaying network, is being received. */
  lemma {:induction false} ReplyMeansReceived(cfg: Config, s: State, h: string, it: Item)
    requires Inv(cfg, s) && Enabled(cfg, s, AckReply(h))
    requires it in s.agents[h].buffer && it.seqNo <= LastSeq(s.agents[h].attempt.items)
    ensures Received(s.issued, s.hub.receipts, h, it) || (cfg.replay && UnderWay(s.issued, s.hub.handlers, h, it))
  {
    var a := s.agents[h];
    var b := Packed(a.attempt.batchId, h, a.attempt.items);
    PackedCarries(a.attempt.batchId, h, a.attempt.items);
    var receipts := s.hub.receipts;
    if ReceivedAs(receipts, h, a.attempt.batchId) {
      var k :| 0 <= k < |receipts| && receipts[k].complete
               && receipts[k].request.batch.hostId == h && receipts[k].request.batch.batchId == a.attempt.batchId;
      assert SameBatch(receipts[k].request.batch, b);
      assert SentIn(s.issued, receipts[k].request.batch, it);
    } else {
      var q :| q in s.hub.handlers && q.batch.hostId == h && q.batch.batchId == a.attempt.batchId;
      assert SameBatch(q.batch, b);
      assert SentIn(s.issued, q.batch, it);
    }
  }

  lemma {:induction false} AckStep(cfg: Config, s: State, h: string)
    requires Inv(cfg, s) && Enabled(cfg, s, AckReply(h))
    ensures Inv(cfg, Apply(s, AckReply(h)))
  {
    var a := s.agents[h];
    AckOk(h, a, s.issued);
    forall it | it in Acknowledged(a).acked
      ensures Received(s.issued, s.hub.receipts, h, it) || (cfg.replay && UnderWay(s.issued, s.hub.handlers, h, it))
    {
      if it !in a.acked {
        ReplyMeansReceived(cfg, s, h, it);
      }
    }
    OneAgent(cfg, s, h, Acknowledged(a));
  }

  // ----- Steps of the network and the hub

  /** A duplicate answer without replays never happens; with replays it is
      given for a batch that was received or is being received. */
  lemma {:induction false} DuplicateMeansHeld(cfg: Config, s: State, q: Request)
    requires Inv(cfg, s) && q in s.requests && Own(q) && KeyOf(q.batch) in s.hub.seen
    ensures cfg.replay
    ensures || ReceivedAs(s.hub.receipts, q.batch.hostId, q.batch.batchId)
            || UnderWayAs(s.hub.handlers, q.batch.hostId, q.batch.batchId)
  {
  }

  lemma {:induction false} MarkDuplicate(cfg: Config, s: State, q: Request, again: bool)
    requires Inv(cfg, s) && q in s.requests && Own(q) && KeyOf(q.batch) in s.hub.seen
    ensures Inv(cfg, s.(requests := if again then s.requests else s.requests - {q},
                        replies := s.replies + {Reply(q.batch.hostId, q.batch.batchId, true)}))
  {
    DuplicateMeansHeld(cfg, s, q);
  }

  /** A request that is not its token's own is refused and changes nothing
      but the traffic. */
  lemma {:induction false} MarkStray(cfg: Config, s: State, q: Request, again: bool)
    requires Inv(cfg, s) && q in s.requests && !Own(q)
    ensures Inv(cfg, s.(requests := if again then s.requests else s.requests - {q},
                        replies := s.replies + {Reply(q.tokenHost, q.batch.batchId, false)}))
  {
  }

  lemma {:induction false} OthersUnseen(s: State, q: Request)
    requires IssuedOk(s) && Traffic(s) && NeverResent(s) && q in s.requests && Own(q)
    ensures forall x :: x in s.requests - {q} && Own(x) ==> KeyOf(x.batch) !in s.hub.seen + {KeyOf(q.batch)}
  {
    forall x | x in s.requests - {q} && Own(x) ensures KeyOf(x.batch) != KeyOf(q.batch) {
      if KeyOf(x.batch) == KeyOf(q.batch) {
        KeyNames(s, x.batch, q.batch);
      }
    }
  }

  /** Handlers only grow, and so does what is under way. */
  lemma {:induction false} MoreHandlers(issued: Contents, handlers: set<Request>, q: Request)
    ensures forall h, id :: UnderWayAs(handlers, h, id) ==> UnderWayAs(handlers + {q}, h, id)
    ensures forall h, it :: UnderWay(issued, handlers, h, it) ==> UnderWay(issued, handlers + {q}, h, it)
    ensures UnderWayAs(handlers + {q}, q.batch.hostId, q.batch.batchId)
  {
    assert q in handlers + {q};
    forall h, id | UnderWayAs(handlers, h, id) ensures UnderWayAs(handlers + {q}, h, id) {
      var x :| x in handlers && x.batch.hostId == h && x.batch.batchId == id;
      assert x in handlers + {q};
    }
    forall h, it | UnderWay(issued, handlers, h, it) ensures UnderWay(issued, handlers + {q}, h, it) {
      var x :| x in handlers && x.batch.hostId == h && SentIn(issued, x.batch, it);
      assert x in handlers + {q};
    }
  }

  function NewlyMarked(s: State, q: Request, again: bool): State {
    s.(hub := s.hub.(seen := s.hub.seen + {KeyOf(q.batch)}, handlers := s.hub.handlers + {q}),
       requests := if again then s.requests else s.requests - {q})
  }

  lemma {:induction false} MarkNewDedup(cfg: Config, s: State, q: Request, again: bool)
    requires Inv(cfg, s) && q in s.requests && Own(q) && (again ==> cfg.replay)
    ensures Dedup(cfg, NewlyMarked(s, q, again))
  {
    var s', b := NewlyMarked(s, q, again), q.batch;
    if cfg.replay {
      MoreHandlers(s.issued, s.hub.handlers, q);
      forall x | x in s.issued && KeyOf(x) in s'.hub.seen
        ensures ReceivedAs(s.hub.receipts, x.hostId, x.batchId) || UnderWayAs(s'.hub.handlers, x.hostId, x.batchId)
      {
        if KeyOf(x) == KeyOf(b) {
          KeyNames(s, x, b);
        }
      }
    } else {
      OthersUnseen(s, q);
    }
  }

  lemma {:induction false} MarkNew(cfg: Config, s: State, q: Request, again: bool)
    requires Inv(cfg, s) && q in s.requests && Own(q) && (again ==> cfg.replay)
    ensures Inv(cfg, NewlyMarked(s, q, again))
  {
    var s' := NewlyMarked(s, q, again);
    MarkNewDedup(cfg, s, q, again);
    MoreHandlers(s.issued, s.hub.handlers, q);
    assert IssuedOk(s') && Traffic(s');
    assert AnswersOk(cfg, s');
    assert AckedOk(cfg, s');
  }

  lemma {:induction false} MarkStep(cfg: Config, s: State, q: Request, again: bool)
    requires Inv(cfg, s) && Enabled(cfg, s, Mark(q, again))
    ensures Inv(cfg, Marked(s, q, again))
  {
    if !Own(q) {
      MarkStray(cfg, s, q, again);
    } else {
      assert ProperId(q.batch.batchId);
      if KeyOf(q.batch) in s.hub.seen {
        MarkDuplicate(cfg, s, q, again);
      } else {
        MarkNew(cfg, s, q, again);
      }
    }
  }

  /** More receipts keep what was received. */
  lemma {:induction false} ReceiptsGrow(issued: Contents, receipts: seq<Receipt>, r: Receipt)
    ensures forall h, id :: ReceivedAs(receipts, h, id) ==> ReceivedAs(receipts + [r], h, id)
    ensures forall h, it :: Received(issued, receipts, h, it) ==> Received(issued, receipts + [r], h, it)
    ensures var b := r.request.batch;
            r.complete ==>
              && ReceivedAs(receipts + [r], b.hostId, b.batchId)
              && forall it :: SentIn(issued, b, it) ==> Received(issued, receipts + [r], b.hostId, it)
  {
    var more := receipts + [r];
    assert more[|receipts|] == r;
    forall h, id | ReceivedAs(receipts, h, id) ensures ReceivedAs(more, h, id) {
      var k :| 0 <= k < |receipts| && receipts[k].complete
               && receipts[k].request.batch.hostId == h && receipts[k].request.batch.batchId == id;
      assert more[k] == receipts[k];
    }
    forall h, it | Received(issued, receipts, h, it) ensures Received(issued, more, h, it) {
      var k :| 0 <= k < |receipts| && receipts[k].complete
               && receipts[k].request.batch.hostId == h && SentIn(issued, receipts[k].request.batch, it);
      assert more[k] == receipts[k];
    }
  }

  /** What was under way still is, or was received with `b`. */
  lemma {:induction false} HandlerDone(issued: Contents, handlers: set<Request>, receipts: seq<Receipt>, q: Request,
                                       failing: set<nat>)
    ensures var more := receipts + [Receipt(q, failing, true)];
            && (forall h, id :: UnderWayAs(handlers, h, id) ==>
                  UnderWayAs(handlers - {q}, h, id) || ReceivedAs(more, h, id))
            && (forall h, it :: UnderWay(issued, handlers, h, it) ==>
                  UnderWay(issued, handlers - {q}, h, it) || Received(issued, more, h, it))
  {
    ReceiptsGrow(issued, receipts, Receipt(q, failing, true));
    forall h, id | UnderWayAs(handlers, h, id)
      ensures UnderWayAs(handlers - {q}, h, id) || ReceivedAs(receipts + [Receipt(q, failing, true)], h, id)
    {
      var x :| x in handlers && x.batch.hostId == h && x.batch.batchId == id;
      assert x != q ==> x in handlers - {q};
    }
    forall h, it | UnderWay(issued, handlers, h, it)
      ensures UnderWay(issued, handlers - {q}, h, it) || Received(issued, receipts + [Receipt(q, failing, true)], h, it)
    {
      var x :| x in handlers && x.batch.hostId == h && SentIn(issued, x.batch, it);
      assert x != q ==> x in handlers - {q};
    }
  }

  lemma {:induction false} ReceiveCompleted(cfg: Config, s: State, q: Request, failing: set<nat>)
    requires Inv(cfg, s) && q in s.hub.handlers
    ensures Inv(cfg, Finished(s, q, Completed(failing)))
  {
    var s' := Finished(s, q, Completed(failing));
    ReceiptsGrow(s.issued, s.hub.receipts, Receipt(q, failing, true));
    HandlerDone(s.issued, s.hub.handlers, s.hub.receipts, q, failing);
    assert IssuedOk(s') && Traffic(s');
    assert Dedup(cfg, s');
    assert AnswersOk(cfg, s');
    assert AckedOk(cfg, s');
  }

  /** Losing a handler is harmless without replays. */
  lemma {:induction false} ReceiveFailed(cfg: Config, s: State, q: Request, ending: Ending)
    requires Inv(cfg, s) && q in s.hub.handlers && !cfg.replay && !ending.Completed?
    ensures Inv(cfg, Finished(s, q, ending))
  {
    var s' := Finished(s, q, ending);
    if ending.Died? {
      ReceiptsGrow(s.issued, s.hub.receipts, Receipt(q, ending.failing, false));
    }
    assert IssuedOk(s') && Traffic(s') && Dedup(cfg, s');
    assert AnswersOk(cfg, s');
    assert AckedOk(cfg, s');
  }

  lemma {:induction false} LoseStep(cfg: Config, s: State, step: Step)
    requires Inv(cfg, s) && Enabled(cfg, s, step)
    requires step.Stray? || step.LoseRequest? || step.LoseReply? || (step.RestartHub? && !cfg.replay)
    ensures Inv(cfg, Apply(s, step))
  {
    var s' := Apply(s, step);
    assert IssuedOk(s') && Traffic(s') && AckedOk(cfg, s') && AnswersOk(cfg, s');
    assert Dedup(cfg, s');
  }

  /** Replays may meet a handler that is still receiving, but no handler is
      ever lost. */
  ghost predicate Benign(cfg: Config) {
    !cfg.replay || (!cfg.receiveFails && !cfg.hubStops)
  }

  lemma {:induction false} AgentStep(cfg: Config, s: State, step: Step)
    requires Inv(cfg, s) && Enabled(cfg, s, step) && OfAgent(step)
    ensures Inv(cfg, Apply(s, step))
  {
    var h := step.host;
    match step
    case Append(_, it) =>
      AppendOk(h, s.agents[h], s.issued, it);
      SameAcked(cfg, s, h, Appended(s.agents[h], it));
    case Discard(_, gone) =>
      DiscardOk(h, s.agents[h], s.issued, gone);
      SameAcked(cfg, s, h, s.agents[h].(buffer := Keep(s.agents[h].buffer, 0, gone)));
    case Send(_, n, id) => SendStep(cfg, s, h, n, id);
    case GiveUp(_) => SameAcked(cfg, s, h, s.agents[h].(attempt := Idle));
    case RestartAgent(_) =>
      RestartOk(h, s.agents[h], s.issued);
      SameAcked(cfg, s, h, Restarted(s.agents[h]));
    case AckReply(_) => AckStep(cfg, s, h);
  }

  /** Every step keeps the invariant. */
  lemma {:induction false} StepKeepsInv(cfg: Config, s: State, step: Step)
    requires Inv(cfg, s) && Enabled(cfg, s, step) && Benign(cfg)
    ensures Inv(cfg, Apply(s, step))
  {
    if OfAgent(step) {
      AgentStep(cfg, s, step);
    } else {
      match step
      case Mark(q, again) => MarkStep(cfg, s, q, again);
      case Receive(q, Completed(failing)) => ReceiveCompleted(cfg, s, q, failing);
      case Receive(q, ending) => ReceiveFailed(cfg, s, q, ending);
      case _ => LoseStep(cfg, s, step);
    }
  }

  // ----- Whole runs

  ghost predicate IsRun(cfg: Config, states: seq<State>, steps: seq<Step>) {
    && |states| == |steps| + 1 && Init(states[0])
    && forall i :: 0 <= i < |steps| ==> Enabled(cfg, states[i], steps[i]) && states[i + 1] == Apply(states[i], steps[i])
  }

  lemma {:induction false} RunKeepsInv(cfg: Config, states: seq<State>, steps: seq<Step>, i: nat)
    requires IsRun(cfg, states, steps) && i < |states| && Benign(cfg)
    ensures Inv(cfg, states[i])
  {
    if i > 0 {
      RunKeepsInv(cfg, states, steps, i - 1);
      StepKeepsInv(cfg, states[i - 1], steps[i - 1]);
    }
  }

  /** What the hub works on or has worked on came with the token of the host
      that it names. */
  ghost predicate FromOwnHost(s: State) {
    && (forall q :: q in s.hub.handlers ==> q.batch.hostId == q.tokenHost)
    && forall k :: 0 <= k < |s.hub.receipts| ==>
         s.hub.receipts[k].request.batch.hostId == s.hub.receipts[k].request.tokenHost
  }

  /** On every network and hub, whatever stray requests arrive. */
  lemma {:induction false} RunsStayOwn(cfg: Config, states: seq<State>, steps: seq<Step>, i: nat)
    requires IsRun(cfg, states, steps) && i < |states|
    ensures FromOwnHost(states[i])
  {
    if i > 0 {
      RunsStayOwn(cfg, states, steps, i - 1);
      StepStaysOwn(cfg, states[i - 1], steps[i - 1]);
    }
  }

  lemma {:induction false} StepStaysOwn(cfg: Config, s: State, step: Step)
    requires FromOwnHost(s) && Enabled(cfg, s, step)
    ensures FromOwnHost(Apply(s, step))
  {
  }

  /** Each acknowledged item was in a batch whose receive succeeded, and each
      event ever appended is still buffered or was. */
  ghost predicate Safe(s: State) {
    forall h, it :: h in s.agents ==>
      && (it in s.agents[h].acked ==> Received(s.issued, s.hub.receipts, h, it))
      && (it in s.agents[h].all && it.priority == EventPriority ==>
            it in s.agents[h].buffer || Received(s.issued, s.hub.receipts, h, it))
  }

  /** The same, except that the receive may still be under way. */
  ghost predicate InHand(s: State) {
    forall h, it :: h in s.agents ==>
      && (it in s.agents[h].acked ==>
            Received(s.issued, s.hub.receipts, h, it) || UnderWay(s.issued, s.hub.handlers, h, it))
      && (it in s.agents[h].all && it.priority == EventPriority ==>
            || it in s.agents[h].buffer
            || Received(s.issued, s.hub.receipts, h, it) || UnderWay(s.issued, s.hub.handlers, h, it))
  }

  ghost predicate AlwaysSafe(cfg: Config) {
    forall states, steps, i :: IsRun(cfg, states, steps) && 0 <= i < |states| ==> Safe(states[i])
  }

  ghost predicate AlwaysInHand(cfg: Config) {
    forall states, steps, i :: IsRun(cfg, states, steps) && 0 <= i < |states| ==> InHand(states[i])
  }

  lemma {:induction false} RunsAreSafe(cfg: Config, states: seq<State>, steps: seq<Step>, i: nat)
    requires IsRun(cfg, states, steps) && i < |states| && !cfg.replay
    ensures Safe(states[i])
  {
    RunKeepsInv(cfg, states, steps, i);
  }

  lemma {:induction false} RunsKeepInHand(cfg: Config, states: seq<State>, steps: seq<Step>, i: nat)
    requires IsRun(cfg, states, steps) && i < |states| && Benign(cfg)
    ensures InHand(states[i])
  {
    RunKeepsInv(cfg, states, steps, i);
  }

  /** A received batch has a record of each item sent in it. */
  lemma {:induction false} ReceivedCarries(s: State, h: string, it: Item)
    requires IssuedOk(s) && Received(s.issued, s.hub.receipts, h, it)
    ensures exists k :: 0 <= k < |s.hub.receipts| && s.hub.receipts[k].complete
                        && s.hub.receipts[k].request.batch.hostId == h && Carries(s.hub.receipts[k].request.batch, it)
  {
    var k :| 0 <= k < |s.hub.receipts| && s.hub.receipts[k].complete
             && s.hub.receipts[k].request.batch.hostId == h && SentIn(s.issued, s.hub.receipts[k].request.batch, it);
    var b := s.hub.receipts[k].request.batch;
    PackedCarries(b.batchId, b.hostId, s.issued[b]);
    assert Carries(b, it);
  }

  /** An acknowledged event was carried by a receive that succeeded, and as
      soon as one insert of it did not fail it has exactly one row, however
      often it was resent. */
  lemma {:induction false} AckedEventStoredOnce(cfg: Config, states: seq<State>, steps: seq<Step>, i: nat,
                                                h: string, it: Item)
    requires IsRun(cfg, states, steps) && i < |states| && !cfg.replay
    requires h in states[i].agents && it in states[i].agents[h].acked && it.payload.EventPayload?
    ensures Received(states[i].issued, states[i].hub.receipts, h, it)
    ensures exists k :: 0 <= k < |states[i].hub.receipts| && states[i].hub.receipts[k].complete
                        && states[i].hub.receipts[k].request.batch.hostId == h
                        && Carries(states[i].hub.receipts[k].request.batch, it)
    ensures var receipts, e := states[i].hub.receipts, it.payload.event;
            InsertedBy(receipts, e) && ValidEvent(Wire(e)) ==>
              && (exists n :: OnlyRowAt(Table(Inserts(receipts)), e.id, n))
              && (IdsKeepMonth(Inserts(receipts)) ==>
                    exists n :: OnlyRowAt(Table(OfMonth(Inserts(receipts), e.ts.month)), e.id, n))
  {
    RunsAreSafe(cfg, states, steps, i);
    RunKeepsInv(cfg, states, steps, i);
    ReceivedCarries(states[i], h, it);
    var receipts, e := states[i].hub.receipts, it.payload.event;
    if InsertedBy(receipts, e) && ValidEvent(Wire(e)) {
      StoredExactlyOnce(receipts, e);
    }
  }
}
