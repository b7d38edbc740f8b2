/** Draining the buffer (internal/agentbuffer/backfill.go) while other
    goroutines append to it and enforce its capacity. */
module WalBackfill {
  import opened FlatLog
  import opened WalDisk
  import opened WalSegments
  import opened WalBuffer
  import opened WalRuns
  import opened WalDrain

  const DEFAULT_BATCH_SIZE := 200

  function BatchSize(size: int): int {
    if size <= 0 then DEFAULT_BATCH_SIZE else size
  }

  ghost function FlatOf(b: Buffer): Flat
    reads b
  {
    Flat(b.Items(), b.nextSeq)
  }

  /** Others only append and enforce, and the items they append have records
      that read back. */
  ghost predicate Playable(c: Codec, script: seq<Round>) {
    && OthersOnly(script)
    && forall i :: 0 <= i < |script| ==> AllWritable(c, script[i].before) && AllWritable(c, script[i].during)
  }

  ghost predicate AllWritable(c: Codec, ops: seq<Op>) {
    forall i :: 0 <= i < |ops| ==> Writable(c, ops[i])
  }

  lemma {:induction false} ReachesSnoc(c: Codec, a: Flat, ops: seq<Op>, i: nat, m: Flat, b: Flat)
    requires i < |ops| && Reaches(c, a, ops[..i], m) && FlatStep(c, m, ops[i], b)
    ensures Reaches(c, a, ops[..i + 1], b)
  {
    var flats :| FlatRun(c, flats, ops[..i]) && flats[0] == a && flats[i] == m;
    RunSnoc(c, flats, ops[..i], b, ops[i]);
    assert ops[..i + 1] == ops[..i] + [ops[i]];
    assert (flats + [b])[i + 1] == b;
  }

  lemma {:induction false} ReachesNow(c: Codec, a: Flat)
    ensures Reaches(c, a, [], a)
  {
    assert FlatRun(c, [a], []);
  }

  /** Applies what others do. */
  method Interleave(b: Buffer, ops: seq<Op>)
    requires b.Valid() && AllWritable(b.codec, ops) && ByOthers(ops)
    modifies b
    ensures b.Valid() && Reaches(b.codec, old(FlatOf(b)), ops, FlatOf(b))
  {
    ReachesNow(b.codec, FlatOf(b));
    assert ops[..0] == [];
    for i := 0 to |ops|
      invariant b.Valid() && Reaches(b.codec, old(FlatOf(b)), ops[..i], FlatOf(b))
    {
      ghost var m := FlatOf(b);
      Operate(b, ops[i]);
      ReachesSnoc(b.codec, old(FlatOf(b)), ops, i, m, FlatOf(b));
    }
    assert ops[..|ops|] == ops;
  }

  /** Sends a batch and, if that succeeds, acknowledges it. */
  method Deliver(b: Buffer, during: seq<Op>, batch: seq<Item>, succeeds: bool)
    requires b.Valid() && ByOthers(during) && AllWritable(b.codec, during) && batch != []
    modifies b
    ensures b.Valid()
    ensures if succeeds then Acked(b.codec, old(FlatOf(b)), during, LastSeq(batch), FlatOf(b))
            else Reaches(b.codec, old(FlatOf(b)), during, FlatOf(b))
  {
    Interleave(b, during);
    if succeeds {
      ghost var ready := FlatOf(b);
      b.Ack(batch[|batch| - 1].seqNo);
      assert FlatStep(b.codec, ready, DoAck(LastSeq(batch)), FlatOf(b));
    }
  }

  datatype Ending = Goes | Stops(ok: bool)

  /** One round: read the oldest items, send them, acknowledge them. */
  method SendRound(b: Buffer, n: int, round: Round) returns (ending: Ending, batch: seq<Item>)
    requires b.Valid() && n > 0 && ByOthers(round.before) && ByOthers(round.during)
    requires AllWritable(b.codec, round.before) && AllWritable(b.codec, round.during)
    modifies b
    ensures b.Valid()
    ensures ending.Goes? ==> RoundDone(b.codec, n, round, old(FlatOf(b)), batch, FlatOf(b))
    ensures ending.Stops? ==> LastRound(b.codec, round, old(FlatOf(b)), ending.ok, FlatOf(b))
  {
    Interleave(b, round.before);
    if round.outcome == Cancelled {
      return Stops(false), [];
    }
    batch := b.OldestItems(n);
    assert batch == Take(b.Items(), n);
    if |batch| == 0 {
      return Stops(true), [];
    }
    Deliver(b, round.during, batch, round.outcome == Sent);
    return if round.outcome == Sent then Goes else Stops(false), batch;
  }

  lemma {:induction false} RoundsSnoc(c: Codec, n: int, script: seq<Round>, stops: seq<Flat>, sent: seq<seq<Item>>,
                                      batch: seq<Item>, b: Flat)
    requires Rounds(c, n, script, stops, sent)
    requires RoundDone(c, n, RoundAt(script, |sent|), stops[|sent|], batch, b)
    ensures Rounds(c, n, script, stops + [b], sent + [batch])
  {
    var stops', sent' := stops + [b], sent + [batch];
    forall i | 0 <= i < |sent'| ensures RoundDone(c, n, RoundAt(script, i), stops'[i], sent'[i], stops'[i + 1]) {
      assert stops'[i] == stops[i];
      if i < |sent| {
        assert stops'[i + 1] == stops[i + 1] && sent'[i] == sent[i];
      }
    }
  }

  /** With no interference a round removes the batch it sent. */
  lemma {:induction false} QuietShrinks(c: Codec, n: int, a: Flat, batch: seq<Item>, b: Flat)
    requires RoundDone(c, n, QUIET, a, batch, b) && WellFormed(a.items, a.next)
    ensures |b.items| < |a.items|
  {
    var read, ready, gone1, gone2 := RoundSummary(c, n, QUIET, a, batch, b);
    NoChange(a, read);
    NoChange(read, ready);
    PrefixShrinks(a.items, n, a.next);
  }

  lemma {:induction false} NoChange(a: Flat, b: Flat)
    requires Others(a, Numbered(a.next, []), {}, b) && WellFormed(a.items, a.next)
    ensures a == b
  {
    assert a.items + [] == a.items;
    KeepEverything(a.items, 0, {});
  }

  lemma {:induction false} PrefixShrinks(items: seq<Item>, n: int, next: nat)
    requires Take(items, n) != [] && WellFormed(items, next)
    ensures |Keep(items, LastSeq(Take(items, n)), {})| < |items|
  {
    var batch := Take(items, n);
    assert items == batch + items[|batch|..];
    KeepAfterPrefix(batch, items[|batch|..]);
  }

  lemma {:induction false} BatchSizes(c: Codec, n: int, script: seq<Round>, stops: seq<Flat>, sent: seq<seq<Item>>)
    requires Rounds(c, n, script, stops, sent) && n > 0
    ensures forall i :: 0 <= i < |sent| ==> 0 < |sent[i]| <= n
  {
    forall i | 0 <= i < |sent| ensures 0 < |sent[i]| <= n {
      assert RoundDone(c, n, RoundAt(script, i), stops[i], sent[i], stops[i + 1]);
    }
  }

  /** Sends everything buffered, oldest first, one confirmed batch at a time:
      each batch is the oldest items when it was read, and between two flat
      logs nothing happens but what others do and the Ack of that batch. */
  method Backfill(b: Buffer, size: int, script: seq<Round>)
      returns (ok: bool, sent: seq<seq<Item>>, ghost stops: seq<Flat>)
    requires b.Valid() && Playable(b.codec, script)
    modifies b
    ensures b.Valid() && Drained(b.codec, BatchSize(size), script, stops, sent, ok, FlatOf(b))
    ensures stops[0] == old(FlatOf(b))
    ensures ok ==> b.Items() == []
    ensures forall i :: 0 <= i < |sent| ==> 0 < |sent[i]| <= if size > 0 then size else 200
  {
    var n := BatchSize(size);
    sent, stops := [], [FlatOf(b)];
    while true
      invariant b.Valid() && Rounds(b.codec, n, script, stops, sent)
      invariant stops[0] == old(FlatOf(b)) && stops[|sent|] == FlatOf(b)
      decreases if |sent| < |script| then |script| - |sent| else 0, |b.Items()|
    {
      ghost var a := FlatOf(b);
      var round := if |sent| < |script| then script[|sent|] else QUIET;
      var ending, batch := SendRound(b, n, round);
      if ending.Stops? {
        BatchSizes(b.codec, n, script, stops, sent);
        return ending.ok, sent, stops;
      }
      if round == QUIET {
        QuietShrinks(b.codec, n, a, batch, FlatOf(b));
      }
      RoundsSnoc(b.codec, n, script, stops, sent, batch, FlatOf(b));
      sent, stops := sent + [batch], stops + [FlatOf(b)];
    }
  }

  /** A drain that stops and is started again later picks up where it left
      off: in order, without gaps, and without an enforcement what the two
      sent and what is left are exactly what was and came in. */
  method BackfillTwice(b: Buffer, size: int, first: seq<Round>, second: seq<Round>)
      returns (ok1: bool, sent1: seq<seq<Item>>, ok2: bool, sent2: seq<seq<Item>>)
    requires b.Valid() && Playable(b.codec, first) && Playable(b.codec, second)
    modifies b
    ensures b.Valid()
    ensures var ran := Ran(first, |sent1|, ok1) + Ran(second, |sent2|, ok2);
            AccountedFor(old(b.Items()), old(b.nextSeq), ran, Flatten(sent1) + Flatten(sent2), FlatOf(b), false)
  {
    ghost var start, stops1, stops2 := FlatOf(b), [], [];
    ok1, sent1, stops1 := Backfill(b, size, first);
    ghost var middle := FlatOf(b);
    StartAccount(start);
    DrainAccounts(b.codec, BatchSize(size), first, stops1, sent1, ok1, middle, start.items, [], false);
    ok2, sent2, stops2 := Backfill(b, size, second);
    assert [] + Flatten(sent1) == Flatten(sent1);
    DrainAgain(b.codec, BatchSize(size), second, stops2, sent2, ok2, FlatOf(b),
               start.items, start.next, Ran(first, |sent1|, ok1), Flatten(sent1));
  }

  lemma {:induction false} DrainAgain(c: Codec, n: int, script: seq<Round>, stops: seq<Flat>, sent: seq<seq<Item>>,
                                      ok: bool, end: Flat, before: seq<Item>, next: nat, done: seq<Op>,
                                      earlier: seq<Item>)
    requires Drained(c, n, script, stops, sent, ok, end) && OthersOnly(script)
    requires AccountedFor(before, next, done, earlier, stops[0], false)
    ensures AccountedFor(before, next, done + Ran(script, |sent|, ok), earlier + Flatten(sent), end, false)
  {
    var ran := Ran(script, |sent|, ok);
    DrainAccounts(c, n, script, stops, sent, ok, end, before + Numbered(next, done), earlier, Enforces(done));
    Continued(before, next, done, ran, stops[0].next, earlier + Flatten(sent), end);
  }

  lemma {:induction false} Continued(before: seq<Item>, next: nat, done: seq<Op>, ran: seq<Op>, middle: nat,
                                     sent: seq<Item>, end: Flat)
    requires middle == next + |Numbered(next, done)|
    requires AccountedFor(before + Numbered(next, done), middle, ran, sent, end, Enforces(done))
    ensures AccountedFor(before, next, done + ran, sent, end, false)
  {
    ForMore(before, next, done, ran, Numbered(middle, ran), sent, end, false);
  }
}
