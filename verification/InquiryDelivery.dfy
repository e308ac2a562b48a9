/**
 The dispatcher's own loop (apps/api/src/services/inquiryDeliveryService.ts), run
 against a table that other dispatchers change between any two of its statements.
 Every statement is shown to be one step of the Outbox machine.
 */
module InquiryDelivery {
  import opened Common
  import opened Outbox
  import opened OutboxLaws
  import OutboxProgress

  /** What the sender answered; `Skipped` and `NotOk` are turned into errors by the caller. */
  datatype SendResult = Sent | Skipped | NotOk | Threw

  /** What one attempt leaves of a row: delivered, or due again after 1, 5, 30 and then 120 minutes, or dead. */
  function AfterAttempt(row: Row, now: int, sent: SendResult): Row {
    var n := row.attempts + 1;
    var minutes := if n == 1 then 1 else if n == 2 then 5 else if n == 3 then 30 else 120;
    if sent == Sent then row.(state := Delivered, attempts := n, lockedAt := None)
    else if n >= row.maxAttempts then row.(state := DeadLetter, attempts := n, lockedAt := None)
    else row.(state := Retry, attempts := n, lockedAt := None, nextAttemptAt := now + minutes * 60 * 1000)
  }

  /** One attempt at each of these rows, in turn. */
  ghost function AttemptAll(rows: seq<Row>, ids: seq<nat>, now: int, sent: SendResult): (r: seq<Row>)
    requires forall i :: 0 <= i < |ids| ==> ids[i] < |rows|
    ensures |r| == |rows|
  {
    if ids == [] then rows
    else
      var mid, id := AttemptAll(rows, ids[..|ids| - 1], now, sent), ids[|ids| - 1];
      mid[id := AfterAttempt(mid[id], now, sent)]
  }

  lemma {:induction false} AttemptAllAt(rows: seq<Row>, ids: seq<nat>, now: int, sent: SendResult, id: nat)
    requires forall i :: 0 <= i < |ids| ==> ids[i] < |rows|
    requires forall i, j :: 0 <= i < j < |ids| ==> ids[i] < ids[j]
    requires id < |rows|
    ensures AttemptAll(rows, ids, now, sent)[id] == if id in ids then AfterAttempt(rows[id], now, sent) else rows[id]
  {
    if ids != [] {
      var front, last := ids[..|ids| - 1], ids[|ids| - 1];
      AttemptAllAt(rows, front, now, sent, id);
      assert ids == front + [last];
      assert last !in front;
    }
  }

  /** The next row has not been touched yet. */
  lemma NextUntouched(rows: seq<Row>, ids: seq<nat>, now: int, sent: SendResult, n: nat)
    requires forall i :: 0 <= i < |ids| ==> ids[i] < |rows|
    requires forall i, j :: 0 <= i < j < |ids| ==> ids[i] < ids[j]
    requires n < |ids|
    ensures AttemptAll(rows, ids[..n], now, sent)[ids[n]] == rows[ids[n]]
    ensures
      var done := AttemptAll(rows, ids[..n], now, sent);
      AttemptAll(rows, ids[..n + 1], now, sent) == done[ids[n] := AfterAttempt(done[ids[n]], now, sent)]
  {
    assert ids[..n + 1][..n] == ids[..n];
    AttemptAllAt(rows, ids[..n], now, sent, ids[n]);
  }

  /** Due, and fewer due rows are older than the limit allows. */
  ghost predicate Found(rows: seq<Row>, now: int, limit: int, id: nat)
    requires id < |rows|
  {
    OutboxProgress.DueNow(rows[id], now)
    && |OutboxProgress.OlderDue(rows, now, id)| < (if limit < 1 then 1 else if limit > 100 then 100 else limit)
  }

  lemma FoundAreCandidates(rows: seq<Row>, now: int, limit: int)
    ensures forall id: nat :: id < |rows| ==> (id in Candidates(rows, now, limit) <==> Found(rows, now, limit, id))
  {
    forall id: nat | id < |rows| ensures id in Candidates(rows, now, limit) <==> Found(rows, now, limit, id) {
      OutboxProgress.CandidateIff(rows, now, limit, id);
    }
  }

  class DeliveryTable {
    // Nothing goes wrong and nobody else is at work: no statement fails, and the sender answers `sender`.
    const calm: bool
    const sender: SendResult
    var clock: int
    var rows: seq<Row>
    // Bookkeeping of the machine: who dispatches, and what happened to each row.
    var workers: map<nat, Worker>
    var tallies: seq<Tally>
    // No step so far broke the 15-minute hypothesis.
    ghost var timely: bool

    function World(): System
      reads this
    {
      System(clock, rows, workers, tallies)
    }

    ghost predicate Valid()
      reads this
    {
      |tallies| == |rows| && (timely ==> Inv(World()) && Accounted(World()))
    }

    constructor (calm: bool, sender: SendResult)
      ensures Valid() && Initial(World()) && timely && this.calm == calm && this.sender == sender
    {
      this.calm, this.sender := calm, sender;
      clock, rows, workers, tallies, timely := 0, [], map[], [], true;
      new;
      assert Inv(World());
    }

    /** The machine's invariants survive a step taken from `before`. */
    ghost method Record(before: System, step: Step)
      requires |before.tallies| == |before.rows|
      requires timely ==> Inv(before) && Accounted(before)
      requires Enabled(before, step) && World() == Apply(before, step)
      modifies `timely
      ensures Valid() && timely == (old(timely) && Timely(before, step))
    {
      if timely && Timely(before, step) {
        InvKept(before, step);
        AccountedKept(before, step);
      } else {
        timely := false;
      }
    }

    method Take(step: Step)
      requires Valid() && Enabled(World(), step)
      modifies this
      ensures Valid() && World() == Apply(old(World()), step)
    {
      ghost var before := World();
      var after := Apply(World(), step);
      clock, rows, workers, tallies := after.clock, after.rows, after.workers, after.tallies;
      Record(before, step);
    }

    /** Whether the process dies here. */
    method Dies() returns (dies: bool)
      ensures calm ==> !dies
    {
      dies := *;
      dies := dies && !calm;
    }

    /** Time passes and others work: any number of steps, none of them by `me`. */
    method Interfere(me: nat)
      requires Valid() && me in workers
      modifies this
      ensures Valid() && me in workers && workers[me] == old(workers[me]) && |rows| >= old(|rows|)
      ensures calm ==> World() == old(World())
    {
      if calm { return; }
      var n: nat := *;
      while n > 0
        invariant Valid() && me in workers && workers[me] == old(workers[me]) && |rows| >= old(|rows|)
      {
        var step: Step := *;
        if Actor(step) != Some(me) && Enabled(World(), step) {
          OthersStay(World(), step, me);
          Take(step);
        }
        n := n - 1;
      }
    }

    /** The guarded `updateMany` that claims a row; the count tells whether it did. */
    method ClaimRowIfDue(me: nat) returns (count: nat)
      requires Valid() && Enabled(World(), Claim(me))
      modifies this
      ensures Valid() && World() == Apply(old(World()), Claim(me))
      ensures
        var id, now := old(workers[me].todo[workers[me].pos]), old(workers[me].now);
        var was := old(rows)[id];
        var due := ((was.state == Pending || was.state == Retry) && was.nextAttemptAt <= now)
          || (was.state == Processing && was.lockedAt.Some? && now - was.lockedAt.value >= 15 * 60 * 1000);
        && count == (if due then 1 else 0)
        && rows == if due then old(rows)[id := was.(state := Processing, lockedAt := Some(now))] else old(rows)
    {
      ghost var before := World();
      var k := workers[me];
      var id := k.todo[k.pos];
      var row := rows[id];
      if ((row.state == Pending || row.state == Retry) && row.nextAttemptAt <= k.now)
        || (row.state == Processing && row.lockedAt.Some? && row.lockedAt.value <= k.now - LOCK_MS) {
        rows := rows[id := row.(state := Processing, lockedAt := Some(k.now))];
        workers := workers[me := k.(phase := Claimed)];
        count := 1;
      } else {
        workers := workers[me := k.(pos := k.pos + 1, counts := k.counts.(skipped := k.counts.skipped + 1))];
        count := 0;
      }
      Record(before, Claim(me));
    }

    method MarkDelivered(me: nat)
      requires Valid() && Enabled(World(), Deliver(me, Written))
      modifies this
      ensures Valid() && World() == Apply(old(World()), Deliver(me, Written))
      ensures
        var id := old(workers[me].todo[workers[me].pos]);
        var was := old(rows)[id];
        rows == old(rows)[id := was.(state := Delivered, attempts := was.attempts + 1, lockedAt := None)]
    {
      ghost var before := World();
      var k := workers[me];
      var id := k.todo[k.pos];
      rows := rows[id := rows[id].(state := Delivered, attempts := rows[id].attempts + 1, lockedAt := None)];
      tallies := tallies[id := tallies[id].(starts := tallies[id].starts + [k.now])];
      workers := workers[me := k.(pos := k.pos + 1, phase := AtTop,
        counts := k.counts.(delivered := k.counts.delivered + 1))];
      Record(before, Deliver(me, Written));
    }

    /** The catch branch: retry or dead-letter, counted from the row as it was read. */
    method MarkFailed(me: nat, delivery: Row) returns (dead: bool)
      requires Valid() && Enabled(World(), Fail(me)) && workers[me].phase.row == delivery
      modifies this
      ensures Valid() && World() == Apply(old(World()), Fail(me))
      ensures dead == (delivery.attempts + 1 >= delivery.maxAttempts)
      ensures
        var id, now, n := old(workers[me].todo[workers[me].pos]), old(workers[me].now), delivery.attempts + 1;
        var minutes := if n == 1 then 1 else if n == 2 then 5 else if n == 3 then 30 else 120;
        rows == old(rows)[id := old(rows)[id].(
          state := if dead then DeadLetter else Retry, attempts := n, lockedAt := None,
          nextAttemptAt := if dead then delivery.nextAttemptAt else now + minutes * 60 * 1000)]
    {
      ghost var before := World();
      var k := workers[me];
      var id := k.todo[k.pos];
      var attempts := delivery.attempts + 1;
      dead := attempts >= delivery.maxAttempts;
      rows := rows[id := rows[id].(
        attempts := attempts,
        state := if dead then DeadLetter else Retry,
        nextAttemptAt := if dead then delivery.nextAttemptAt
                         else k.now + RETRY_DELAYS[Min(attempts - 1, |RETRY_DELAYS| - 1)],
        lockedAt := None)];
      tallies := tallies[id :=
        if k.phase.Misled? then tallies[id].(unrecorded := tallies[id].unrecorded + 1)
        else tallies[id].(starts := tallies[id].starts + [k.now])];
      var counts := if dead then k.counts.(deadLettered := k.counts.deadLettered + 1)
                    else k.counts.(retried := k.counts.retried + 1);
      workers := workers[me := k.(pos := k.pos + 1, phase := AtTop, counts := counts)];
      Record(before, Fail(me));
    }

    /** When nothing goes wrong, nothing is skipped, and everything or nothing is delivered. */
    predicate Tallied(counts: Counts, pos: nat) {
      calm ==> counts.skipped == 0 && counts.delivered == if sender == Sent then pos else 0
    }

    /** `me` is dispatching `todo`, and has dealt with and counted its first `pos` candidates. */
    ghost predicate Poised(me: nat, now: int, todo: seq<nat>, pos: nat)
      reads this
    {
      && me in workers && workers[me].phase.AtTop?
      && workers[me].now == now && workers[me].todo == todo && workers[me].pos == pos <= |todo|
      && Total(workers[me].counts) == pos && Tallied(workers[me].counts, pos)
    }

    /** `me` is in the body of its loop, in `phase`, with candidate number `pos` before it. */
    ghost predicate Inside(me: nat, now: int, todo: seq<nat>, pos: nat, phase: Phase)
      reads this
    {
      && me in workers && workers[me].phase == phase && !phase.AtTop?
      && workers[me].now == now && workers[me].todo == todo && workers[me].pos == pos < |todo|
      && todo[pos] < |rows| && Total(workers[me].counts) == pos && Tallied(workers[me].counts, pos)
    }

    /** The catch block, unless the process dies before its write. */
    method Catch(me: nat, delivery: Row, ghost now: int, ghost todo: seq<nat>, ghost pos: nat) returns (alive: bool)
      requires Valid() && me in workers && workers[me].phase in {Failing(delivery), Misled(delivery)}
      requires Inside(me, now, todo, pos, workers[me].phase)
      requires calm ==> sender != Sent && rows[todo[pos]] == delivery
      modifies this
      ensures Valid() && |rows| >= old(|rows|)
      ensures alive ==> Poised(me, now, todo, pos + 1)
      ensures calm ==> alive && rows == old(rows)[todo[pos] := AfterAttempt(delivery, now, sender)]
    {
      alive := false;
      var dies := Dies();
      if dies { Take(Crash(me)); return; }
      var dead := MarkFailed(me, delivery);
      alive := true;
    }

    /** The rest of the try block and its catch, after the sender answered. */
    method RecordOutcome(me: nat, delivery: Row, sent: SendResult, ghost now: int, ghost todo: seq<nat>, ghost pos: nat)
      returns (alive: bool)
      requires Valid()
      requires Inside(me, now, todo, pos, if sent == Sent then Accepted(delivery) else Failing(delivery))
      requires calm ==> sent == sender && rows[todo[pos]] == delivery
      modifies this
      ensures Valid() && |rows| >= old(|rows|)
      ensures alive ==> Poised(me, now, todo, pos + 1)
      ensures calm ==> alive && rows == old(rows)[todo[pos] := AfterAttempt(delivery, now, sender)]
    {
      if sent == Sent {
        var write: WriteAnswer :| calm ==> write == Written;
        if write == Written {
          MarkDelivered(me);
          return true;
        }
        Take(Deliver(me, write));
        Interfere(me);
      }
      alive := Catch(me, delivery, now, todo, pos);
    }

    /** The sender's answer; one that threw may have sent the message all the same. */
    method CallSender(me: nat, delivery: Row, ghost now: int, ghost todo: seq<nat>, ghost pos: nat)
      returns (sent: Option<SendResult>)
      requires Valid() && Inside(me, now, todo, pos, Calling(delivery))
      modifies this
      ensures Valid() && |rows| >= old(|rows|)
      ensures sent.Some? ==>
        Inside(me, now, todo, pos, if sent.value == Sent then Accepted(delivery) else Failing(delivery))
      ensures calm ==> sent == Some(sender) && rows == old(rows)
    {
      var dies := Dies();
      if dies { Take(Crash(me)); return None; }
      var answer: SendResult :| calm ==> answer == sender;
      var accepted: bool := *;
      Take(Return(me, if answer == Sent then Took
                      else if answer == Threw && accepted then TookButThrew
                      else Refused));
      sent := Some(answer);
    }

    /** Read the claimed row and call the sender. */
    method SendClaimed(me: nat, ghost now: int, ghost todo: seq<nat>, ghost pos: nat) returns (alive: bool)
      requires Valid() && Inside(me, now, todo, pos, Claimed)
      modifies this
      ensures Valid() && |rows| >= old(|rows|)
      ensures alive ==> Poised(me, now, todo, pos + 1)
      ensures calm ==> alive && rows == old(rows)[todo[pos] := AfterAttempt(old(rows)[todo[pos]], now, sender)]
    {
      var dies := Dies();
      if dies { Take(Crash(me)); return false; }
      Take(Load(me));
      var delivery := workers[me].phase.row;
      Interfere(me);
      Take(Call(me));
      Interfere(me);
      var sent := CallSender(me, delivery, now, todo, pos);
      if sent.None? { return false; }
      Interfere(me);
      alive := RecordOutcome(me, delivery, sent.value, now, todo, pos);
    }

    /**
     One candidate. `alive` is false when a statement outside the try block failed,
     or the process died; the row then stays as it is.
     */
    method HandleCandidate(me: nat, ghost now: int, ghost todo: seq<nat>, ghost pos: nat) returns (alive: bool)
      requires Valid() && Poised(me, now, todo, pos) && pos < |todo| && todo[pos] < |rows|
      requires calm ==> OutboxProgress.DueNow(rows[todo[pos]], now)
      modifies this
      ensures Valid() && |rows| >= old(|rows|)
      ensures alive ==> Poised(me, now, todo, pos + 1)
      ensures calm ==> alive && rows == old(rows)[todo[pos] := AfterAttempt(old(rows)[todo[pos]], now, sender)]
    {
      var dies := Dies();
      if dies {
        Take(Crash(me));
        return false;
      }
      var claimed := ClaimRowIfDue(me);
      if claimed == 0 {
        return true;
      }
      Interfere(me);
      alive := SendClaimed(me, now, todo, pos);
    }

    /** The loop over the candidates. */
    method HandleAll(me: nat, candidates: seq<nat>, ghost now: int) returns (alive: bool)
      requires Valid() && Poised(me, now, candidates, 0)
      requires forall i :: 0 <= i < |candidates| ==> candidates[i] < |rows|
      requires forall i, j :: 0 <= i < j < |candidates| ==> candidates[i] < candidates[j]
      requires calm ==> forall i :: 0 <= i < |candidates| ==> OutboxProgress.DueNow(rows[candidates[i]], now)
      modifies this
      ensures Valid()
      ensures alive ==> Poised(me, now, candidates, |candidates|)
      ensures calm ==> alive && rows == AttemptAll(old(rows), candidates, now, sender)
    {
      var done := 0;
      while done < |candidates|
        invariant 0 <= done <= |candidates| && Valid() && |rows| >= old(|rows|) && Poised(me, now, candidates, done)
        invariant calm ==> rows == AttemptAll(old(rows), candidates[..done], now, sender)
      {
        Interfere(me);
        NextUntouched(old(rows), candidates, now, sender, done);
        alive := HandleCandidate(me, now, candidates, done);
        if !alive { return; }
        done := done + 1;
      }
      assert candidates[..done] == candidates;
      alive := true;
    }

    /**
     The whole call. When it returns normally, its four counters sum to the number of
     candidates its query found, whatever everyone else did meanwhile. When nothing goes wrong,
     the oldest due rows, up to the limit, have had one attempt each, and the others are as before.
     */
    method DispatchInquiryDeliveries(me: nat, now: int, limit: int) returns (result: Option<Counts>)
      requires Valid() && me !in workers && now <= clock
      modifies this
      ensures Valid()
      ensures result.Some? ==> Total(result.value) == |Candidates(old(rows), now, limit)|
      ensures result.Some? ==> Poised(me, now, Candidates(old(rows), now, limit), Total(result.value))
      ensures result.Some? ==> workers[me].counts == result.value
      ensures calm ==> result.Some? && result.value.skipped == 0
      ensures calm ==> result.value.delivered == if sender == Sent then Total(result.value) else 0
      ensures calm ==> |rows| == |old(rows)| && forall id: nat :: id < |rows| ==>
        rows[id] ==
          if Found(old(rows), now, limit, id) then AfterAttempt(old(rows)[id], now, sender) else old(rows)[id]
    {
      ghost var before := rows;
      Take(Begin(me, now, limit));
      var candidates := workers[me].todo;
      FoundAreCandidates(before, now, limit);
      var alive := HandleAll(me, candidates, now);
      forall id: nat | id < |before| {
        AttemptAllAt(before, candidates, now, sender, id);
      }
      if !alive { return None; }
      return Some(workers[me].counts);
    }
  }
}
