/**
 The inquiry-delivery outbox (apps/api/src/services/inquiryDeliveryService.ts) as a
 state machine: any number of dispatchers interleave, each database statement is one
 atomic step, a dispatcher may die between any two steps, and time only moves forward.
 Times are integral milliseconds.
 */
module Outbox {
  import opened Common

  const MINUTE := 60000
  const LOCK_MS := 15 * MINUTE
  const RETRY_DELAYS: seq<int> := [MINUTE, 5 * MINUTE, 30 * MINUTE, 120 * MINUTE]

  /** The delay after the n-th recorded attempt. */
  function RetryDelay(attempts: nat): int
    requires attempts >= 1
  {
    RETRY_DELAYS[Min(attempts - 1, |RETRY_DELAYS| - 1)]
  }

  // ----------------------------------------------------------------------- rows

  datatype State = Pending | Processing | Retry | Delivered | DeadLetter

  datatype Row = Row(state: State, attempts: nat, maxAttempts: nat, nextAttemptAt: int, lockedAt: Option<int>)

  predicate Terminal(row: Row) { row.state == Delivered || row.state == DeadLetter }

  /** The guard shared by the candidate query and the claim. */
  predicate Claimable(row: Row, now: int) {
    || ((row.state == Pending || row.state == Retry) && row.nextAttemptAt <= now)
    || (row.state == Processing && row.lockedAt.Some? && row.lockedAt.value <= now - LOCK_MS)
  }

  function ClaimRow(row: Row, now: int): Row {
    row.(state := Processing, lockedAt := Some(now))
  }

  function DeliverRow(row: Row): Row {
    row.(state := Delivered, attempts := row.attempts + 1, lockedAt := None)
  }

  predicate LastAttempt(snapshot: Row) { snapshot.attempts + 1 >= snapshot.maxAttempts }

  /** The failure write: counted from the row as the dispatcher read it, timed from the dispatcher's start. */
  function FailRow(row: Row, snapshot: Row, now: int): Row {
    if LastAttempt(snapshot) then
      row.(state := DeadLetter, attempts := snapshot.attempts + 1,
           nextAttemptAt := snapshot.nextAttemptAt, lockedAt := None)
    else
      row.(state := Retry, attempts := snapshot.attempts + 1,
           nextAttemptAt := now + RetryDelay(snapshot.attempts + 1), lockedAt := None)
  }

  /** Ids (positions in creation order) of the rows due at `now`. */
  function Due(rows: seq<Row>, now: int): (ids: seq<nat>)
    ensures forall i :: 0 <= i < |ids| ==> ids[i] < |rows| && Claimable(rows[ids[i]], now)
    ensures forall id :: 0 <= id < |rows| && Claimable(rows[id], now) ==> id in ids
    ensures forall i, j :: 0 <= i < j < |ids| ==> ids[i] < ids[j]
  {
    if rows == [] then []
    else
      var n := |rows| - 1;
      var front := Due(rows[..n], now);
      if Claimable(rows[n], now) then front + [n] else front
  }

  function Candidates(rows: seq<Row>, now: int, limit: int): seq<nat> {
    var due := Due(rows, now);
    due[..Min(|due|, Clamp(limit, 1, 100))]
  }

  // ---------------------------------------------------------------- dispatchers

  datatype Counts = Counts(delivered: nat, retried: nat, deadLettered: nat, skipped: nat)

  function Total(c: Counts): nat { c.delivered + c.retried + c.deadLettered + c.skipped }

  /**
   Where a dispatcher stands in the body of its loop; `row` is the row as it read it. `Misled`
   is `Failing` after a delivery write that took effect but reported an error.
   */
  datatype Phase =
    | AtTop
    | Claimed
    | Loaded(row: Row)
    | Calling(row: Row)
    | Accepted(row: Row)
    | Failing(row: Row)
    | Misled(row: Row)

  datatype Worker = Worker(now: int, todo: seq<nat>, pos: nat, phase: Phase, counts: Counts)

  /** Between its claim of row `id` and its outcome write. */
  predicate Holding(k: Worker, id: nat) {
    k.pos < |k.todo| && k.todo[k.pos] == id && !k.phase.AtTop?
  }

  /** Past the sender call of row `id`, and nothing about it written yet. */
  predicate CallingOn(k: Worker, id: nat) {
    Holding(k, id) && (k.phase.Calling? || k.phase.Accepted? || k.phase.Failing?)
  }

  predicate HasRow(p: Phase) { p.Loaded? || p.Calling? || p.Accepted? || p.Failing? || p.Misled? }

  /**
   What happened to a row so far: sender calls, calls lost in a crash, messages the sender
   accepted, acceptances that are not on record, and the start of the dispatcher of each
   recorded attempt.
   */
  datatype Tally = Tally(calls: nat, lost: nat, accepted: nat, unrecorded: nat, starts: seq<int>)

  const NEW_TALLY := Tally(0, 0, 0, 0, [])

  datatype System = System(clock: int, rows: seq<Row>, workers: map<nat, Worker>, tallies: seq<Tally>)

  /** A call that reports an error may have taken effect all the same. */
  datatype SendAnswer = Took | Refused | TookButThrew

  datatype WriteAnswer = Written | Rejected | WrittenButThrew

  datatype Step =
    | Tick(elapsed: nat)
    | Enqueue(maxAttempts: nat, nextAttemptAt: int)
    | Begin(w: nat, now: int, limit: int)
    | Claim(w: nat)
    | Load(w: nat)
    | Call(w: nat)
    | Return(w: nat, sent: SendAnswer)
    | Deliver(w: nat, write: WriteAnswer)
    | Fail(w: nat)
    | Crash(w: nat)

  predicate Enabled(s: System, step: Step) {
    |s.tallies| == |s.rows| &&
    match step
    case Tick(_) => true
    case Enqueue(maxAttempts, _) => maxAttempts >= 1
    case Begin(w, now, _) => w !in s.workers && now <= s.clock
    case Claim(w) => w in s.workers && AtRow(s, w) && s.workers[w].phase.AtTop?
    case Load(w) => w in s.workers && AtRow(s, w) && s.workers[w].phase.Claimed?
    case Call(w) => w in s.workers && AtRow(s, w) && s.workers[w].phase.Loaded?
    case Return(w, _) => w in s.workers && AtRow(s, w) && s.workers[w].phase.Calling?
    case Deliver(w, _) => w in s.workers && AtRow(s, w) && s.workers[w].phase.Accepted?
    case Fail(w) => w in s.workers && AtRow(s, w) && (s.workers[w].phase.Failing? || s.workers[w].phase.Misled?)
    case Crash(w) => w in s.workers && (AtRow(s, w) || s.workers[w].phase.AtTop?)
  }

  /** The dispatcher has a candidate left, and it names a row. */
  predicate AtRow(s: System, w: nat)
    requires w in s.workers
  {
    s.workers[w].pos < |s.workers[w].todo| && s.workers[w].todo[s.workers[w].pos] < |s.rows|
  }

  function Become(s: System, w: nat, phase: Phase): System
    requires w in s.workers
  {
    s.(workers := s.workers[w := s.workers[w].(phase := phase)])
  }

  /** Finish the current candidate and count it. */
  function Advance(s: System, w: nat, counts: Counts): System
    requires w in s.workers
  {
    var k := s.workers[w];
    s.(workers := s.workers[w := k.(pos := k.pos + 1, phase := AtTop, counts := counts)])
  }

  function Apply(s: System, step: Step): System
    requires Enabled(s, step)
  {
    match step
    case Tick(elapsed) => s.(clock := s.clock + elapsed)
    case Enqueue(maxAttempts, next) =>
      s.(rows := s.rows + [Row(Pending, 0, maxAttempts, next, None)], tallies := s.tallies + [NEW_TALLY])
    case Begin(w, now, limit) =>
      s.(workers := s.workers[w := Worker(now, Candidates(s.rows, now, limit), 0, AtTop, Counts(0, 0, 0, 0))])
    case Claim(w) =>
      var k := s.workers[w];
      var id := k.todo[k.pos];
      if Claimable(s.rows[id], k.now) then
        Become(s, w, Claimed).(rows := s.rows[id := ClaimRow(s.rows[id], k.now)])
      else
        Advance(s, w, k.counts.(skipped := k.counts.skipped + 1))
    case Load(w) =>
      Become(s, w, Loaded(s.rows[s.workers[w].todo[s.workers[w].pos]]))
    case Call(w) =>
      var k := s.workers[w];
      var id := k.todo[k.pos];
      Become(s, w, Calling(k.phase.row)).(
        tallies := s.tallies[id := s.tallies[id].(calls := s.tallies[id].calls + 1)])
    case Return(w, sent) =>
      var k := s.workers[w];
      var id := k.todo[k.pos];
      var tally := s.tallies[id];
      (match sent
       case Took => Become(s, w, Accepted(k.phase.row)).(
         tallies := s.tallies[id := tally.(accepted := tally.accepted + 1)])
       case Refused => Become(s, w, Failing(k.phase.row))
       case TookButThrew => Become(s, w, Failing(k.phase.row)).(
         tallies := s.tallies[id := tally.(accepted := tally.accepted + 1, unrecorded := tally.unrecorded + 1)]))
    case Deliver(w, write) =>
      var k := s.workers[w];
      var id := k.todo[k.pos];
      var tally := s.tallies[id];
      (match write
       case Written => Advance(s, w, k.counts.(delivered := k.counts.delivered + 1)).(
         rows := s.rows[id := DeliverRow(s.rows[id])],
         tallies := s.tallies[id := tally.(starts := tally.starts + [k.now])])
       case Rejected => Become(s, w, Failing(k.phase.row)).(
         tallies := s.tallies[id := tally.(unrecorded := tally.unrecorded + 1)])
       case WrittenButThrew => Become(s, w, Misled(k.phase.row)).(
         rows := s.rows[id := DeliverRow(s.rows[id])],
         tallies := s.tallies[id := tally.(starts := tally.starts + [k.now])]))
    case Fail(w) =>
      var k := s.workers[w];
      var id := k.todo[k.pos];
      var tally := s.tallies[id];
      var counts := if LastAttempt(k.phase.row)
        then k.counts.(deadLettered := k.counts.deadLettered + 1)
        else k.counts.(retried := k.counts.retried + 1);
      Advance(s, w, counts).(
        rows := s.rows[id := FailRow(s.rows[id], k.phase.row, k.now)],
        tallies := s.tallies[id :=
          if k.phase.Misled? then tally.(unrecorded := tally.unrecorded + 1)
          else tally.(starts := tally.starts + [k.now])])
    case Crash(w) =>
      var k := s.workers[w];
      var gone := s.(workers := s.workers - {w});
      if k.pos < |k.todo| && CallingOn(k, k.todo[k.pos]) then
        var id := k.todo[k.pos];
        gone.(tallies := s.tallies[id := s.tallies[id].(
          lost := s.tallies[id].lost + 1,
          unrecorded := s.tallies[id].unrecorded + (if k.phase.Accepted? then 1 else 0))])
      else gone
  }

  // ------------------------------------------------------------ the hypothesis

  /** A dispatcher that is still within the lock period of its own start. */
  predicate InTime(s: System, w: nat) {
    w in s.workers && s.clock < s.workers[w].now + LOCK_MS
  }

  /** Steps that write a delivery row, and by whom. */
  predicate WritesRow(step: Step) { step.Claim? || (step.Deliver? && !step.write.Rejected?) || step.Fail? }

  /** A delivery write that takes effect and reports an error. */
  predicate Misreports(step: Step) { step.Deliver? && step.write.WrittenButThrew? }

  /** A dispatcher that writes a row in this step does so less than `d` after its start. */
  predicate Within(s: System, step: Step, d: int) {
    WritesRow(step) ==> step.w in s.workers && s.clock < s.workers[step.w].now + d
  }

  /** The hypothesis on a step: a dispatcher that writes a row does so within 15 minutes of its start. */
  predicate Timely(s: System, step: Step) { Within(s, step, LOCK_MS) }

  // ----------------------------------------------------------------- invariant

  ghost predicate WorkerOk(s: System, k: Worker) {
    && k.now <= s.clock
    && k.pos <= |k.todo|
    && (forall i :: 0 <= i < |k.todo| ==> k.todo[i] < |s.rows|)
    && (!k.phase.AtTop? ==> k.pos < |k.todo|)
    && Total(k.counts) == k.pos
  }

  predicate RowOk(row: Row) {
    && row.attempts <= row.maxAttempts
    && (!Terminal(row) ==> row.attempts < row.maxAttempts)
    && (row.state == Pending ==> row.attempts == 0)
    && (row.state == Retry ==> row.attempts >= 1)
    && (row.state == Processing <==> row.lockedAt.Some?)
    && (row.state == DeadLetter ==> row.attempts == row.maxAttempts)
    && (row.state == Delivered ==> row.attempts >= 1)
  }

  /** Recorded attempts are spaced by the retry delays, and so is the next one that may happen. */
  ghost predicate Spaced(row: Row, starts: seq<int>) {
    && |starts| == row.attempts
    && (forall i :: 1 <= i < |starts| ==> starts[i] >= starts[i - 1] + RetryDelay(i))
    && (row.state == Retry && starts != [] ==> row.nextAttemptAt >= starts[|starts| - 1] + RetryDelay(|starts|))
    && (row.state == Processing && starts != [] && row.lockedAt.Some? ==>
          row.lockedAt.value >= starts[|starts| - 1] + RetryDelay(|starts|))
  }

  ghost predicate Shape(s: System) {
    && |s.tallies| == |s.rows|
    && (forall w :: w in s.workers ==> WorkerOk(s, s.workers[w]))
    && (forall id :: 0 <= id < |s.rows| ==> RowOk(s.rows[id]))
  }

  ghost predicate Backoff(s: System) {
    && |s.tallies| == |s.rows|
    && forall id :: 0 <= id < |s.rows| ==> RowOk(s.rows[id]) && Spaced(s.rows[id], s.tallies[id].starts)
  }

  predicate InTimeHolder(s: System, w: nat, id: nat) {
    InTime(s, w) && Holding(s.workers[w], id)
  }

  predicate EndsWith(starts: seq<int>, now: int) { starts != [] && starts[|starts| - 1] == now }

  predicate LockedBy(row: Row, now: int) { row.state == Processing && row.lockedAt == Some(now) }

  /** What the holder left of the row it read: nothing, or a delivery it does not know of. */
  function Left(phase: Phase): Row
    requires HasRow(phase)
  {
    if phase.Misled? then DeliverRow(phase.row) else phase.row
  }

  /** The row of an in-time holder carries that holder's lock and is still as the holder read or left it. */
  predicate LockHeld(s: System, w: nat, id: nat)
    requires w in s.workers && id < |s.rows| == |s.tallies|
  {
    var k := s.workers[w];
    && (k.phase.Misled? ==> EndsWith(s.tallies[id].starts, k.now))
    && if HasRow(k.phase) then LockedBy(k.phase.row, k.now) && s.rows[id] == Left(k.phase)
       else LockedBy(s.rows[id], k.now)
  }

  ghost predicate Locked(s: System) {
    && |s.tallies| == |s.rows|
    && forall w, id :: 0 <= id < |s.rows| && InTimeHolder(s, w, id) ==> LockHeld(s, w, id)
  }

  ghost predicate Exclusive(s: System) {
    forall w, v, id :: InTimeHolder(s, w, id) && InTimeHolder(s, v, id) ==> w == v
  }

  ghost predicate Inv(s: System) {
    Shape(s) && Locked(s) && Exclusive(s) && Backoff(s)
  }

  // -------------------------------------------------------- preservation, step by step

  /** The dispatcher a step belongs to. */
  function Actor(step: Step): Option<nat> {
    if step.Tick? || step.Enqueue? then None else Some(step.w)
  }

  lemma OthersStay(s: System, step: Step, v: nat)
    requires Enabled(s, step) && Actor(step) != Some(v)
    ensures v in Apply(s, step).workers <==> v in s.workers
    ensures v in s.workers ==> Apply(s, step).workers[v] == s.workers[v]
  {
  }

  /** An outcome write is made by a dispatcher that holds the row's lock and knows its content. */
  lemma WriterHolds(s: System, step: Step)
    requires Inv(s) && Enabled(s, step) && Timely(s, step) && WritesRow(step) && !step.Claim?
    ensures
      var k := s.workers[step.w];
      && InTimeHolder(s, step.w, k.todo[k.pos])
      && LockedBy(k.phase.row, k.now) && s.rows[k.todo[k.pos]] == Left(k.phase)
      && (k.phase.Misled? ==> EndsWith(s.tallies[k.todo[k.pos]].starts, k.now))
  {
    var k := s.workers[step.w];
    assert InTimeHolder(s, step.w, k.todo[k.pos]);
  }

  /** A row with an in-time holder cannot be claimed: its lock is too young for any dispatcher's start. */
  lemma HeldRowNotClaimable(s: System, w: nat, id: nat, now: int)
    requires Inv(s) && id < |s.rows| && InTimeHolder(s, w, id) && now <= s.clock
    ensures !Claimable(s.rows[id], now)
  {
    assert LockHeld(s, w, id);
  }

  lemma WorkersKept(s: System, step: Step, w: nat)
    requires Inv(s) && Enabled(s, step) && w in Apply(s, step).workers
    ensures WorkerOk(Apply(s, step), Apply(s, step).workers[w])
  {
    if w in s.workers {
      assert WorkerOk(s, s.workers[w]);
      if Actor(step) != Some(w) {
        OthersStay(s, step, w);
      }
    }
  }

  lemma RowsKept(s: System, step: Step, id: nat)
    requires Inv(s) && Enabled(s, step) && Timely(s, step) && id < |Apply(s, step).rows|
    ensures RowOk(Apply(s, step).rows[id])
  {
    if WritesRow(step) && !step.Claim? {
      WriterHolds(s, step);
    }
    if id < |s.rows| {
      assert RowOk(s.rows[id]);
    }
  }

  lemma ShapeKept(s: System, step: Step)
    requires Inv(s) && Enabled(s, step) && Timely(s, step)
    ensures Shape(Apply(s, step))
  {
    var t := Apply(s, step);
    forall w | w in t.workers ensures WorkerOk(t, t.workers[w]) { WorkersKept(s, step, w); }
    forall id | 0 <= id < |t.rows| ensures RowOk(t.rows[id]) { RowsKept(s, step, id); }
  }

  /** A holder after a step held before it, or has just claimed a claimable row. */
  lemma HolderBefore(s: System, step: Step, w: nat, id: nat)
    requires Inv(s) && Enabled(s, step)
    requires InTimeHolder(Apply(s, step), w, id)
    ensures InTimeHolder(s, w, id)
      || (step == Claim(w) && id < |s.rows| && id == s.workers[w].todo[s.workers[w].pos]
          && Claimable(s.rows[id], s.workers[w].now)
          && Apply(s, step).rows[id] == ClaimRow(s.rows[id], s.workers[w].now)
          && Apply(s, step).workers[w] == s.workers[w].(phase := Claimed))
  {
  }

  /** Nobody else writes the row of an in-time holder. */
  lemma OthersLeaveHeldRow(s: System, step: Step, w: nat, id: nat)
    requires Inv(s) && Enabled(s, step) && Timely(s, step) && Actor(step) != Some(w)
    requires id < |s.rows| && InTimeHolder(s, w, id)
    ensures Apply(s, step).rows[id] == s.rows[id] && Apply(s, step).tallies[id].starts == s.tallies[id].starts
  {
    if WritesRow(step) {
      var k := s.workers[step.w];
      if k.todo[k.pos] == id {
        if step.Claim? {
          HeldRowNotClaimable(s, w, id, k.now);
        } else {
          WriterHolds(s, step);
        }
      }
    }
  }

  /** No step writes a row under an in-time holder that goes on holding it, but its own delivery that threw. */
  lemma HeldRowUntouched(s: System, step: Step, w: nat, id: nat)
    requires Inv(s) && Enabled(s, step) && Timely(s, step)
    requires id < |s.rows| && InTimeHolder(s, w, id) && InTimeHolder(Apply(s, step), w, id)
    ensures Apply(s, step).rows[id]
      == if step == Deliver(w, WrittenButThrew) then DeliverRow(s.rows[id]) else s.rows[id]
    ensures Apply(s, step).tallies[id].starts
      == s.tallies[id].starts + if step == Deliver(w, WrittenButThrew) then [s.workers[w].now] else []
  {
    if Actor(step) != Some(w) {
      OthersLeaveHeldRow(s, step, w, id);
    }
  }

  lemma LockStaysHeld(s: System, step: Step, w: nat, id: nat)
    requires Inv(s) && Enabled(s, step) && Timely(s, step)
    requires id < |s.rows| && InTimeHolder(s, w, id) && InTimeHolder(Apply(s, step), w, id)
    ensures LockHeld(Apply(s, step), w, id)
  {
    HeldRowUntouched(s, step, w, id);
    assert LockHeld(s, w, id);
    if Actor(step) != Some(w) {
      OthersStay(s, step, w);
    }
  }

  lemma LockedKept(s: System, step: Step)
    requires Inv(s) && Enabled(s, step) && Timely(s, step)
    ensures Locked(Apply(s, step))
  {
    var t := Apply(s, step);
    forall w, id | 0 <= id < |t.rows| && InTimeHolder(t, w, id) ensures LockHeld(t, w, id) {
      HolderBefore(s, step, w, id);
      if InTimeHolder(s, w, id) {
        assert WorkerOk(s, s.workers[w]);
        LockStaysHeld(s, step, w, id);
      }
    }
  }

  lemma OneHolderAfter(s: System, step: Step, w: nat, v: nat, id: nat)
    requires Inv(s) && Enabled(s, step) && id < |s.rows|
    requires InTimeHolder(s, w, id) && InTimeHolder(Apply(s, step), v, id)
    ensures w == v
  {
    HolderBefore(s, step, v, id);
    if !InTimeHolder(s, v, id) {
      HeldRowNotClaimable(s, w, id, s.workers[v].now);
    }
  }

  lemma ExclusiveKept(s: System, step: Step)
    requires Inv(s) && Enabled(s, step) && Timely(s, step)
    ensures Exclusive(Apply(s, step))
  {
    var t := Apply(s, step);
    forall w, v, id | InTimeHolder(t, w, id) && InTimeHolder(t, v, id) ensures w == v {
      HolderBefore(s, step, w, id);
      HolderBefore(s, step, v, id);
      if InTimeHolder(s, w, id) {
        assert WorkerOk(s, s.workers[w]);
        OneHolderAfter(s, step, w, v, id);
      } else if InTimeHolder(s, v, id) {
        assert WorkerOk(s, s.workers[v]);
        OneHolderAfter(s, step, v, w, id);
      }
    }
  }

  /** Steps other than outcome writes change no starts, attempts or next attempt. */
  lemma BackoffKeptUnwritten(s: System, step: Step)
    requires Inv(s) && Enabled(s, step) && Timely(s, step) && (WritesRow(step) ==> step.Claim?)
    ensures Backoff(Apply(s, step))
  {
  }

  lemma SpacedDelivery(row: Row, now: int, starts: seq<int>)
    requires RowOk(row) && Spaced(row, starts) && LockedBy(row, now)
    ensures RowOk(DeliverRow(row)) && Spaced(DeliverRow(row), starts + [now])
  {
  }

  lemma SpacedFailure(row: Row, now: int, starts: seq<int>)
    requires RowOk(row) && Spaced(row, starts) && LockedBy(row, now)
    ensures RowOk(FailRow(row, row, now)) && Spaced(FailRow(row, row, now), starts + [now])
  {
  }

  /** The failure write over a delivery of the same attempt: the attempt is not counted again. */
  lemma SpacedUndoing(row: Row, now: int, starts: seq<int>)
    requires RowOk(DeliverRow(row)) && Spaced(DeliverRow(row), starts) && LockedBy(row, now)
    requires EndsWith(starts, now)
    ensures RowOk(FailRow(DeliverRow(row), row, now)) && Spaced(FailRow(DeliverRow(row), row, now), starts)
  {
  }

  lemma BackoffKept(s: System, step: Step)
    requires Inv(s) && Enabled(s, step) && Timely(s, step)
    ensures Backoff(Apply(s, step))
  {
    if WritesRow(step) && !step.Claim? {
      var k := s.workers[step.w];
      var id := k.todo[k.pos];
      WriterHolds(s, step);
      if k.phase.Misled? {
        SpacedUndoing(k.phase.row, k.now, s.tallies[id].starts);
      } else {
        SpacedDelivery(s.rows[id], k.now, s.tallies[id].starts);
        SpacedFailure(s.rows[id], k.now, s.tallies[id].starts);
      }
    } else {
      BackoffKeptUnwritten(s, step);
    }
  }

  lemma InvKept(s: System, step: Step)
    requires Inv(s) && Enabled(s, step) && Timely(s, step)
    ensures Inv(Apply(s, step))
  {
    ShapeKept(s, step);
    LockedKept(s, step);
    ExclusiveKept(s, step);
    BackoffKept(s, step);
  }
}
