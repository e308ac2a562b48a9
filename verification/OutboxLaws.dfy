/**
 What the outbox guarantees over every run in which dispatchers write rows within 15
 minutes of their start. Calls that report an error may have taken effect.
 */
module OutboxLaws {
  import opened Common
  import opened Outbox

  predicate Initial(s: System) {
    s.rows == [] && s.tallies == [] && s.workers == map[]
  }

  /** `ss` are the states visited, one more than the steps taken. */
  ghost predicate IsRun(ss: seq<System>, steps: seq<Step>) {
    && |ss| == |steps| + 1
    && Initial(ss[0])
    && (forall i {:trigger steps[i]} :: 0 <= i < |steps| ==>
      Enabled(ss[i], steps[i]) && ss[i + 1] == Apply(ss[i], steps[i]))
  }

  ghost predicate TimelyRun(ss: seq<System>, steps: seq<Step>)
    requires IsRun(ss, steps)
  {
    forall i {:trigger steps[i]} :: 0 <= i < |steps| ==> Timely(ss[i], steps[i])
  }

  lemma {:induction false} InvAlways(ss: seq<System>, steps: seq<Step>, i: nat)
    requires IsRun(ss, steps) && TimelyRun(ss, steps) && i < |ss|
    ensures Inv(ss[i])
  {
    if i == 0 {
    } else {
      InvAlways(ss, steps, i - 1);
      InvKept(ss[i - 1], steps[i - 1]);
    }
  }

  /**
   Exclusivity: at any moment, two dispatchers within their 15 minutes cannot both be
   between the claim and the last write of one row; and the row carries that one's lock,
   or is as its own delivery left it when that write took effect and reported an error.
   */
  lemma OutboxExclusivity(ss: seq<System>, steps: seq<Step>, i: nat, w: nat, v: nat, id: nat)
    requires IsRun(ss, steps) && TimelyRun(ss, steps) && i < |ss|
    requires InTimeHolder(ss[i], w, id) && InTimeHolder(ss[i], v, id)
    ensures w == v && id < |ss[i].rows|
    ensures if ss[i].workers[w].phase.Misled? then ss[i].rows[id].state == Delivered
            else LockedBy(ss[i].rows[id], ss[i].workers[w].now)
  {
    InvAlways(ss, steps, i);
    assert WorkerOk(ss[i], ss[i].workers[w]);
    assert LockHeld(ss[i], w, id);
  }

  /** The dispatcher's catch branch is about to write over a delivery of its own. */
  predicate Undoes(s: System, step: Step, id: nat)
    requires Enabled(s, step)
  {
    step.Fail? && s.workers[step.w].phase.Misled? && s.workers[step.w].todo[s.workers[step.w].pos] == id
  }

  /** In time, a terminal row is written again exactly by the catch branch of a delivery that reported an error. */
  lemma TerminalRowChangesIff(s: System, step: Step, id: nat)
    requires Inv(s) && Enabled(s, step) && Timely(s, step)
    requires id < |s.rows| && Terminal(s.rows[id])
    ensures Apply(s, step).rows[id] != s.rows[id] <==> Undoes(s, step, id)
    ensures Undoes(s, step, id) ==> s.rows[id].state == Delivered
  {
    if WritesRow(step) && !step.Claim? {
      WriterHolds(s, step);
    }
  }

  /** No delivery write took effect and reported an error. */
  ghost predicate HonestRun(ss: seq<System>, steps: seq<Step>)
    requires IsRun(ss, steps)
  {
    forall i {:trigger steps[i]} :: 0 <= i < |steps| ==> !Misreports(steps[i])
  }

  ghost predicate NoneMisled(s: System) {
    forall w :: w in s.workers ==> !s.workers[w].phase.Misled?
  }

  lemma NoneMisledKept(s: System, step: Step)
    requires NoneMisled(s) && Enabled(s, step) && !Misreports(step)
    ensures NoneMisled(Apply(s, step))
  {
    forall w | w in Apply(s, step).workers ensures !Apply(s, step).workers[w].phase.Misled? {
      if Actor(step) != Some(w) {
        OthersStay(s, step, w);
      }
    }
  }

  lemma {:induction false} NoneMisledAlways(ss: seq<System>, steps: seq<Step>, i: nat)
    requires IsRun(ss, steps) && HonestRun(ss, steps) && i < |ss|
    ensures NoneMisled(ss[i])
  {
    if i == 0 {
    } else {
      NoneMisledAlways(ss, steps, i - 1);
      NoneMisledKept(ss[i - 1], steps[i - 1]);
    }
  }

  /** A delivered or dead-lettered row is never written again, if no delivery is misreported. */
  lemma {:induction false} TerminalForever(ss: seq<System>, steps: seq<Step>, i: nat, j: nat, id: nat)
    requires IsRun(ss, steps) && TimelyRun(ss, steps) && HonestRun(ss, steps) && i <= j < |ss|
    requires id < |ss[i].rows| && Terminal(ss[i].rows[id])
    ensures id < |ss[j].rows| && ss[j].rows[id] == ss[i].rows[id]
  {
    if i == j {
    } else {
      TerminalForever(ss, steps, i, j - 1, id);
      InvAlways(ss, steps, j - 1);
      NoneMisledAlways(ss, steps, j - 1);
      TerminalRowChangesIff(ss[j - 1], steps[j - 1], id);
    }
  }

  /** A dead letter is never written again, whatever the calls report. */
  lemma {:induction false} DeadLetterForever(ss: seq<System>, steps: seq<Step>, i: nat, j: nat, id: nat)
    requires IsRun(ss, steps) && TimelyRun(ss, steps) && i <= j < |ss|
    requires id < |ss[i].rows| && ss[i].rows[id].state == DeadLetter
    ensures id < |ss[j].rows| && ss[j].rows[id] == ss[i].rows[id]
  {
    if i == j {
    } else {
      DeadLetterForever(ss, steps, i, j - 1, id);
      InvAlways(ss, steps, j - 1);
      TerminalRowChangesIff(ss[j - 1], steps[j - 1], id);
    }
  }

  // ------------------------------------------------------------------- accounting

  /** Dispatchers past the sender call of row `id`, late ones included. */
  function Callers(workers: map<nat, Worker>, id: nat): set<nat> {
    set w | w in workers && CallingOn(workers[w], id)
  }

  ghost predicate Accounted(s: System) {
    && |s.tallies| == |s.rows|
    && forall id :: 0 <= id < |s.rows| ==>
      s.tallies[id].calls == s.rows[id].attempts + s.tallies[id].lost + |Callers(s.workers, id)|
  }

  lemma AccountedKept(s: System, step: Step)
    requires Inv(s) && Accounted(s) && Enabled(s, step) && Timely(s, step)
    ensures Accounted(Apply(s, step))
  {
    var t := Apply(s, step);
    forall id | 0 <= id < |t.rows|
      ensures t.tallies[id].calls == t.rows[id].attempts + t.tallies[id].lost + |Callers(t.workers, id)|
    {
      CallsBalance(s, step, id);
    }
  }

  lemma CallersOfNewRow(s: System, id: nat)
    requires Inv(s) && id >= |s.rows|
    ensures Callers(s.workers, id) == {}
  {
    forall w | w in s.workers ensures !CallingOn(s.workers[w], id) {
      assert WorkerOk(s, s.workers[w]);
    }
  }

  function Weight(workers: map<nat, Worker>, w: nat, id: nat): nat {
    if w in workers && CallingOn(workers[w], id) then 1 else 0
  }

  lemma SizesDiffer(before: set<nat>, after: set<nat>, w: nat)
    requires forall v :: v != w ==> (v in before <==> v in after)
    ensures |after| == |before| + (if w in after then 1 else 0) - (if w in before then 1 else 0)
  {
    assert before - {w} == after - {w};
    assert w in before ==> |before - {w}| == |before| - 1;
    assert w !in before ==> before - {w} == before;
    assert w in after ==> |after - {w}| == |after| - 1;
    assert w !in after ==> after - {w} == after;
  }

  /** Only the acting dispatcher can start or stop being a caller. */
  lemma CallersChange(s: System, step: Step, id: nat)
    requires Enabled(s, step) && Actor(step).Some?
    ensures
      var t := Apply(s, step);
      |Callers(t.workers, id)|
        == |Callers(s.workers, id)| + Weight(t.workers, step.w, id) - Weight(s.workers, step.w, id)
  {
    var t := Apply(s, step);
    forall v: nat | v != step.w ensures v in Callers(s.workers, id) <==> v in Callers(t.workers, id) {
      OthersStay(s, step, v);
    }
    SizesDiffer(Callers(s.workers, id), Callers(t.workers, id), step.w);
  }

  /** One step moves a row's calls between its attempts, the lost ones and the acting dispatcher. */
  lemma CallsMove(s: System, step: Step, id: nat)
    requires Inv(s) && Enabled(s, step) && Timely(s, step) && Actor(step).Some? && id < |s.rows|
    ensures
      var t := Apply(s, step);
      && |t.tallies| == |t.rows| == |s.rows|
      && t.tallies[id].calls - t.rows[id].attempts - t.tallies[id].lost - Weight(t.workers, step.w, id)
         == s.tallies[id].calls - s.rows[id].attempts - s.tallies[id].lost - Weight(s.workers, step.w, id)
  {
    if WritesRow(step) && !step.Claim? {
      WriterHolds(s, step);
    }
  }

  lemma CallsBalance(s: System, step: Step, id: nat)
    requires Inv(s) && Accounted(s) && Enabled(s, step) && Timely(s, step) && id < |Apply(s, step).rows|
    ensures
      var t := Apply(s, step);
      && |t.tallies| == |t.rows|
      && t.tallies[id].calls == t.rows[id].attempts + t.tallies[id].lost + |Callers(t.workers, id)|
  {
    if Actor(step).Some? {
      CallersChange(s, step, id);
      CallsMove(s, step, id);
    } else if id == |s.rows| {
      CallersOfNewRow(s, id);
    }
  }

  /** Sender calls are conserved: each is a recorded attempt, was lost in a crash, or has no outcome written yet. */
  lemma {:induction false} SenderCallsConserved(ss: seq<System>, steps: seq<Step>, i: nat)
    requires IsRun(ss, steps) && TimelyRun(ss, steps) && i < |ss|
    ensures Accounted(ss[i])
  {
    if i == 0 {
    } else {
      SenderCallsConserved(ss, steps, i - 1);
      InvAlways(ss, steps, i - 1);
      AccountedKept(ss[i - 1], steps[i - 1]);
    }
  }

  /** Dispatchers whose sender call for row `id` was accepted, outcome not yet written. */
  function Acceptors(workers: map<nat, Worker>, id: nat): set<nat> {
    set w | w in workers && Holding(workers[w], id) && workers[w].phase.Accepted?
  }

  predicate IsDelivered(row: Row) { row.state == Delivered }

  ghost predicate AcceptancesAccounted(s: System) {
    && |s.tallies| == |s.rows|
    && forall id :: 0 <= id < |s.rows| ==>
      s.tallies[id].accepted ==
        (if IsDelivered(s.rows[id]) then 1 else 0) + s.tallies[id].unrecorded + |Acceptors(s.workers, id)|
  }

  function AcceptWeight(workers: map<nat, Worker>, w: nat, id: nat): nat {
    if w in workers && Holding(workers[w], id) && workers[w].phase.Accepted? then 1 else 0
  }

  lemma AcceptorsChange(s: System, step: Step, id: nat)
    requires Enabled(s, step) && Actor(step).Some?
    ensures
      var t := Apply(s, step);
      |Acceptors(t.workers, id)| ==
        |Acceptors(s.workers, id)| + AcceptWeight(t.workers, step.w, id) - AcceptWeight(s.workers, step.w, id)
  {
    var t := Apply(s, step);
    forall v: nat | v != step.w ensures v in Acceptors(s.workers, id) <==> v in Acceptors(t.workers, id) {
      OthersStay(s, step, v);
    }
    SizesDiffer(Acceptors(s.workers, id), Acceptors(t.workers, id), step.w);
  }

  lemma AcceptancesMove(s: System, step: Step, id: nat)
    requires Inv(s) && Enabled(s, step) && Timely(s, step) && Actor(step).Some? && id < |s.rows|
    ensures
      var t := Apply(s, step);
      var before, after := if IsDelivered(s.rows[id]) then 1 else 0, if IsDelivered(t.rows[id]) then 1 else 0;
      && |t.tallies| == |t.rows| == |s.rows|
      && t.tallies[id].accepted - after - t.tallies[id].unrecorded - AcceptWeight(t.workers, step.w, id)
         == s.tallies[id].accepted - before - s.tallies[id].unrecorded - AcceptWeight(s.workers, step.w, id)
  {
    if WritesRow(step) && !step.Claim? {
      WriterHolds(s, step);
    }
  }

  lemma AcceptancesBalance(s: System, step: Step, id: nat)
    requires Inv(s) && AcceptancesAccounted(s) && Enabled(s, step) && Timely(s, step) && id < |Apply(s, step).rows|
    ensures
      var t := Apply(s, step);
      |t.tallies| == |t.rows| && t.tallies[id].accepted ==
        (if IsDelivered(t.rows[id]) then 1 else 0) + t.tallies[id].unrecorded + |Acceptors(t.workers, id)|
  {
    if Actor(step).Some? {
      AcceptorsChange(s, step, id);
      AcceptancesMove(s, step, id);
    } else if id == |s.rows| {
      CallersOfNewRow(s, id);
      assert Acceptors(s.workers, id) <= Callers(s.workers, id);
    }
  }

  lemma AcceptancesKept(s: System, step: Step)
    requires Inv(s) && AcceptancesAccounted(s) && Enabled(s, step) && Timely(s, step)
    ensures AcceptancesAccounted(Apply(s, step))
  {
    var t := Apply(s, step);
    forall id | 0 <= id < |t.rows|
      ensures t.tallies[id].accepted ==
        (if IsDelivered(t.rows[id]) then 1 else 0) + t.tallies[id].unrecorded + |Acceptors(t.workers, id)|
    {
      AcceptancesBalance(s, step, id);
    }
  }

  /**
   The sender accepted a message once if it was delivered, plus once for every acceptance
   that is not on record (because of a crash, an error, or a failure written over it), plus
   those about to be recorded: a row whose acceptances are all on record is sent at most once.
   */
  lemma {:induction false} AcceptedOnce(ss: seq<System>, steps: seq<Step>, i: nat)
    requires IsRun(ss, steps) && TimelyRun(ss, steps) && i < |ss|
    ensures AcceptancesAccounted(ss[i])
  {
    if i == 0 {
    } else {
      AcceptedOnce(ss, steps, i - 1);
      InvAlways(ss, steps, i - 1);
      AcceptancesKept(ss[i - 1], steps[i - 1]);
    }
  }

  /** A row anyone may claim has attempts left, and attempts never pass the maximum. */
  lemma AttemptsBounded(ss: seq<System>, steps: seq<Step>, i: nat, id: nat, now: int)
    requires IsRun(ss, steps) && TimelyRun(ss, steps) && i < |ss| && id < |ss[i].rows|
    ensures ss[i].rows[id].attempts <= ss[i].rows[id].maxAttempts
    ensures Claimable(ss[i].rows[id], now) ==> ss[i].rows[id].attempts < ss[i].rows[id].maxAttempts
    ensures ss[i].rows[id].state == DeadLetter ==> ss[i].rows[id].attempts == ss[i].rows[id].maxAttempts
  {
    InvAlways(ss, steps, i);
    assert RowOk(ss[i].rows[id]);
  }

  /** A dispatcher that has gone through its candidates counted each exactly once. */
  lemma CountersAddUp(ss: seq<System>, steps: seq<Step>, i: nat, w: nat)
    requires IsRun(ss, steps) && TimelyRun(ss, steps) && i < |ss|
    requires w in ss[i].workers && ss[i].workers[w].pos == |ss[i].workers[w].todo|
    ensures Total(ss[i].workers[w].counts) == |ss[i].workers[w].todo|
  {
    InvAlways(ss, steps, i);
    assert WorkerOk(ss[i], ss[i].workers[w]);
  }

  // ---------------------------------------------------------------------- backoff

  /** Least distance, in minutes, from the first attempt's dispatcher to the n-th one's. */
  function EarliestMinutes(n: nat): int
    requires n >= 1
  {
    if n == 1 then 0 else if n == 2 then 1 else if n == 3 then 6 else if n == 4 then 36 else 156 + 120 * (n - 5)
  }

  lemma {:induction false} SpacedSums(row: Row, starts: seq<int>, n: nat)
    requires Spaced(row, starts) && 1 <= n <= |starts|
    ensures starts[n - 1] >= starts[0] + EarliestMinutes(n) * MINUTE
  {
    if n == 1 {
    } else {
      SpacedSums(row, starts, n - 1);
      assert starts[n - 1] >= starts[n - 2] + RetryDelay(n - 1);
    }
  }

  /** The n-th recorded attempt of a row starts at least 1, 6, 36, 156, 276, ... minutes after the first. */
  lemma BackoffSchedule(ss: seq<System>, steps: seq<Step>, i: nat, id: nat, n: nat)
    requires IsRun(ss, steps) && TimelyRun(ss, steps) && i < |ss| && id < |ss[i].rows|
    requires 1 <= n <= ss[i].rows[id].attempts
    ensures |ss[i].tallies| == |ss[i].rows| && |ss[i].tallies[id].starts| == ss[i].rows[id].attempts
    ensures ss[i].tallies[id].starts[n - 1] >= ss[i].tallies[id].starts[0] + EarliestMinutes(n) * MINUTE
  {
    InvAlways(ss, steps, i);
    assert Spaced(ss[i].rows[id], ss[i].tallies[id].starts);
    SpacedSums(ss[i].rows[id], ss[i].tallies[id].starts, n);
  }

  // ------------------------------------------------ the hypothesis is exact

  lemma DueSingleton(row: Row, now: int)
    requires Claimable(row, now)
    ensures Candidates([row], now, 25) == [0]
  {
    assert [row][..0] == [];
    assert Due([row], now) == [0];
  }

  /**
   In all steps, rows are written less than `d` after their writer's start; without `lies`,
   no delivery write takes effect and reports an error.
   */
  ghost predicate AllowedRun(ss: seq<System>, steps: seq<Step>, d: int, lies: bool)
    requires IsRun(ss, steps)
  {
    (forall i {:trigger steps[i]} :: 0 <= i < |steps| ==> Within(ss[i], steps[i], d)) && (lies || HonestRun(ss, steps))
  }

  ghost predicate Reachable(s: System, d: int, lies: bool) {
    exists ss, steps :: IsRun(ss, steps) && AllowedRun(ss, steps, d, lies) && ss[|steps|] == s
  }

  lemma Go(s: System, step: Step, t: System, d: int, lies: bool)
    requires Reachable(s, d, lies) && Enabled(s, step) && Apply(s, step) == t
    requires Within(s, step, d) && (lies || !Misreports(step))
    ensures Reachable(t, d, lies)
  {
    var ss, steps :| IsRun(ss, steps) && AllowedRun(ss, steps, d, lies) && ss[|steps|] == s;
    var ss', steps' := ss + [t], steps + [step];
    assert IsRun(ss', steps') && AllowedRun(ss', steps', d, lies) && ss'[|steps'|] == t;
  }

  const QUEUED := Row(Pending, 0, 5, 0, None)
  const LOCKED := QUEUED.(state := Processing, lockedAt := Some(0))
  const RELOCKED := QUEUED.(state := Processing, lockedAt := Some(LOCK_MS))

  /** The first dispatcher, and the second, in a given phase. */
  function Slow(phase: Phase): Worker { Worker(0, [0], 0, phase, Counts(0, 0, 0, 0)) }

  function Quick(phase: Phase): Worker { Worker(LOCK_MS, [0], 0, phase, Counts(0, 0, 0, 0)) }

  function Alone(row: Row, phase: Phase, calls: nat): System {
    System(0, [row], map[1 := Slow(phase)], [NEW_TALLY.(calls := calls)])
  }

  function Together(row: Row, phase: Phase, calls: nat): System {
    System(LOCK_MS, [row], map[1 := Slow(Failing(LOCKED)), 2 := Quick(phase)], [NEW_TALLY.(calls := calls)])
  }

  function Queued(): System { System(0, [QUEUED], map[], [NEW_TALLY]) }

  lemma FirstQueued(d: int, lies: bool)
    ensures Reachable(Queued(), d, lies)
  {
    var s := System(0, [], map[], []);
    var noSteps: seq<Step> := [];
    assert IsRun([s], noSteps) && AllowedRun([s], noSteps, d, lies) && [s][|noSteps|] == s;
    assert Apply(s, Enqueue(5, 0)) == Queued();
    Go(s, Enqueue(5, 0), Queued(), d, lies);
  }

  lemma FirstClaims(d: int, lies: bool)
    requires d > 0
    ensures Reachable(Alone(LOCKED, Claimed, 0), d, lies)
  {
    FirstQueued(d, lies);
    DueSingleton(QUEUED, 0);
    Go(Queued(), Begin(1, 0, 25), Alone(QUEUED, AtTop, 0), d, lies);
    Go(Alone(QUEUED, AtTop, 0), Claim(1), Alone(LOCKED, Claimed, 0), d, lies);
  }

  /** A dispatcher claims the row and calls the sender, within any bound at all. */
  lemma FirstCalls(d: int, lies: bool)
    requires d > 0
    ensures Reachable(Alone(LOCKED, Calling(LOCKED), 1), d, lies)
  {
    FirstClaims(d, lies);
    Go(Alone(LOCKED, Claimed, 0), Load(1), Alone(LOCKED, Loaded(LOCKED), 0), d, lies);
    Go(Alone(LOCKED, Loaded(LOCKED), 0), Call(1), Alone(LOCKED, Calling(LOCKED), 1), d, lies);
  }

  // ------------------------------------------------ a writer that is late

  function Late(): System { Alone(LOCKED, Failing(LOCKED), 1).(clock := LOCK_MS) }

  /** Its sender call is refused, and it is slow to write the failure. */
  lemma FirstFails()
    ensures Reachable(Late(), LOCK_MS, false)
  {
    FirstCalls(LOCK_MS, false);
    Go(Alone(LOCKED, Calling(LOCKED), 1), Return(1, Refused), Alone(LOCKED, Failing(LOCKED), 1), LOCK_MS, false);
    Go(Alone(LOCKED, Failing(LOCKED), 1), Tick(LOCK_MS), Late(), LOCK_MS, false);
  }

  lemma SecondTakesOver()
    ensures Reachable(Together(RELOCKED, Claimed, 1), LOCK_MS, false)
  {
    FirstFails();
    DueSingleton(LOCKED, LOCK_MS);
    Go(Late(), Begin(2, LOCK_MS, 25), Together(LOCKED, AtTop, 1), LOCK_MS, false);
    Go(Together(LOCKED, AtTop, 1), Claim(2), Together(RELOCKED, Claimed, 1), LOCK_MS, false);
  }

  function Sent(): System {
    Together(RELOCKED, Accepted(RELOCKED), 2).(tallies := [NEW_TALLY.(calls := 2, accepted := 1)])
  }

  lemma SecondSends()
    ensures Reachable(Sent(), LOCK_MS, false)
  {
    SecondTakesOver();
    Go(Together(RELOCKED, Claimed, 1), Load(2), Together(RELOCKED, Loaded(RELOCKED), 1), LOCK_MS, false);
    Go(Together(RELOCKED, Loaded(RELOCKED), 1), Call(2), Together(RELOCKED, Calling(RELOCKED), 2), LOCK_MS, false);
    Go(Together(RELOCKED, Calling(RELOCKED), 2), Return(2, Took), Sent(), LOCK_MS, false);
  }

  /**
   Outcome writes are keyed by id alone. A dispatcher that is still failing when its
   lock goes stale lets another deliver the row, and then turns DELIVERED back into RETRY:
   every write up to there was in time and truly reported, and this one comes exactly 15
   minutes after the start.
   */
  lemma LateWriterOverwritesDelivered() returns (s: System, late: Step)
    ensures Reachable(s, LOCK_MS, false) && Enabled(s, late) && WritesRow(late) && !Misreports(late)
    ensures late.w in s.workers && s.clock == s.workers[late.w].now + LOCK_MS
    ensures |s.rows| == 1 && s.rows[0].state == Delivered && Apply(s, late).rows[0].state == Retry
  {
    SecondSends();
    s := Apply(Sent(), Deliver(2, Written));
    Go(Sent(), Deliver(2, Written), s, LOCK_MS, false);
    late := Fail(1);
  }

  // ------------------------------------------------ a delivery that is misreported

  function JustAccepted(): System {
    Alone(LOCKED, Accepted(LOCKED), 1).(tallies := [NEW_TALLY.(calls := 1, accepted := 1)])
  }

  /** Within any bound: a delivery write that takes effect and reports an error is undone by its own catch branch. */
  lemma MisreportedDeliveryUndone(d: int) returns (s: System, step: Step)
    requires d > 0
    ensures Reachable(s, d, true) && Enabled(s, step) && Within(s, step, d)
    ensures |s.rows| == 1 && s.rows[0].state == Delivered && Apply(s, step).rows[0].state == Retry
  {
    FirstCalls(d, true);
    Go(Alone(LOCKED, Calling(LOCKED), 1), Return(1, Took), JustAccepted(), d, true);
    s := Apply(JustAccepted(), Deliver(1, WrittenButThrew));
    Go(JustAccepted(), Deliver(1, WrittenButThrew), s, d, true);
    step := Fail(1);
  }

  // ------------------------------------------------ when terminal rows are safe

  ghost predicate KeepsTerminalRows(ss: seq<System>, steps: seq<Step>)
    requires IsRun(ss, steps)
  {
    forall i, j, id :: 0 <= i <= j < |ss| && 0 <= id < |ss[i].rows| && Terminal(ss[i].rows[id]) ==>
      id < |ss[j].rows| && ss[j].rows[id] == ss[i].rows[id]
  }

  /** A dispatcher's start is not in the future, so a bound of zero lets nobody write at all. */
  lemma NobodyWrites(ss: seq<System>, steps: seq<Step>, d: int, i: nat)
    requires IsRun(ss, steps) && AllowedRun(ss, steps, d, true) && d <= 0 && i < |steps|
    ensures !WritesRow(steps[i])
  {
    assert TimelyRun(ss, steps);
    InvAlways(ss, steps, i);
    forall w | w in ss[i].workers ensures ss[i].workers[w].now <= ss[i].clock {
      assert WorkerOk(ss[i], ss[i].workers[w]);
    }
  }

  lemma TerminalSafe(ss: seq<System>, steps: seq<Step>, d: int, lies: bool)
    requires IsRun(ss, steps) && AllowedRun(ss, steps, d, lies)
    requires d <= 0 || (d <= LOCK_MS && !lies)
    ensures KeepsTerminalRows(ss, steps)
  {
    assert TimelyRun(ss, steps);
    if d <= 0 {
      forall i | 0 <= i < |steps| ensures !Misreports(steps[i]) {
        NobodyWrites(ss, steps, d, i);
      }
    }
    forall i, j, id | 0 <= i <= j < |ss| && 0 <= id < |ss[i].rows| && Terminal(ss[i].rows[id])
      ensures id < |ss[j].rows| && ss[j].rows[id] == ss[i].rows[id]
    {
      TerminalForever(ss, steps, i, j, id);
    }
  }

  /** One allowed step from a reachable state, over a terminal row, makes an allowed run that does not keep it. */
  lemma OneStepTooMany(s: System, step: Step, d: int, lies: bool) returns (ss: seq<System>, steps: seq<Step>)
    requires Reachable(s, d, lies) && Enabled(s, step) && Within(s, step, d) && (lies || !Misreports(step))
    requires |s.rows| == 1 && Terminal(s.rows[0]) && !Terminal(Apply(s, step).rows[0])
    ensures IsRun(ss, steps) && AllowedRun(ss, steps, d, lies) && !KeepsTerminalRows(ss, steps)
  {
    var before, taken :| IsRun(before, taken) && AllowedRun(before, taken, d, lies) && before[|taken|] == s;
    var t := Apply(s, step);
    ss, steps := before + [t], taken + [step];
    assert IsRun(ss, steps) && AllowedRun(ss, steps, d, lies);
    assert ss[|taken|] == s && ss[|taken| + 1] == t;
    assert Terminal(ss[|taken|].rows[0]) && ss[|taken| + 1].rows[0] != ss[|taken|].rows[0];
  }

  /** What a smaller bound and truer reports reach, a larger bound and looser ones reach too. */
  lemma ReachableMore(s: System, d: int, lies: bool, d': int, lies': bool)
    requires Reachable(s, d, lies) && d <= d' && (lies ==> lies')
    ensures Reachable(s, d', lies')
  {
    var ss, steps :| IsRun(ss, steps) && AllowedRun(ss, steps, d, lies) && ss[|steps|] == s;
    assert AllowedRun(ss, steps, d', lies');
  }

  lemma TerminalUnsafe(d: int, lies: bool) returns (ss: seq<System>, steps: seq<Step>)
    requires d > 0 && (d > LOCK_MS || lies)
    ensures IsRun(ss, steps) && AllowedRun(ss, steps, d, lies) && !KeepsTerminalRows(ss, steps)
  {
    if lies {
      var s, step := MisreportedDeliveryUndone(d);
      ss, steps := OneStepTooMany(s, step, d, lies);
    } else {
      var s, late := LateWriterOverwritesDelivered();
      ReachableMore(s, LOCK_MS, false, d, lies);
      ss, steps := OneStepTooMany(s, late, d, lies);
    }
  }

  /**
   When terminal rows are safe. In all runs whose row writes come less than `d` after their
   writer's start they are never overwritten if and only if `d` is at most the lock period
   and no delivery write takes effect and reports an error (or nothing is ever written).
   */
  lemma TerminalSafeIff(d: int, lies: bool)
    ensures (forall ss, steps :: IsRun(ss, steps) && AllowedRun(ss, steps, d, lies) ==> KeepsTerminalRows(ss, steps))
      <==> d <= 0 || (d <= LOCK_MS && !lies)
  {
    if d <= 0 || (d <= LOCK_MS && !lies) {
      forall ss, steps | IsRun(ss, steps) && AllowedRun(ss, steps, d, lies) ensures KeepsTerminalRows(ss, steps) {
        TerminalSafe(ss, steps, d, lies);
      }
    } else {
      var ss, steps := TerminalUnsafe(d, lies);
    }
  }
}
