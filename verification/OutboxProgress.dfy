/**
 That the outbox makes progress: who is found by a dispatcher and in which order, and that
 every row that is not a dead letter can still be delivered in time, from every state.
 */
module OutboxProgress {
  import opened Common
  import opened Outbox
  import opened OutboxLaws

  // ------------------------------------------------------------ who is found, in which order

  /** What the candidate query asks of a row at `now`. */
  predicate DueNow(row: Row, now: int) {
    || (row.state == Pending && row.nextAttemptAt <= now)
    || (row.state == Retry && row.nextAttemptAt <= now)
    || (row.state == Processing && row.lockedAt.Some? && now - row.lockedAt.value >= 15 * 60 * 1000)
  }

  /** The due rows created before row `id`. */
  function OlderDue(rows: seq<Row>, now: int, id: nat): set<nat>
    requires id <= |rows|
  {
    set j: nat | j < id && DueNow(rows[j], now)
  }

  lemma OlderDueGrows(rows: seq<Row>, now: int, id: nat)
    requires id < |rows|
    ensures |OlderDue(rows, now, id + 1)| == |OlderDue(rows, now, id)| + if DueNow(rows[id], now) then 1 else 0
  {
    var before, after := OlderDue(rows, now, id), OlderDue(rows, now, id + 1);
    if DueNow(rows[id], now) {
      assert after == before + {id};
    } else {
      assert after == before;
    }
  }

  lemma SameOlderDue(rows: seq<Row>, now: int, n: nat, id: nat)
    requires id <= n <= |rows|
    ensures OlderDue(rows[..n], now, id) == OlderDue(rows, now, id)
  {
  }

  lemma {:induction false} DueCount(rows: seq<Row>, now: int)
    ensures |Due(rows, now)| == |OlderDue(rows, now, |rows|)|
  {
    if rows == [] {
      assert OlderDue(rows, now, 0) == {};
    } else {
      var n := |rows| - 1;
      DueCount(rows[..n], now);
      SameOlderDue(rows, now, n, n);
      OlderDueGrows(rows, now, n);
    }
  }

  lemma DueSplits(rows: seq<Row>, now: int)
    requires rows != []
    ensures Due(rows, now)
      == Due(rows[..|rows| - 1], now) + if DueNow(rows[|rows| - 1], now) then [|rows| - 1] else []
  {
  }

  /** A due row stands behind exactly the due rows that are older. */
  lemma {:induction false} DuePosition(rows: seq<Row>, now: int, id: nat)
    requires id < |rows| && DueNow(rows[id], now)
    ensures |OlderDue(rows, now, id)| < |Due(rows, now)| && Due(rows, now)[|OlderDue(rows, now, id)|] == id
  {
    var n := |rows| - 1;
    var front := Due(rows[..n], now);
    DueSplits(rows, now);
    if id == n {
      DueCount(rows[..n], now);
      SameOlderDue(rows, now, n, n);
    } else {
      DuePosition(rows[..n], now, id);
      SameOlderDue(rows, now, n, id);
      assert front[|OlderDue(rows, now, id)|] == id;
    }
  }

  function Room(limit: int): nat {
    if limit < 1 then 1 else if limit > 100 then 100 else limit
  }

  lemma CandidateIff(rows: seq<Row>, now: int, limit: int, id: nat)
    requires id < |rows|
    ensures id in Candidates(rows, now, limit) <==> DueNow(rows[id], now) && |OlderDue(rows, now, id)| < Room(limit)
  {
    var todo, due := Candidates(rows, now, limit), Due(rows, now);
    if DueNow(rows[id], now) {
      DuePosition(rows, now, id);
      if id in todo {
        var i :| 0 <= i < |todo| && todo[i] == id;
        assert due[i] == due[|OlderDue(rows, now, id)|];
      }
    }
  }

  /**
   A dispatcher that starts at `now` finds a row if and only if it is due and fewer than the
   limit (between 1 and 100) of the due rows are older; and it takes them oldest first.
   */
  lemma FoundIff(s: System, w: nat, now: int, limit: int, id: nat)
    requires Enabled(s, Begin(w, now, limit)) && id < |s.rows|
    ensures
      var todo := Apply(s, Begin(w, now, limit)).workers[w].todo;
      && (id in todo <==> DueNow(s.rows[id], now) && |OlderDue(s.rows, now, id)| < Room(limit))
      && (forall i, j :: 0 <= i < j < |todo| ==> todo[i] < todo[j])
  {
    CandidateIff(s.rows, now, limit, id);
  }

  // ------------------------------------------------------------------------- continuations

  /** Taken one after the other, each in time, these steps lead from `s` to `t`. */
  ghost predicate Leads(s: System, steps: seq<Step>, t: System)
    decreases |steps|
  {
    if steps == [] then s == t
    else Enabled(s, steps[0]) && Timely(s, steps[0]) && Leads(Apply(s, steps[0]), steps[1..], t)
  }

  ghost predicate CanReach(s: System, t: System) {
    exists steps :: Leads(s, steps, t)
  }

  lemma Stay(s: System)
    ensures CanReach(s, s)
  {
    assert Leads(s, [], s);
  }

  lemma First(s: System, step: Step, t: System)
    requires Enabled(s, step) && Timely(s, step) && CanReach(Apply(s, step), t)
    ensures CanReach(s, t)
  {
    var steps :| Leads(Apply(s, step), steps, t);
    assert ([step] + steps)[1..] == steps;
    assert Leads(s, [step] + steps, t);
  }

  lemma {:induction false} OnTheWay(s: System, steps: seq<Step>, t: System, u: System)
    requires Leads(s, steps, t) && CanReach(t, u)
    ensures CanReach(s, u)
    decreases |steps|
  {
    if steps == [] {
    } else {
      OnTheWay(Apply(s, steps[0]), steps[1..], t, u);
      First(s, steps[0], u);
    }
  }

  lemma Onwards(s: System, t: System, u: System)
    requires CanReach(s, t) && CanReach(t, u)
    ensures CanReach(s, u)
  {
    var steps :| Leads(s, steps, t);
    OnTheWay(s, steps, t, u);
  }

  // ----------------------------------------------------------------------- one delivery

  /** Dispatcher `w` is in time, and has row `id` before it in this phase. */
  predicate At(s: System, w: nat, id: nat, phase: Phase) {
    && InTime(s, w) && |s.tallies| == |s.rows| && id < |s.rows|
    && s.workers[w].phase == phase && s.workers[w].pos < |s.workers[w].todo|
    && s.workers[w].todo[s.workers[w].pos] == id
  }

  /** The same state, row `id` delivered. */
  predicate Delivers(s: System, id: nat, t: System) {
    && id < |s.rows| == |t.rows| && t.clock == s.clock && t.rows[id].state == Delivered
    && forall j :: 0 <= j < |s.rows| && j != id ==> t.rows[j] == s.rows[j]
  }

  lemma AcceptedDelivers(s: System, w: nat, id: nat, row: Row) returns (t: System)
    requires Inv(s) && At(s, w, id, Accepted(row))
    ensures CanReach(s, t) && Inv(t) && Delivers(s, id, t)
  {
    t := Apply(s, Deliver(w, Written));
    InvKept(s, Deliver(w, Written));
    Stay(t);
    First(s, Deliver(w, Written), t);
  }

  lemma CallingDelivers(s: System, w: nat, id: nat, row: Row) returns (t: System)
    requires Inv(s) && At(s, w, id, Calling(row))
    ensures CanReach(s, t) && Inv(t) && Delivers(s, id, t)
  {
    InvKept(s, Return(w, Took));
    t := AcceptedDelivers(Apply(s, Return(w, Took)), w, id, row);
    First(s, Return(w, Took), t);
  }

  lemma LoadedDelivers(s: System, w: nat, id: nat, row: Row) returns (t: System)
    requires Inv(s) && At(s, w, id, Loaded(row))
    ensures CanReach(s, t) && Inv(t) && Delivers(s, id, t)
  {
    InvKept(s, Call(w));
    t := CallingDelivers(Apply(s, Call(w)), w, id, row);
    First(s, Call(w), t);
  }

  lemma ClaimedDelivers(s: System, w: nat, id: nat) returns (t: System)
    requires Inv(s) && At(s, w, id, Claimed)
    ensures CanReach(s, t) && Inv(t) && Delivers(s, id, t)
  {
    InvKept(s, Load(w));
    t := LoadedDelivers(Apply(s, Load(w)), w, id, s.rows[id]);
    First(s, Load(w), t);
  }

  lemma TopDelivers(s: System, w: nat, id: nat) returns (t: System)
    requires Inv(s) && At(s, w, id, AtTop) && DueNow(s.rows[id], s.workers[w].now)
    ensures CanReach(s, t) && Inv(t) && Delivers(s, id, t)
  {
    InvKept(s, Claim(w));
    t := ClaimedDelivers(Apply(s, Claim(w)), w, id);
    First(s, Claim(w), t);
  }

  /** A new dispatcher with room for one row delivers the oldest of the due rows. */
  lemma OldestDelivers(s: System, id: nat) returns (t: System, oldest: nat)
    requires Inv(s) && id < |s.rows| && DueNow(s.rows[id], s.clock)
    ensures CanReach(s, t) && Inv(t) && Delivers(s, oldest, t) && DueNow(s.rows[oldest], s.clock)
  {
    var w := FreshId(s.workers.Keys);
    var begun := Apply(s, Begin(w, s.clock, 1));
    InvKept(s, Begin(w, s.clock, 1));
    assert id in Due(s.rows, s.clock);
    oldest := begun.workers[w].todo[0];
    t := TopDelivers(begun, w, oldest);
    First(s, Begin(w, s.clock, 1), t);
  }

  // -------------------------------------------------------------------- every row, in the end

  /** How long until the row is due. */
  function Wait(row: Row, clock: int): nat {
    var at := if row.state == Processing && row.lockedAt.Some? then row.lockedAt.value + LOCK_MS else row.nextAttemptAt;
    if at <= clock then 0 else at - clock
  }

  function Open(rows: seq<Row>): set<nat> {
    set i: nat | i < |rows| && rows[i].state != Delivered && rows[i].state != DeadLetter
  }

  lemma FewerOpen(s: System, id: nat, t: System)
    requires Delivers(s, id, t) && id in Open(s.rows)
    ensures |Open(t.rows)| < |Open(s.rows)|
  {
    assert Open(t.rows) == Open(s.rows) - {id};
  }

  /** Rows are taken oldest first: this one after the due rows before it, each by a dispatcher of its own. */
  lemma {:induction false} OpenRowDelivers(s: System, id: nat) returns (t: System)
    requires Inv(s) && id in Open(s.rows)
    ensures CanReach(s, t) && id < |t.rows| && t.rows[id].state == Delivered
    decreases |Open(s.rows)|
  {
    var wait := Tick(Wait(s.rows[id], s.clock));
    var later := Apply(s, wait);
    InvKept(s, wait);
    assert RowOk(s.rows[id]);
    var u, oldest := OldestDelivers(later, id);
    if oldest == id {
      t := u;
    } else {
      FewerOpen(later, oldest, u);
      t := OpenRowDelivers(u, id);
      Onwards(later, u, t);
    }
    First(s, wait, t);
  }

  lemma {:induction false} DeadStaysDead(s: System, steps: seq<Step>, t: System, id: nat)
    requires Inv(s) && Leads(s, steps, t) && id < |s.rows| && s.rows[id].state == DeadLetter
    ensures id < |t.rows| && t.rows[id].state == DeadLetter
    decreases |steps|
  {
    if steps == [] {
    } else {
      InvKept(s, steps[0]);
      TerminalRowChangesIff(s, steps[0], id);
      DeadStaysDead(Apply(s, steps[0]), steps[1..], t, id);
    }
  }

  ghost predicate CanBeDelivered(s: System, id: nat) {
    exists t :: CanReach(s, t) && id < |t.rows| && t.rows[id].state == Delivered
  }

  /**
   No row is forgotten: from every state that keeps the invariant, so from every state of a
   timely run, some timely continuation delivers it, if and only if it is not a dead letter.
   */
  lemma CanBeDeliveredIff(s: System, id: nat)
    requires Inv(s) && id < |s.rows|
    ensures CanBeDelivered(s, id) <==> s.rows[id].state != DeadLetter
  {
    if s.rows[id].state == DeadLetter {
      forall t | CanReach(s, t) ensures id < |t.rows| && t.rows[id].state == DeadLetter {
        var steps :| Leads(s, steps, t);
        DeadStaysDead(s, steps, t, id);
      }
    } else if s.rows[id].state == Delivered {
      Stay(s);
    } else {
      var t := OpenRowDelivers(s, id);
    }
  }

  /** In every state of every timely run. */
  lemma NoRowForgotten(ss: seq<System>, steps: seq<Step>, i: nat, id: nat)
    requires IsRun(ss, steps) && TimelyRun(ss, steps) && i < |ss| && id < |ss[i].rows|
    ensures CanBeDelivered(ss[i], id) <==> ss[i].rows[id].state != DeadLetter
  {
    InvAlways(ss, steps, i);
    CanBeDeliveredIff(ss[i], id);
  }
}
