/** What holds of an AI action over every interleaving of its requests, crashes included. */
module ActionLaws {
  import opened Common
  import opened ActionLease

  predicate Initial(s: System) {
    && s.action.status == Pending && s.action.lockedUntil.None?
    && s.requests == map[] && s.emails == 0 && s.commits == 0
    && s.failedTransactions == 0 && s.lostSends == 0 && s.lostCommits == 0
  }

  ghost predicate IsRun(ss: seq<System>, steps: seq<Step>) {
    && |ss| == |steps| + 1
    && Initial(ss[0])
    && (forall i {:trigger steps[i]} :: 0 <= i < |steps| ==>
      Enabled(ss[i], steps[i]) && ss[i + 1] == Apply(ss[i], steps[i]))
  }

  lemma {:induction false} InvAlways(ss: seq<System>, steps: seq<Step>, i: nat)
    requires IsRun(ss, steps) && i < |ss|
    ensures Inv(ss[i])
  {
    if i == 0 {
    } else {
      InvAlways(ss, steps, i - 1);
      InvKept(ss[i - 1], steps[i - 1]);
    }
  }

  /**
   At every moment of every run: one holder; one commit more than transactions that committed
   and reported an error; one email more than errors reported about an email or its transaction.
   */
  lemma ExecutedAtMostOnce(ss: seq<System>, steps: seq<Step>, i: nat, r: nat, q: nat)
    requires IsRun(ss, steps) && i < |ss|
    ensures Holder(ss[i], r) && Holder(ss[i], q) ==> r == q
    ensures Holder(ss[i], r) ==> !Executable(ss[i].action.status)
    ensures ss[i].lostCommits <= ss[i].commits <= 1 + ss[i].lostCommits
    ensures ss[i].emails <= 1 + Failures(ss[i])
    ensures Executable(ss[i].action.status) ==> ss[i].emails <= Failures(ss[i]) && ss[i].commits == ss[i].lostCommits
  {
    InvAlways(ss, steps, i);
  }

  /** What happened stays: counters never shrink, and an answered inquiry stays answered. */
  lemma {:induction false} CountersGrow(ss: seq<System>, steps: seq<Step>, i: nat, j: nat)
    requires IsRun(ss, steps) && i <= j < |ss|
    ensures Grows(ss[i], ss[j])
  {
    if i == j {
    } else {
      CountersGrow(ss, steps, i, j - 1);
      HistoryGrows(ss[j - 1], steps[j - 1]);
    }
  }

  lemma CommittedStep(s: System, step: Step)
    requires Inv(s) && Enabled(s, step) && s.commits > s.lostCommits
    ensures Apply(s, step).commits == s.commits && Apply(s, step).lostCommits == s.lostCommits
    ensures Apply(s, step).emails == s.emails
  {
    if ByHolder(step) {
      ActorHolds(s, step);
    }
  }

  /** After a CRM transaction succeeded, an action is never executable again, and nothing more is sent or committed. */
  lemma {:induction false} CommittedForever(ss: seq<System>, steps: seq<Step>, i: nat, j: nat)
    requires IsRun(ss, steps) && i <= j < |ss| && ss[i].commits > ss[i].lostCommits
    ensures ss[j].commits == ss[i].commits && ss[j].lostCommits == ss[i].lostCommits && ss[j].emails == ss[i].emails
    ensures !Executable(ss[j].action.status)
  {
    InvAlways(ss, steps, j);
    if i == j {
    } else {
      CommittedForever(ss, steps, i, j - 1);
      InvAlways(ss, steps, j - 1);
      CommittedStep(ss[j - 1], steps[j - 1]);
    }
  }

  /** Nobody holds the action and no request may take it. */
  ghost predicate Stuck(s: System) {
    !Executable(s.action.status) && forall r :: !Holder(s, r)
  }

  lemma StuckStep(s: System, step: Step)
    requires Stuck(s) && Enabled(s, step)
    ensures Stuck(Apply(s, step))
    ensures Apply(s, step).emails == s.emails && Apply(s, step).commits == s.commits
  {
    if ByHolder(step) {
      ActorHolds(s, step);
    }
    forall q ensures !Holder(Apply(s, step), q) {
      if Holder(Apply(s, step), q) {
        HolderBefore(s, step, q);
      }
    }
  }

  /**
   Once nobody holds a row that is not executable, nothing is ever sent or committed for it
   again: the lease of an executor that died is not recovered, and a snoozed action is not
   executable after its snooze has passed. It may still be reviewed, dismissed or snoozed.
   */
  lemma {:induction false} StuckForever(ss: seq<System>, steps: seq<Step>, i: nat, j: nat)
    requires IsRun(ss, steps) && i <= j < |ss| && Stuck(ss[i])
    ensures Stuck(ss[j]) && ss[j].emails == ss[i].emails && ss[j].commits == ss[i].commits
  {
    if i == j {
    } else {
      StuckForever(ss, steps, i, j - 1);
      StuckStep(ss[j - 1], steps[j - 1]);
    }
  }

  /** The step that kills a holder leaves the action stuck. */
  lemma CrashSticks(s: System, r: nat)
    requires Inv(s) && Holder(s, r)
    ensures Stuck(Apply(s, Crash(r)))
  {
    var t := Apply(s, Crash(r));
    forall q ensures !Holder(t, q) {
      if Holder(t, q) {
        HolderBefore(s, Crash(r), q);
      }
    }
  }

  /** The clock test in the lease's guard never decides: in a reachable state the status alone does. */
  lemma LeaseClockNeverDecides(ss: seq<System>, steps: seq<Step>, i: nat, now: int)
    requires IsRun(ss, steps) && i < |ss|
    ensures LeaseGuard(ss[i].action, now) <==> Executable(ss[i].action.status)
  {
    InvAlways(ss, steps, i);
  }

  // -------------------------------------------------- when an action can be executed again

  /** Taken one after the other, these steps lead from `s` to `t`. */
  ghost predicate Leads(s: System, steps: seq<Step>, t: System)
    decreases |steps|
  {
    if steps == [] then s == t
    else Enabled(s, steps[0]) && Leads(Apply(s, steps[0]), steps[1..], t)
  }

  /** Some continuation, of whatever requests, goes from `s` to `t`. */
  ghost predicate CanReach(s: System, t: System) {
    exists steps :: Leads(s, steps, t)
  }

  lemma Stay(s: System)
    ensures CanReach(s, s)
  {
    assert Leads(s, [], s);
  }

  lemma First(s: System, step: Step, t: System)
    requires Enabled(s, step) && CanReach(Apply(s, step), t)
    ensures CanReach(s, t)
  {
    var steps :| Leads(Apply(s, step), steps, t);
    assert ([step] + steps)[1..] == steps;
    assert Leads(s, [step] + steps, t);
  }

  lemma OneStep(s: System, step: Step)
    requires Enabled(s, step)
    ensures CanReach(s, Apply(s, step))
  {
    Stay(Apply(s, step));
    First(s, step, Apply(s, step));
  }

  lemma {:induction false} OnTheWay(s: System, steps: seq<Step>, t: System, u: System)
    requires Leads(s, steps, t) && CanReach(t, u)
    ensures CanReach(s, u)
    decreases |steps|
  {
    if steps == [] {
    } else {
      OnTheWay(Apply(s, steps[0]), steps[1..], t, u);
      First(s, steps[0], u);
    }
  }

  lemma Onwards(s: System, t: System, u: System)
    requires CanReach(s, t) && CanReach(t, u)
    ensures CanReach(s, u)
  {
    var steps :| Leads(s, steps, t);
    OnTheWay(s, steps, t, u);
  }

  ghost predicate CanBecomeExecutable(s: System) {
    exists t :: CanReach(s, t) && Executable(t.action.status)
  }

  /** Some request holds the action and has not committed its CRM transaction. */
  ghost predicate HeldUncommitted(s: System) {
    exists r :: Holder(s, r) && !s.requests[r].phase.Committed?
  }

  lemma ChanceIsOld(s: System, step: Step)
    requires Enabled(s, step)
    requires Executable(Apply(s, step).action.status) || HeldUncommitted(Apply(s, step))
    ensures Executable(s.action.status) || HeldUncommitted(s)
  {
    var t := Apply(s, step);
    if Executable(t.action.status) {
      if ByHolder(step) {
        ActorHolds(s, step);
      }
    } else {
      var q :| Holder(t, q) && !t.requests[q].phase.Committed?;
      HolderBefore(s, step, q);
      if Holder(s, q) && Actor(step) != Some(q) {
        OthersStay(s, step, q);
      }
    }
  }

  lemma {:induction false} ChanceIsOldest(s: System, steps: seq<Step>, t: System)
    requires Leads(s, steps, t) && Executable(t.action.status)
    ensures Executable(s.action.status) || HeldUncommitted(s)
    decreases |steps|
  {
    if steps == [] {
    } else {
      ChanceIsOldest(Apply(s, steps[0]), steps[1..], t);
      ChanceIsOld(s, steps[0]);
    }
  }

  /** What a run under the lease leaves when it fails: everything as it was but the row, which is FAILED. */
  predicate FailedFrom(s: System, r: nat, t: System) {
    && t.action.status == Failed && t.action.lockedUntil.None? && t.requests == s.requests - {r}
    && t.clock == s.clock && t.emails == s.emails
    && t.responded == s.responded && t.sourceIsInquiry == s.sourceIsInquiry
  }

  lemma FailureReopens(s: System, r: nat) returns (t: System)
    requires In(s, r, Refused) || In(s, r, TxFailed)
    ensures CanReach(s, t) && FailedFrom(s, r, t)
  {
    t := Apply(s, WriteFailed(r));
    OneStep(s, WriteFailed(r));
  }

  lemma MailedReopens(s: System, r: nat) returns (t: System)
    requires In(s, r, Mailed)
    ensures CanReach(s, t) && FailedFrom(s, r, t)
  {
    var failed := Apply(s, Commit(r, RolledBack));
    t := FailureReopens(failed, r);
    assert failed.requests - {r} == s.requests - {r};
    First(s, Commit(r, RolledBack), t);
  }

  lemma LeasedReopens(s: System, r: nat) returns (t: System)
    requires In(s, r, Leased)
    ensures CanReach(s, t) && FailedFrom(s, r, t)
  {
    var outcome := if s.requests[r].sendEmail then Threw else Accepted;
    var next := Apply(s, Mail(r, outcome));
    if s.requests[r].sendEmail {
      t := FailureReopens(next, r);
    } else {
      t := MailedReopens(next, r);
    }
    assert next.requests - {r} == s.requests - {r};
    First(s, Mail(r, outcome), t);
  }

  /** A run under the lease can end in FAILED from every point before its commit. */
  lemma HolderReopens(s: System, r: nat) returns (t: System)
    requires Holder(s, r) && !s.requests[r].phase.Committed?
    ensures CanReach(s, t) && FailedFrom(s, r, t)
  {
    match s.requests[r].phase
    case Leased => t := LeasedReopens(s, r);
    case Mailed => t := MailedReopens(s, r);
    case _ => t := FailureReopens(s, r);
  }

  /**
   In every state, an action can become executable again if and only if it is executable, or
   a request holds it that has not committed its CRM transaction.
   */
  lemma CanBecomeExecutableIff(s: System)
    ensures CanBecomeExecutable(s) <==> Executable(s.action.status) || HeldUncommitted(s)
  {
    if Executable(s.action.status) {
      Stay(s);
    } else if HeldUncommitted(s) {
      var r :| Holder(s, r) && !s.requests[r].phase.Committed?;
      var t := HolderReopens(s, r);
    } else if CanBecomeExecutable(s) {
      var t :| CanReach(s, t) && Executable(t.action.status);
      var steps :| Leads(s, steps, t);
      ChanceIsOldest(s, steps, t);
      assert false;
    }
  }

  /** A dismissal sticks, and a snooze ends the action, if and only if no uncommitted request holds it at the write. */
  lemma SetAsideForGoodIff(s: System, step: Step)
    requires Enabled(s, step) && (step.WriteDismiss? || step.WriteSnooze?)
    ensures CanBecomeExecutable(Apply(s, step)) <==> HeldUncommitted(s)
  {
    var t := Apply(s, step);
    CanBecomeExecutableIff(t);
    forall q: nat ensures Holder(t, q) <==> Holder(s, q) {
      if Actor(step) != Some(q) && q in s.requests {
        OthersStay(s, step, q);
      }
    }
    assert forall q :: Holder(s, q) ==> t.requests[q] == s.requests[q];
  }

  /** In a run, the death of the holder leaves an action that can never be executed again. */
  lemma CrashedIsNeverExecutable(ss: seq<System>, steps: seq<Step>, i: nat, r: nat)
    requires IsRun(ss, steps) && i < |steps| && steps[i] == Crash(r) && Holder(ss[i], r)
    ensures !CanBecomeExecutable(ss[i + 1])
  {
    InvAlways(ss, steps, i);
    CrashSticks(ss[i], r);
    CanBecomeExecutableIff(ss[i + 1]);
  }

  // ------------------------------------------------------ when a finished action stays finished

  /** This request has read the row already, and may still write another status than `status`. */
  predicate MayOverwrite(r: Request, status: Status, sourceIsInquiry: bool) {
    match r.phase
    case Snoozing(_) => true
    case Dismissing => status != Dismissed
    case Expiring => status != Expired
    case Validated => sourceIsInquiry && status != Expired
    case Committed => status != if r.sendEmail then Sent else Executed
    case Leased => true
    case Refused => true
    case Mailed => true
    case TxFailed => true
    case _ => false
  }

  ghost predicate SomeMayOverwrite(s: System) {
    exists r :: r in s.requests && MayOverwrite(s.requests[r], s.action.status, s.sourceIsInquiry)
  }

  ghost predicate StatusCanChange(s: System) {
    exists t :: CanReach(s, t) && t.action.status != s.action.status
  }

  lemma OverwriterIsOld(s: System, step: Step)
    requires Enabled(s, step) && s.action.status in {Sent, Executed, Dismissed, Expired}
    requires Apply(s, step).action.status != s.action.status || SomeMayOverwrite(Apply(s, step))
    ensures SomeMayOverwrite(s)
  {
    var t := Apply(s, step);
    if t.action.status != s.action.status {
      assert step.r in s.requests && MayOverwrite(s.requests[step.r], s.action.status, s.sourceIsInquiry);
    } else {
      var q :| q in t.requests && MayOverwrite(t.requests[q], t.action.status, t.sourceIsInquiry);
      if Actor(step) != Some(q) && q in s.requests {
        OthersStay(s, step, q);
      }
      assert q in s.requests && MayOverwrite(s.requests[q], s.action.status, s.sourceIsInquiry);
    }
  }

  lemma {:induction false} OverwriterIsOldest(s: System, steps: seq<Step>, t: System)
    requires Leads(s, steps, t) && s.action.status in {Sent, Executed, Dismissed, Expired}
    requires t.action.status != s.action.status
    ensures SomeMayOverwrite(s)
    decreases |steps|
  {
    if steps == [] {
    } else {
      var next := Apply(s, steps[0]);
      if next.action.status == s.action.status {
        OverwriterIsOldest(next, steps[1..], t);
      }
      OverwriterIsOld(s, steps[0]);
    }
  }

  lemma OneWriteChanges(s: System, step: Step)
    requires Enabled(s, step) && Apply(s, step).action.status != s.action.status
    ensures StatusCanChange(s)
  {
    OneStep(s, step);
  }

  /** A run that validated the row may still find its inquiry answered, and expire the action. */
  lemma ValidatedExpires(s: System, r: nat)
    requires In(s, r, Validated) && s.sourceIsInquiry && s.action.status != Expired
    ensures StatusCanChange(s)
  {
    var answered := Apply(s, SourceAnswered);
    var expiring := Apply(answered, CheckSource(r));
    var t := Apply(expiring, Expire(r));
    OneStep(expiring, Expire(r));
    First(answered, CheckSource(r), t);
    First(s, SourceAnswered, t);
  }

  lemma OverwriterWrites(s: System, r: nat)
    requires r in s.requests && MayOverwrite(s.requests[r], s.action.status, s.sourceIsInquiry)
    requires s.action.status in {Sent, Executed, Dismissed, Expired}
    ensures StatusCanChange(s)
  {
    match s.requests[r].phase
    case Snoozing(_) => OneWriteChanges(s, WriteSnooze(r));
    case Dismissing => OneWriteChanges(s, WriteDismiss(r));
    case Expiring => OneWriteChanges(s, Expire(r));
    case Validated => ValidatedExpires(s, r);
    case Committed => OneWriteChanges(s, Finish(r));
    case _ => var t := HolderReopens(s, r);
  }

  /**
   A finished action can still change its status if and only if some request had read it before
   it was finished and is still to write something else. No request that reads it from now on can.
   */
  lemma FinishedChangesIff(s: System)
    requires s.action.status in {Sent, Executed, Dismissed, Expired}
    ensures StatusCanChange(s) <==> SomeMayOverwrite(s)
  {
    if SomeMayOverwrite(s) {
      var r :| r in s.requests && MayOverwrite(s.requests[r], s.action.status, s.sourceIsInquiry);
      OverwriterWrites(s, r);
    } else if StatusCanChange(s) {
      var t :| CanReach(s, t) && t.action.status != s.action.status;
      var steps :| Leads(s, steps, t);
      OverwriterIsOldest(s, steps, t);
      assert false;
    }
  }

  // -------------------------------------------------------------- responded source

  /** Past the responded check, and still going to send. */
  predicate WillSend(r: Request) {
    r.sendEmail && (r.phase.Cleared? || r.phase.Leased?)
  }

  function Senders(s: System): set<nat> {
    set r | r in s.requests && WillSend(s.requests[r])
  }

  lemma SendersShrink(s: System, step: Step)
    requires s.sourceIsInquiry && s.responded && Enabled(s, step)
    ensures Senders(Apply(s, step)) <= Senders(s)
    ensures Apply(s, step).emails > s.emails ==>
      Apply(s, step).emails == s.emails + 1 && step.r in Senders(s) && step.r !in Senders(Apply(s, step))
  {
    forall q | q in Senders(Apply(s, step)) ensures q in Senders(s) {
      if q in s.requests && Actor(step) != Some(q) {
        OthersStay(s, step, q);
      }
    }
  }

  lemma SubsetSize(a: set<nat>, b: set<nat>, x: nat)
    requires a <= b
    ensures |a| <= |b| && (x in b && x !in a ==> |a| < |b|)
  {
    assert b == a + (b - a);
    assert x in b && x !in a ==> x in b - a;
  }

  lemma SenderSends(s: System, step: Step)
    requires s.sourceIsInquiry && s.responded && Enabled(s, step)
    ensures Apply(s, step).emails + |Senders(Apply(s, step))| <= s.emails + |Senders(s)|
  {
    SendersShrink(s, step);
    SubsetSize(Senders(Apply(s, step)), Senders(s), if Actor(step).Some? then step.r else 0);
  }

  /**
   Once the inquiry is answered, each run already past the check can email it at most once,
   and no other run can: emails and the runs still to send, together, never grow.
   */
  lemma {:induction false} MailAfterResponse(ss: seq<System>, steps: seq<Step>, i: nat, j: nat)
    requires IsRun(ss, steps) && i <= j < |ss| && ss[i].sourceIsInquiry && ss[i].responded
    ensures ss[i].emails <= ss[j].emails
    ensures ss[j].emails + |Senders(ss[j])| <= ss[i].emails + |Senders(ss[i])|
  {
    CountersGrow(ss, steps, i, j);
    if i == j {
    } else {
      MailAfterResponse(ss, steps, i, j - 1);
      CountersGrow(ss, steps, i, j - 1);
      SenderSends(ss[j - 1], steps[j - 1]);
    }
  }

  /** The commit of an emailed lead marks its inquiry answered, for good, also when it reports an error. */
  lemma EmailedCommitAnswers(ss: seq<System>, steps: seq<Step>, i: nat, j: nat)
    requires IsRun(ss, steps) && i < j < |ss| && steps[i].Commit? && !steps[i].tx.RolledBack?
    requires ss[i].requests[steps[i].r].sendEmail && ss[i].sourceIsInquiry
    ensures ss[j].responded
  {
    CountersGrow(ss, steps, i + 1, j);
  }

  // -------------------------------------------------- when another email can go out

  predicate Answered(s: System) { s.sourceIsInquiry && s.responded }

  /** A run is about to send. */
  ghost predicate AboutToSend(s: System) {
    exists r :: r in s.requests && s.requests[r].sendEmail && s.requests[r].phase.Leased?
  }

  /** The row can be leased again, by a run that is past the responded check or will pass it. */
  ghost predicate MayStartToSend(s: System) {
    (Executable(s.action.status) || HeldUncommitted(s))
    && (!Answered(s) || exists r :: r in s.requests && WillSend(s.requests[r]))
  }

  ghost predicate CanSendAgain(s: System) {
    exists t :: CanReach(s, t) && t.emails > s.emails
  }

  lemma SendingIsOld(s: System, step: Step)
    requires Enabled(s, step)
    requires Apply(s, step).emails > s.emails || AboutToSend(Apply(s, step)) || MayStartToSend(Apply(s, step))
    ensures AboutToSend(s) || MayStartToSend(s)
  {
    var t := Apply(s, step);
    if t.emails > s.emails {
      assert step.Mail? && In(s, step.r, Leased);
    } else if AboutToSend(t) {
      var r :| r in t.requests && t.requests[r].sendEmail && t.requests[r].phase.Leased?;
      if Actor(step) != Some(r) && r in s.requests {
        OthersStay(s, step, r);
      }
      assert r in s.requests && WillSend(s.requests[r]);
    } else {
      ChanceIsOld(s, step);
      if Answered(t) && Answered(s) {
        var r :| r in t.requests && WillSend(t.requests[r]);
        if Actor(step) != Some(r) && r in s.requests {
          OthersStay(s, step, r);
        }
        assert r in s.requests && WillSend(s.requests[r]);
      }
    }
  }

  lemma {:induction false} SendingIsOldest(s: System, steps: seq<Step>, t: System)
    requires Leads(s, steps, t) && t.emails > s.emails
    ensures AboutToSend(s) || MayStartToSend(s)
    decreases |steps|
  {
    if steps == [] {
    } else {
      var next := Apply(s, steps[0]);
      if next.emails <= s.emails {
        SendingIsOldest(next, steps[1..], t);
      }
      SendingIsOld(s, steps[0]);
    }
  }

  lemma LeasedSends(s: System, r: nat)
    requires In(s, r, Leased) && s.requests[r].sendEmail
    ensures CanSendAgain(s)
  {
    OneStep(s, Mail(r, Accepted));
  }

  lemma StepThenSend(s: System, step: Step)
    requires Enabled(s, step) && Apply(s, step).emails == s.emails && CanSendAgain(Apply(s, step))
    ensures CanSendAgain(s)
  {
    var t :| CanReach(Apply(s, step), t) && t.emails > Apply(s, step).emails;
    First(s, step, t);
  }

  lemma ClearedSends(s: System, r: nat)
    requires In(s, r, Cleared) && s.requests[r].sendEmail && LeaseGuard(s.action, s.clock)
    ensures CanSendAgain(s)
  {
    LeasedSends(Apply(s, Lease(r)), r);
    StepThenSend(s, Lease(r));
  }

  lemma FreshRunSends(s: System)
    requires !Answered(s) && LeaseGuard(s.action, s.clock)
    ensures CanSendAgain(s)
  {
    var r := FreshId(s.requests.Keys);
    var begun := Apply(s, Begin(r, true));
    var validated := Apply(begun, Validate(r));
    ClearedSends(Apply(validated, CheckSource(r)), r);
    StepThenSend(validated, CheckSource(r));
    StepThenSend(begun, Validate(r));
    StepThenSend(s, Begin(r, true));
  }

  /** On an executable row without a lock: a run past the check sends, or a new one does. */
  lemma ExecutableSends(s: System)
    requires LeaseGuard(s.action, s.clock) && MayStartToSend(s)
    ensures CanSendAgain(s)
  {
    if !Answered(s) {
      FreshRunSends(s);
    } else {
      var r :| r in s.requests && WillSend(s.requests[r]);
      if s.requests[r].phase.Leased? {
        LeasedSends(s, r);
      } else {
        ClearedSends(s, r);
      }
    }
  }

  lemma HeldSends(s: System, h: nat)
    requires Holder(s, h) && !s.requests[h].phase.Committed? && MayStartToSend(s) && !AboutToSend(s)
    ensures CanSendAgain(s)
  {
    var t := HolderReopens(s, h);
    if Answered(s) {
      var r :| r in s.requests && WillSend(s.requests[r]);
      assert r != h && t.requests[r] == s.requests[r];
    }
    ExecutableSends(t);
    var u :| CanReach(t, u) && u.emails > t.emails;
    Onwards(s, t, u);
  }

  /**
   In every state that keeps the invariant, some continuation sends another email if and only
   if a run is about to, or the row is executable or held without a commit and the inquiry is
   open or a run is already past its check.
   */
  lemma CanSendAgainIff(s: System)
    requires Inv(s)
    ensures CanSendAgain(s) <==> AboutToSend(s) || MayStartToSend(s)
  {
    if AboutToSend(s) {
      var r :| r in s.requests && s.requests[r].sendEmail && s.requests[r].phase.Leased?;
      LeasedSends(s, r);
    } else if MayStartToSend(s) {
      if Executable(s.action.status) {
        ExecutableSends(s);
      } else {
        var h :| Holder(s, h) && !s.requests[h].phase.Committed?;
        HeldSends(s, h);
      }
    } else if CanSendAgain(s) {
      var t :| CanReach(s, t) && t.emails > s.emails;
      var steps :| Leads(s, steps, t);
      SendingIsOldest(s, steps, t);
      assert false;
    }
  }

  // ------------------------------------------------------------------ the bounds are met

  ghost predicate Reachable(s: System) {
    exists ss, steps :: IsRun(ss, steps) && ss[|steps|] == s
  }

  lemma Go(s: System, step: Step, t: System)
    requires Reachable(s) && Enabled(s, step) && Apply(s, step) == t
    ensures Reachable(t)
  {
    var ss, steps :| IsRun(ss, steps) && ss[|steps|] == s;
    var ss', steps' := ss + [t], steps + [step];
    assert IsRun(ss', steps') && ss'[|steps'|] == t;
  }

  /** Nobody is at work, the action can be leased, and its inquiry is open. */
  ghost predicate Idle(s: System) {
    Reachable(s) && s.requests == map[] && LeaseGuard(s.action, s.clock) && !Answered(s)
  }

  /** `s` with one request, past its validation. */
  function With(s: System, r: nat, sendEmail: bool, phase: Phase): System {
    s.(requests := map[r := Request(sendEmail, phase, s.action.decidedAt)])
  }

  /** The same, and the row leased. */
  function Held(s: System, r: nat, sendEmail: bool, phase: Phase): System {
    With(s, r, sendEmail, phase).(action := LeaseAction(s.action, s.clock))
  }

  lemma PassCheck(s: System, r: nat, sendEmail: bool)
    requires Idle(s)
    ensures Reachable(With(s, r, sendEmail, Cleared))
  {
    var started := s.(requests := map[r := Request(sendEmail, Started, None)]);
    Go(s, Begin(r, sendEmail), started);
    Go(started, Validate(r), With(s, r, sendEmail, Validated));
    Go(With(s, r, sendEmail, Validated), CheckSource(r), With(s, r, sendEmail, Cleared));
  }

  lemma TakeLease(s: System, r: nat, sendEmail: bool)
    requires Idle(s)
    ensures Reachable(Held(s, r, sendEmail, Leased))
  {
    PassCheck(s, r, sendEmail);
    Go(With(s, r, sendEmail, Cleared), Lease(r), Held(s, r, sendEmail, Leased));
  }

  /** The run sends its email, or has none to send. */
  function AfterMail(s: System, r: nat, sendEmail: bool): System {
    Held(s, r, sendEmail, Mailed).(emails := s.emails + if sendEmail then 1 else 0)
  }

  lemma GetMailed(s: System, r: nat, sendEmail: bool)
    requires Idle(s)
    ensures Reachable(AfterMail(s, r, sendEmail))
  {
    TakeLease(s, r, sendEmail);
    Go(Held(s, r, sendEmail, Leased), Mail(r, Accepted), AfterMail(s, r, sendEmail));
  }

  lemma GetFree(held: System, r: nat, free: System)
    requires Reachable(held) && In(held, r, TxFailed) && held.requests.Keys == {r} && !Answered(held)
    requires free == held.(requests := map[], action := FailAction(held.action))
    ensures Idle(free)
  {
    assert held.requests - {r} == map[];
    Go(held, WriteFailed(r), free);
  }

  /** An emailed run whose CRM transaction fails. */
  lemma MailThenFail(s: System, r: nat) returns (held: System)
    requires Idle(s)
    ensures Reachable(held) && held == Held(s, r, true, TxFailed).(
      emails := s.emails + 1, failedTransactions := s.failedTransactions + 1)
  {
    GetMailed(s, r, true);
    held := Apply(AfterMail(s, r, true), Commit(r, RolledBack));
    Go(AfterMail(s, r, true), Commit(r, RolledBack), held);
  }

  function Start(): System {
    System(0, Action(Pending, None, 0, None, None), true, false, map[], 0, 0, 0, 0, 0)
  }

  lemma StartIsIdle()
    ensures Idle(Start())
  {
    var noSteps: seq<Step> := [];
    assert IsRun([Start()], noSteps) && [Start()][|noSteps|] == Start();
  }

  /**
   A run whose CRM transaction fails leaves FAILED, which is executable: any number of
   emails can reach the same lead, one for each failed transaction.
   */
  lemma {:induction false} EmailedOncePerFailure(n: nat) returns (s: System)
    ensures Idle(s) && s.emails == n && Failures(s) == n
  {
    if n == 0 {
      StartIsIdle();
      s := Start();
    } else {
      var before := EmailedOncePerFailure(n - 1);
      var held := MailThenFail(before, 0);
      s := held.(requests := map[], action := FailAction(held.action));
      GetFree(held, 0, s);
    }
  }

  lemma EmailsBounded(s: System)
    requires Reachable(s)
    ensures s.emails <= Failures(s) + 1 && s.commits <= s.lostCommits + 1
  {
    var ss, steps :| IsRun(ss, steps) && ss[|steps|] == s;
    InvAlways(ss, steps, |steps|);
  }

  /** The bound on emails is exact: with at most `f` failures at most `m` go out, if and only if `m` exceeds `f`. */
  lemma EmailBoundIff(f: nat, m: nat)
    ensures (forall s :: Reachable(s) && Failures(s) <= f ==> s.emails <= m) <==> m > f
  {
    if m > f {
      forall s | Reachable(s) && Failures(s) <= f ensures s.emails <= m {
        EmailsBounded(s);
      }
    } else {
      var idle := EmailedOncePerFailure(f);
      GetMailed(idle, 0, true);
      assert Failures(AfterMail(idle, 0, true)) <= f && AfterMail(idle, 0, true).emails == f + 1;
    }
  }

  /** A run without an email whose transaction commits and reports an error. */
  lemma CommitThenThrow(s: System, r: nat) returns (held: System)
    requires Idle(s)
    ensures Reachable(held) && held == Held(s, r, false, TxFailed).(
      commits := s.commits + 1, lostCommits := s.lostCommits + 1, failedTransactions := s.failedTransactions + 1)
  {
    GetMailed(s, r, false);
    held := Apply(AfterMail(s, r, false), Commit(r, CommittedButThrew));
    Go(AfterMail(s, r, false), Commit(r, CommittedButThrew), held);
  }

  lemma {:induction false} CommittedOncePerLoss(n: nat) returns (s: System)
    ensures Idle(s) && s.commits == n && s.lostCommits == n
  {
    if n == 0 {
      StartIsIdle();
      s := Start();
    } else {
      var before := CommittedOncePerLoss(n - 1);
      var held := CommitThenThrow(before, 0);
      s := held.(requests := map[], action := FailAction(held.action));
      GetFree(held, 0, s);
    }
  }

  /** And so is the one on commits, in the transactions that committed and reported an error. */
  lemma CommitBoundIff(l: nat, m: nat)
    ensures (forall s :: Reachable(s) && s.lostCommits <= l ==> s.commits <= m) <==> m > l
  {
    if m > l {
      forall s | Reachable(s) && s.lostCommits <= l ensures s.commits <= m {
        EmailsBounded(s);
      }
    } else {
      var idle := CommittedOncePerLoss(l);
      GetMailed(idle, 0, false);
      var done := Apply(AfterMail(idle, 0, false), Commit(0, Succeeded));
      Go(AfterMail(idle, 0, false), Commit(0, Succeeded), done);
      assert done.lostCommits <= l && done.commits == l + 1;
    }
  }

  /** A dismissal read before the executor finished is overwritten: the dismissed action is executable again. */
  lemma DismissedWhileExecutingComesBack() returns (s: System, step: Step)
    ensures Reachable(s) && s.action.status == Dismissed
    ensures Enabled(s, step) && Executable(Apply(s, step).action.status)
  {
    StartIsIdle();
    var held := MailThenFail(Start(), 0);
    var starting := held.(requests := held.requests[1 := Request(false, Started, None)]);
    var dismissing := held.(requests := held.requests[1 := Request(false, Dismissing, None)]);
    Go(held, Begin(1, false), starting);
    Go(starting, ReadForDismiss(1), dismissing);
    s := held.(action := DismissAction(held.action, held.clock));
    assert dismissing.requests - {1} == held.requests;
    Go(dismissing, WriteDismiss(1), s);
    step := WriteFailed(0);
  }
}
