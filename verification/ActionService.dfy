/**
 The request handlers of an AI action, written against a row that other requests change
 between any two of their statements (apps/api/src/services/aiDraftService.ts and
 apps/api/src/services/actionQueueService.ts). Each statement is one step of ActionLease.
 */
module ActionService {
  import opened Common
  import opened ActionLease
  import opened ActionLaws

  datatype ExecuteResult =
    | NotExecutable
    | BeingProcessed
    | AlreadyResponded
    | NoRecipientEmail
    | SendFailed
    | Partial
    | Done
    | Died

  class ActionRow {
    var status: Status
    var lockedUntil: Option<int>
    var attemptCount: nat
    var decidedAt: Option<int>
    var snoozedUntil: Option<int>

    const sourceIsInquiry: bool
    // Nothing goes wrong: no statement fails, no process dies and nobody else is at work.
    const calm: bool
    var responded: bool
    var clock: int

    // Bookkeeping of the machine: requests under way, and what happened so far.
    var requests: map<nat, Request>
    var emails: nat
    var commits: nat
    var failedTransactions: nat
    var lostSends: nat
    var lostCommits: nat

    function Row(): Action
      reads this
    {
      Action(status, lockedUntil, attemptCount, decidedAt, snoozedUntil)
    }

    function World(): System
      reads this
    {
      System(clock, Row(), sourceIsInquiry, responded, requests, emails, commits, failedTransactions,
             lostSends, lostCommits)
    }

    ghost predicate Valid()
      reads this
    {
      Inv(World())
    }

    constructor (sourceIsInquiry: bool, responded: bool, calm: bool)
      ensures Valid() && status == Pending && requests == map[] && emails == 0 && commits == 0
      ensures this.sourceIsInquiry == sourceIsInquiry && this.responded == responded && this.calm == calm
    {
      this.sourceIsInquiry, this.responded, this.calm := sourceIsInquiry, responded, calm;
      status, lockedUntil, attemptCount, decidedAt, snoozedUntil := Pending, None, 0, None, None;
      clock, requests, emails, commits, failedTransactions, lostSends, lostCommits := 0, map[], 0, 0, 0, 0, 0;
    }

    method Become(after: System)
      requires after.sourceIsInquiry == sourceIsInquiry
      modifies this
      ensures World() == after
    {
      clock, responded, requests := after.clock, after.responded, after.requests;
      emails, commits, failedTransactions := after.emails, after.commits, after.failedTransactions;
      lostSends, lostCommits := after.lostSends, after.lostCommits;
      status, lockedUntil, attemptCount := after.action.status, after.action.lockedUntil, after.action.attemptCount;
      decidedAt, snoozedUntil := after.action.decidedAt, after.action.snoozedUntil;
    }

    method Take(step: Step)
      requires Valid() && Enabled(World(), step)
      modifies this
      ensures Valid() && World() == Apply(old(World()), step)
    {
      InvKept(World(), step);
      var after := Apply(World(), step);
      Become(after);
    }

    /** Whether the process dies here. */
    method Dies() returns (dies: bool)
      ensures calm ==> !dies
    {
      dies := *;
      dies := dies && !calm;
    }

    /** At most one step, not by request `me`. */
    method Disturb(me: nat)
      requires Valid() && me in requests
      modifies this
      ensures Valid() && me in requests && requests[me] == old(requests[me]) && Grows(old(World()), World())
    {
      var step: Step := *;
      if Enabled(World(), step) && Actor(step) != Some(me) {
        OthersStay(World(), step, me);
        HistoryGrows(World(), step);
        Take(step);
      }
    }

    /** Any number of steps, none of them by request `me`. */
    method Interfere(me: nat)
      requires Valid() && me in requests
      modifies this
      ensures Valid() && me in requests && requests[me] == old(requests[me]) && Grows(old(World()), World())
      ensures calm ==> World() == old(World())
    {
      if calm { return; }
      var n: nat := *;
      while n > 0
        invariant Valid() && me in requests && requests[me] == old(requests[me]) && Grows(old(World()), World())
      {
        Disturb(me);
        n := n - 1;
      }
    }

    // ------------------------------------------------------------- row statements

    /** The guarded `updateMany`: the count tells whether the lease was taken. */
    method AcquireLease(me: nat) returns (count: nat)
      requires Valid() && Enabled(World(), Lease(me))
      modifies this
      ensures Valid() && World() == Apply(old(World()), Lease(me))
      ensures count == 0 || count == 1
      ensures count == 1 <==>
        old(status) in {Pending, Approved, Failed} && (old(lockedUntil) == None || old(lockedUntil).value <= clock)
      ensures count == 1 ==> status == Executing && lockedUntil == Some(clock + 90 * 1000)
    {
      InvKept(World(), Lease(me));
      var free := lockedUntil == None || lockedUntil.value <= clock;
      if (status == Pending || status == Approved || status == Failed) && free {
        status, lockedUntil, attemptCount := Executing, Some(clock + LEASE_MS), attemptCount + 1;
        requests := requests[me := requests[me].(phase := Leased)];
        count := 1;
      } else {
        requests := requests - {me};
        count := 0;
      }
    }

    method MarkFailed(me: nat)
      requires Valid() && Enabled(World(), WriteFailed(me))
      modifies this
      ensures Valid() && World() == Apply(old(World()), WriteFailed(me))
    {
      InvKept(World(), WriteFailed(me));
      status, lockedUntil := Failed, None;
      requests := requests - {me};
    }

    method MarkExpired(me: nat)
      requires Valid() && Enabled(World(), Expire(me))
      modifies this
      ensures Valid() && World() == Apply(old(World()), Expire(me))
    {
      InvKept(World(), Expire(me));
      status := Expired;
      requests := requests - {me};
    }

    method MarkReviewed(me: nat, seenDecidedAt: Option<int>)
      requires Valid() && In(World(), me, Reviewing) && requests[me].seen == seenDecidedAt
      modifies this
      ensures Valid() && World() == Apply(old(World()), WriteReview(me))
    {
      InvKept(World(), WriteReview(me));
      decidedAt := if seenDecidedAt == None then Some(clock) else seenDecidedAt;
      requests := requests - {me};
    }

    method MarkDismissed(me: nat)
      requires Valid() && Enabled(World(), WriteDismiss(me))
      modifies this
      ensures Valid() && World() == Apply(old(World()), WriteDismiss(me))
    {
      InvKept(World(), WriteDismiss(me));
      status, decidedAt := Dismissed, Some(clock);
      requests := requests - {me};
    }

    method MarkSnoozed(me: nat, until: int)
      requires Valid() && In(World(), me, Snoozing(until))
      modifies this
      ensures Valid() && World() == Apply(old(World()), WriteSnooze(me))
    {
      InvKept(World(), WriteSnooze(me));
      status, snoozedUntil := Snoozed, Some(until);
      requests := requests - {me};
    }

    method MarkFinished(me: nat, sendEmail: bool, seenDecidedAt: Option<int>)
      requires Valid() && Enabled(World(), Finish(me))
      requires requests[me].sendEmail == sendEmail && requests[me].seen == seenDecidedAt
      modifies this
      ensures Valid() && World() == Apply(old(World()), Finish(me))
    {
      InvKept(World(), Finish(me));
      status := if sendEmail then Sent else Executed;
      decidedAt := if seenDecidedAt == None then Some(clock) else seenDecidedAt;
      lockedUntil := None;
      requests := requests - {me};
    }

    /** `markSourceResponded` and the other CRM writes, in one transaction that commits or is rolled back. */
    method RunTransaction(me: nat, sendEmail: bool, tx: TxOutcome)
      requires In(World(), me, Mailed) && requests[me].sendEmail == sendEmail
      modifies this
      ensures World() == Apply(old(World()), Commit(me, tx))
      ensures responded == (old(responded) || (tx != RolledBack && sendEmail && sourceIsInquiry))
    {
      if tx != RolledBack {
        if sendEmail && sourceIsInquiry {
          responded := true;
        }
        commits := commits + 1;
      }
      if tx == Succeeded {
        requests := requests[me := requests[me].(phase := Committed)];
      } else {
        failedTransactions := failedTransactions + 1;
        lostCommits := lostCommits + if tx == CommittedButThrew then 1 else 0;
        requests := requests[me := requests[me].(phase := TxFailed)];
      }
    }

    /** The transaction, and the error it may report although it committed. */
    method CommitCrmChanges(me: nat, sendEmail: bool) returns (ok: bool, ghost tx: TxOutcome)
      requires Valid() && In(World(), me, Mailed) && requests[me].sendEmail == sendEmail
      modifies this
      ensures Valid() && World() == Apply(old(World()), Commit(me, tx))
      ensures responded == (old(responded) || (tx != RolledBack && sendEmail && sourceIsInquiry))
      ensures (ok <==> tx == Succeeded) && (calm ==> ok)
    {
      var outcome: TxOutcome :| calm ==> outcome == Succeeded;
      InvKept(World(), Commit(me, outcome));
      RunTransaction(me, sendEmail, outcome);
      ok, tx := outcome == Succeeded, outcome;
    }

    // ------------------------------------------------------------------- handlers

    /** The process dies while its request holds the action. */
    method Die(me: nat)
      requires Valid() && Holder(World(), me)
      modifies this
      ensures Valid() && me !in requests && Stuck(World()) && Grows(old(World()), World())
    {
      CrashSticks(World(), me);
      HistoryGrows(World(), Crash(me));
      Take(Crash(me));
    }

    /** Send, and mark the action failed when that does not work; the process may die before the mark. */
    method SendToLead(me: nat, hasRecipient: bool) returns (failure: Option<ExecuteResult>)
      requires Valid() && In(World(), me, Leased) && requests[me].sendEmail
      modifies this
      ensures Valid() && Grows(old(World()), World())
      ensures failure.None? ==> hasRecipient && requests == old(requests)[me := old(requests[me]).(phase := Mailed)]
      ensures failure.None? ==> emails == old(emails) + 1 && commits == old(commits)
      ensures failure == Some(Died) ==> Stuck(World())
      ensures failure.Some? ==> me !in requests
      ensures failure.Some? ==> failure.value in {if hasRecipient then SendFailed else NoRecipientEmail, Died}
      ensures failure.Some? && failure.value != Died ==> status == Failed && lockedUntil == None
      ensures calm ==> failure == if hasRecipient then None else Some(NoRecipientEmail)
    {
      failure := None;
      var outcome: SendOutcome := NoRecipient;
      if hasRecipient {
        outcome :| outcome != NoRecipient && (calm ==> outcome == Accepted);
      }
      HistoryGrows(World(), Mail(me, outcome));
      Take(Mail(me, outcome));
      if outcome != Accepted {
        failure := FailSend(me, hasRecipient);
      }
    }

    method FailSend(me: nat, hasRecipient: bool) returns (failure: Option<ExecuteResult>)
      requires Valid() && In(World(), me, Refused)
      modifies this
      ensures Valid() && Grows(old(World()), World()) && me !in requests
      ensures failure in {Some(if hasRecipient then SendFailed else NoRecipientEmail), Some(Died)}
      ensures if failure == Some(Died) then Stuck(World()) else status == Failed && lockedUntil == None
      ensures calm ==> failure != Some(Died)
    {
      Interfere(me);
      assert Holder(World(), me);
      var dies := Dies();
      if dies {
        Die(me);
        return Some(Died);
      }
      MarkFailed(me);
      failure := Some(if hasRecipient then SendFailed else NoRecipientEmail);
    }

    /** Step 3: send first. A failure marks the action and ends the request; a crash leaves it EXECUTING. */
    method MailLead(me: nat, sendEmail: bool, hasRecipient: bool) returns (failure: Option<ExecuteResult>)
      requires Valid() && In(World(), me, Leased) && requests[me].sendEmail == sendEmail
      modifies this
      ensures Valid() && Grows(old(World()), World())
      ensures failure.None? && sendEmail ==> hasRecipient && emails > old(emails)
      ensures failure.None? ==> me in requests && requests[me] == old(requests[me]).(phase := Mailed)
      ensures failure.Some? ==> me !in requests
      ensures failure.Some? ==> failure.value in {if hasRecipient then SendFailed else NoRecipientEmail, Died}
      ensures failure == Some(Died) ==> Stuck(World())
      ensures failure.Some? && failure.value != Died ==> sendEmail && status == Failed && lockedUntil == None
      ensures calm ==> failure == if sendEmail && !hasRecipient then Some(NoRecipientEmail) else None
      ensures calm && failure.None? ==> emails == old(emails) + (if sendEmail then 1 else 0) && commits == old(commits)
    {
      Interfere(me);
      assert Holder(World(), me);
      var dies := Dies();
      if dies {
        Die(me);
        return Some(Died);
      }
      if sendEmail {
        failure := SendToLead(me, hasRecipient);
      } else {
        Take(Mail(me, Accepted));
        failure := None;
      }
    }

    /** Step 5: mark the action terminal, or failed when the transaction reported an error. */
    method EndRun(me: nat, ok: bool, sendEmail: bool, seenDecidedAt: Option<int>) returns (result: ExecuteResult)
      requires Valid() && In(World(), me, if ok then Committed else TxFailed)
      requires requests[me].sendEmail == sendEmail && requests[me].seen == seenDecidedAt
      modifies this
      ensures Valid() && me !in requests && Grows(old(World()), World())
      ensures result in {if ok then Done else Partial, Died} && (calm ==> result != Died)
      ensures calm ==> commits == old(commits) && emails == old(emails)
      ensures result == Partial ==> status == Failed && lockedUntil == None
      ensures result == Done ==> commits > lostCommits && status == (if sendEmail then Sent else Executed)
      ensures result == Done ==> decidedAt == (if seenDecidedAt.Some? then seenDecidedAt else Some(clock))
      ensures result == Done ==> lockedUntil == None
      ensures result == Died ==> Stuck(World())
    {
      Interfere(me);
      assert Holder(World(), me);
      var dies := Dies();
      if dies {
        Die(me);
        return Died;
      }
      if !ok {
        MarkFailed(me);
        return Partial;
      }
      MarkFinished(me, sendEmail, seenDecidedAt);
      result := Done;
    }

    /** Steps 4 and 5: apply the CRM changes, then mark the action. */
    method ApplyAndFinish(me: nat, sendEmail: bool, seenDecidedAt: Option<int>) returns (result: ExecuteResult)
      requires Valid() && In(World(), me, Mailed)
      requires requests[me].sendEmail == sendEmail && requests[me].seen == seenDecidedAt
      modifies this
      ensures Valid() && me !in requests && Grows(old(World()), World())
      ensures result in {Partial, Done, Died}
      ensures calm ==> result == Done && commits == old(commits) + 1 && emails == old(emails)
      ensures result == Partial ==> status == Failed && lockedUntil == None
      ensures result == Partial ==> failedTransactions > old(failedTransactions)
      ensures result == Done ==> commits > lostCommits && status == (if sendEmail then Sent else Executed)
      ensures result == Done ==> decidedAt == (if seenDecidedAt.Some? then seenDecidedAt else Some(clock))
      ensures result == Done ==> lockedUntil == None
      ensures result == Done && sendEmail && sourceIsInquiry ==> responded
      ensures result == Died ==> Stuck(World())
    {
      var ok;
      ghost var tx;
      ok, tx := CommitCrmChanges(me, sendEmail);
      result := EndRun(me, ok, sendEmail, seenDecidedAt);
    }

    /** Steps 3 to 5, under the lease. */
    method RunLeased(me: nat, sendEmail: bool, hasRecipient: bool, seenDecidedAt: Option<int>)
      returns (result: ExecuteResult)
      requires Valid() && In(World(), me, Leased)
      requires requests[me].sendEmail == sendEmail && requests[me].seen == seenDecidedAt
      modifies this
      ensures Valid() && me !in requests && Grows(old(World()), World())
      ensures result in {NoRecipientEmail, SendFailed, Partial, Done, Died}
      ensures calm ==> result == if sendEmail && !hasRecipient then NoRecipientEmail else Done
      ensures calm && result == Done ==>
        emails == old(emails) + (if sendEmail then 1 else 0) && commits == old(commits) + 1
      ensures result in {NoRecipientEmail, SendFailed, Partial} ==> status == Failed && lockedUntil == None
      ensures result == NoRecipientEmail ==> sendEmail && !hasRecipient
      ensures result == SendFailed ==> sendEmail && hasRecipient
      ensures sendEmail && result in {Partial, Done} ==> hasRecipient && emails > old(emails)
      ensures result == Partial ==> failedTransactions > old(failedTransactions)
      ensures result == Done ==> commits > lostCommits && status == (if sendEmail then Sent else Executed)
      ensures result == Done ==> decidedAt.Some? && lockedUntil == None
      ensures result == Done && sendEmail && sourceIsInquiry ==> responded
      ensures result == Died ==> Stuck(World())
    {
      var failure := MailLead(me, sendEmail, hasRecipient);
      if failure.Some? {
        return failure.value;
      }
      Interfere(me);
      result := ApplyAndFinish(me, sendEmail, seenDecidedAt);
    }

    /** Read the row and refuse it, or go on with what was read. */
    method ReadRow(me: nat, sendEmail: bool) returns (refusal: Option<ExecuteResult>)
      requires Valid() && me !in requests
      modifies this
      ensures Valid() && Row() == old(Row()) && Grows(old(World()), World())
      ensures responded == old(responded) && emails == old(emails) && commits == old(commits)
      ensures refusal == if Executable(status) then None else Some(NotExecutable)
      ensures if refusal.Some? then me !in requests
              else me in requests && requests[me] == Request(sendEmail, Validated, decidedAt)
    {
      Take(Begin(me, sendEmail));
      var executable := status == Pending || status == Approved || status == Failed;
      var locked := lockedUntil.Some? && lockedUntil.value > clock;
      Take(Validate(me));
      refusal := if !executable then Some(NotExecutable) else if locked then Some(BeingProcessed) else None;
    }

    /** Step 1: validate the row and check its source; no result means the request may try for the lease. */
    method Revalidate(me: nat, sendEmail: bool) returns (refusal: Option<ExecuteResult>, alreadySent: bool)
      requires Valid() && me !in requests
      modifies this
      ensures Valid() && Grows(old(World()), World())
      ensures refusal == if Executable(old(status)) then None else Some(NotExecutable)
      ensures refusal.Some? ==> me !in requests && status == old(status)
      ensures refusal.None? ==> me in requests && requests[me].sendEmail == sendEmail
      ensures refusal.None? ==> requests[me].phase == if alreadySent then Expiring else Cleared
      ensures alreadySent ==> refusal.None? && responded
      ensures calm && refusal.None? ==> Row() == old(Row()) && alreadySent == (sourceIsInquiry && old(responded))
      ensures calm ==> emails == old(emails) && commits == old(commits)
    {
      alreadySent := false;
      refusal := ReadRow(me, sendEmail);
      if refusal.None? {
        Interfere(me);
        alreadySent := sourceIsInquiry && responded;
        HistoryGrows(World(), CheckSource(me));
        Take(CheckSource(me));
      }
    }

    /** Steps 2 to 5: the lease, and everything under it. */
    method LeaseAndRun(me: nat, sendEmail: bool, hasRecipient: bool)
      returns (result: ExecuteResult, ghost leased: bool)
      requires Valid() && In(World(), me, Cleared) && requests[me].sendEmail == sendEmail
      modifies this
      ensures Valid() && me !in requests && Grows(old(World()), World())
      ensures result in {BeingProcessed, NoRecipientEmail, SendFailed, Partial, Done, Died}
      ensures leased <==> result != BeingProcessed
      ensures result == BeingProcessed <==> !Executable(old(status))
      ensures result == BeingProcessed ==> Row() == old(Row())
      ensures leased ==> attemptCount > old(attemptCount)
      ensures result in {NoRecipientEmail, SendFailed, Partial} ==> status == Failed && lockedUntil == None
      ensures result == NoRecipientEmail ==> sendEmail && !hasRecipient
      ensures result == SendFailed ==> sendEmail && hasRecipient
      ensures sendEmail && result in {Partial, Done} ==> hasRecipient && emails > old(emails)
      ensures result == Partial ==> failedTransactions > old(failedTransactions)
      ensures result == Done ==> commits > lostCommits && status == (if sendEmail then Sent else Executed)
      ensures result == Done ==> decidedAt.Some? && lockedUntil == None
      ensures result == Done && sendEmail && sourceIsInquiry ==> responded
      ensures result == Died ==> Stuck(World())
      ensures calm && leased ==> result == if sendEmail && !hasRecipient then NoRecipientEmail else Done
      ensures calm && result == Done ==>
        emails == old(emails) + (if sendEmail then 1 else 0) && commits == old(commits) + 1
    {
      var seenDecidedAt := requests[me].seen;
      HistoryGrows(World(), Lease(me));
      var count := AcquireLease(me);
      if count != 1 {
        return BeingProcessed, false;
      }
      leased := true;
      result := RunLeased(me, sendEmail, hasRecipient, seenDecidedAt);
    }

    /**
     `executeLeadResponse`, and what each of its answers says about the row and its inquiry.
     "Being processed" is only ever answered when another request took the row since the
     validation. A process that died after its lease leaves a row that stays out of execution.
     */
    method ExecuteLeadResponse(me: nat, sendEmail: bool, hasRecipient: bool)
      returns (result: ExecuteResult, ghost leased: bool)
      requires Valid() && me !in requests
      modifies this
      ensures Valid() && me !in requests
      ensures result == NotExecutable ==> status == old(status)
      ensures result == NotExecutable <==> old(status) !in {Pending, Approved, Failed}
      ensures result == BeingProcessed ==> Executable(old(status)) && !Executable(status)
      ensures result == AlreadyResponded ==> responded && status == Expired
      ensures result in {NoRecipientEmail, SendFailed, Partial} ==> status == Failed && lockedUntil == None
      ensures result == NoRecipientEmail ==> sendEmail && !hasRecipient
      ensures result == SendFailed ==> sendEmail && hasRecipient
      ensures result in {NotExecutable, BeingProcessed, AlreadyResponded} ==> !leased
      ensures result in {NoRecipientEmail, SendFailed, Partial, Done} ==> leased
      ensures result == Died && leased ==> Stuck(World())
      ensures leased ==> attemptCount > old(attemptCount)
      ensures sendEmail && result in {Partial, Done} ==> hasRecipient && emails > old(emails)
      ensures result == Partial ==> failedTransactions > old(failedTransactions)
      ensures result == Done ==> commits > lostCommits && status == (if sendEmail then Sent else Executed)
      ensures result == Done ==> decidedAt.Some? && lockedUntil == None
      ensures result == Done && sendEmail && sourceIsInquiry ==> responded
      // when nothing goes wrong, the answer is decided by what the handler read
      ensures calm ==>
        result == (if old(status) !in {Pending, Approved, Failed} then NotExecutable
                   else if sourceIsInquiry && old(responded) then AlreadyResponded
                   else if sendEmail && !hasRecipient then NoRecipientEmail
                   else Done)
      ensures calm && result == Done ==>
        emails == old(emails) + (if sendEmail then 1 else 0) && commits == old(commits) + 1
    {
      leased := false;
      var refusal, alreadySent := Revalidate(me, sendEmail);
      if refusal.Some? {
        return refusal.value, false;
      }
      Interfere(me);
      var dies := Dies();
      if dies { Take(Crash(me)); return Died, false; }
      if alreadySent {
        MarkExpired(me);
        return AlreadyResponded, false;
      }
      result, leased := LeaseAndRun(me, sendEmail, hasRecipient);
    }

    /** A review timestamp that this request saw stays; otherwise the row gets the current time. */
    method Review(me: nat) returns (seen: Option<int>)
      requires Valid() && me !in requests
      modifies this
      ensures Valid() && me !in requests && seen == old(decidedAt)
      ensures decidedAt == if seen.Some? then seen else Some(clock)
    {
      Take(Begin(me, false));
      assert Row() == old(Row());
      seen := decidedAt;
      Take(ReadForReview(me));
      assert requests[me].seen == seen;
      Interfere(me);
      MarkReviewed(me, seen);
    }

    /** Refuses what is terminal when read; otherwise the row ends DISMISSED whatever happened since. */
    method Dismiss(me: nat) returns (dismissed: bool)
      requires Valid() && me !in requests
      modifies this
      ensures Valid() && me !in requests
      ensures dismissed <==> old(status) !in {Executed, Sent, Dismissed, Expired}
      ensures if dismissed then status == Dismissed && decidedAt == Some(clock) else Row() == old(Row())
    {
      Take(Begin(me, false));
      dismissed := !(status == Executed || status == Sent || status == Dismissed || status == Expired);
      assert Row() == old(Row());
      Take(ReadForDismiss(me));
      assert Row() == old(Row());
      if dismissed {
        Interfere(me);
        MarkDismissed(me);
      }
    }

    /** Read the row; go on unless it is terminal. */
    method OpenForSnooze(me: nat, until: int) returns (open: bool)
      requires Valid() && me !in requests
      modifies this
      ensures Valid() && Row() == old(Row()) && open == !Final(status)
      ensures if open then In(World(), me, Snoozing(until)) else me !in requests
    {
      Take(Begin(me, false));
      assert Row() == old(Row()) && In(World(), me, Started);
      open := !(status == Executed || status == Sent || status == Dismissed || status == Expired);
      Take(ReadForSnooze(me, until));
    }

    method Snooze(me: nat, until: int) returns (snoozed: bool)
      requires Valid() && me !in requests
      modifies this
      ensures Valid() && me !in requests
      ensures snoozed <==> old(status) !in {Executed, Sent, Dismissed, Expired}
      ensures if snoozed then status == Snoozed && snoozedUntil == Some(until) else Row() == old(Row())
    {
      snoozed := OpenForSnooze(me, until);
      if snoozed {
        Interfere(me);
        MarkSnoozed(me, until);
      }
    }
  }
}
