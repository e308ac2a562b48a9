/**
 One AI lead-response action, executed under a lease (apps/api/src/services/aiDraftService.ts)
 and reviewed, dismissed or snoozed (apps/api/src/services/actionQueueService.ts), as a state
 machine: every read and every write is a step of its own, any number of requests
 interleave, and each may die between two steps.
 */
module ActionLease {
  import opened Common

  const LEASE_MS := 90000

  datatype Status = Pending | Approved | Executing | Executed | Sent | Dismissed | Snoozed | Failed | Expired

  predicate Executable(s: Status) { s == Pending || s == Approved || s == Failed }

  predicate Final(s: Status) { s == Executed || s == Sent || s == Dismissed || s == Expired }

  datatype Action = Action(
    status: Status, lockedUntil: Option<int>, attemptCount: nat, decidedAt: Option<int>, snoozedUntil: Option<int>)

  /** The guard of the lease statement. */
  predicate LeaseGuard(a: Action, now: int) {
    Executable(a.status) && (a.lockedUntil.None? || a.lockedUntil.value <= now)
  }

  function LeaseAction(a: Action, now: int): Action {
    a.(status := Executing, lockedUntil := Some(now + LEASE_MS), attemptCount := a.attemptCount + 1)
  }

  function FailAction(a: Action): Action { a.(status := Failed, lockedUntil := None) }

  /** `decidedAt` is taken from the row as the executor first read it. */
  function FinishAction(a: Action, emailed: bool, decidedAt: Option<int>, now: int): Action {
    a.(status := if emailed then Sent else Executed,
       decidedAt := if decidedAt.Some? then decidedAt else Some(now),
       lockedUntil := None)
  }

  function ExpireAction(a: Action): Action { a.(status := Expired) }

  function ReviewAction(a: Action, decidedAt: Option<int>, now: int): Action {
    a.(decidedAt := if decidedAt.Some? then decidedAt else Some(now))
  }

  function DismissAction(a: Action, now: int): Action { a.(status := Dismissed, decidedAt := Some(now)) }

  function SnoozeAction(a: Action, until: int): Action { a.(status := Snoozed, snoozedUntil := Some(until)) }

  /** What a request will do next. Every phase but `Started` has read the row; `seen` is the `decidedAt` it read. */
  datatype Phase =
    | Started
    | Validated | Expiring | Cleared       // before the lease
    | Leased | Refused | Mailed | Committed | TxFailed  // under the lease
    | Reviewing | Dismissing | Snoozing(until: int)

  datatype Request = Request(sendEmail: bool, phase: Phase, seen: Option<int>)

  /** Between its lease and the write that ends it. */
  predicate Holds(r: Request) {
    r.phase.Leased? || r.phase.Refused? || r.phase.Mailed? || r.phase.Committed? || r.phase.TxFailed?
  }

  /**
   `responded` is what the responded check answers. The counters only grow: emails that went
   out, CRM transactions that committed, those that reported an error, and of the emails and
   commits the ones whose call reported an error all the same.
   */
  datatype System = System(
    clock: int,
    action: Action,
    sourceIsInquiry: bool,
    responded: bool,
    requests: map<nat, Request>,
    emails: nat,
    commits: nat,
    failedTransactions: nat,
    lostSends: nat,
    lostCommits: nat)

  /** `SentButThrew`: the email went out, and the call reported an error. */
  datatype SendOutcome = NoRecipient | Threw | SentButThrew | Accepted

  datatype TxOutcome = Succeeded | RolledBack | CommittedButThrew

  datatype Step =
    | Tick(elapsed: nat)
    | SourceAnswered
    | Begin(r: nat, sendEmail: bool)
    | Validate(r: nat)
    | CheckSource(r: nat)
    | Expire(r: nat)
    | Lease(r: nat)
    | Mail(r: nat, outcome: SendOutcome)
    | Commit(r: nat, tx: TxOutcome)
    | WriteFailed(r: nat)
    | Finish(r: nat)
    | ReadForReview(r: nat)
    | WriteReview(r: nat)
    | ReadForDismiss(r: nat)
    | WriteDismiss(r: nat)
    | ReadForSnooze(r: nat, until: int)
    | WriteSnooze(r: nat)
    | Crash(r: nat)

  /** The request a step belongs to. */
  function Actor(step: Step): Option<nat> {
    match step
    case Tick(_) => None
    case SourceAnswered => None
    case _ => Some(step.r)
  }

  predicate In(s: System, r: nat, phase: Phase) { r in s.requests && s.requests[r].phase == phase }

  predicate Enabled(s: System, step: Step) {
    match step
    case Tick(_) => true
    case SourceAnswered => s.sourceIsInquiry
    case Begin(r, _) => r !in s.requests
    case Validate(r) => In(s, r, Started)
    case CheckSource(r) => In(s, r, Validated)
    case Expire(r) => In(s, r, Expiring)
    case Lease(r) => In(s, r, Cleared)
    case Mail(r, outcome) => In(s, r, Leased) && (!s.requests[r].sendEmail ==> outcome == Accepted)
    case Commit(r, _) => In(s, r, Mailed)
    case WriteFailed(r) => In(s, r, Refused) || In(s, r, TxFailed)
    case Finish(r) => In(s, r, Committed)
    case ReadForReview(r) => In(s, r, Started)
    case WriteReview(r) => In(s, r, Reviewing)
    case ReadForDismiss(r) => In(s, r, Started)
    case WriteDismiss(r) => In(s, r, Dismissing)
    case ReadForSnooze(r, _) => In(s, r, Started)
    case WriteSnooze(r) => r in s.requests && s.requests[r].phase.Snoozing?
    case Crash(r) => r in s.requests
  }

  function Goto(s: System, r: nat, phase: Phase): System
    requires r in s.requests
  {
    s.(requests := s.requests[r := s.requests[r].(phase := phase)])
  }

  /** Go to `phase`, remembering the row's `decidedAt`. */
  function Saw(s: System, r: nat, phase: Phase): System
    requires r in s.requests
  {
    s.(requests := s.requests[r := s.requests[r].(phase := phase, seen := s.action.decidedAt)])
  }

  function Leave(s: System, r: nat): System {
    s.(requests := s.requests - {r})
  }

  function Apply(s: System, step: Step): System
    requires Enabled(s, step)
  {
    match step
    case Tick(elapsed) => s.(clock := s.clock + elapsed)
    case SourceAnswered => s.(responded := true)
    case Begin(r, sendEmail) => s.(requests := s.requests[r := Request(sendEmail, Started, None)])
    case Validate(r) => if LeaseGuard(s.action, s.clock) then Saw(s, r, Validated) else Leave(s, r)
    case CheckSource(r) => Goto(s, r, if s.sourceIsInquiry && s.responded then Expiring else Cleared)
    case Expire(r) => Leave(s, r).(action := ExpireAction(s.action))
    case Lease(r) =>
      if LeaseGuard(s.action, s.clock) then Goto(s, r, Leased).(action := LeaseAction(s.action, s.clock))
      else Leave(s, r)
    case Mail(r, outcome) =>
      if !s.requests[r].sendEmail then Goto(s, r, Mailed)
      else if outcome == Accepted then Goto(s, r, Mailed).(emails := s.emails + 1)
      else if outcome == SentButThrew then
        Goto(s, r, Refused).(emails := s.emails + 1, lostSends := s.lostSends + 1)
      else Goto(s, r, Refused)
    case Commit(r, tx) =>
      var answers := s.requests[r].sendEmail && s.sourceIsInquiry;
      (match tx
       case Succeeded => Goto(s, r, Committed).(commits := s.commits + 1, responded := s.responded || answers)
       case RolledBack => Goto(s, r, TxFailed).(failedTransactions := s.failedTransactions + 1)
       case CommittedButThrew => Goto(s, r, TxFailed).(
         commits := s.commits + 1, responded := s.responded || answers,
         failedTransactions := s.failedTransactions + 1, lostCommits := s.lostCommits + 1))
    case WriteFailed(r) => Leave(s, r).(action := FailAction(s.action))
    case Finish(r) =>
      Leave(s, r).(action := FinishAction(s.action, s.requests[r].sendEmail, s.requests[r].seen, s.clock))
    case ReadForReview(r) => Saw(s, r, Reviewing)
    case WriteReview(r) => Leave(s, r).(action := ReviewAction(s.action, s.requests[r].seen, s.clock))
    case ReadForDismiss(r) => if Final(s.action.status) then Leave(s, r) else Goto(s, r, Dismissing)
    case WriteDismiss(r) => Leave(s, r).(action := DismissAction(s.action, s.clock))
    case ReadForSnooze(r, until) => if Final(s.action.status) then Leave(s, r) else Goto(s, r, Snoozing(until))
    case WriteSnooze(r) => Leave(s, r).(action := SnoozeAction(s.action, s.requests[r].phase.until))
    case Crash(r) => Leave(s, r)
  }

  // ----------------------------------------------------------------- invariant

  predicate Holder(s: System, r: nat) { r in s.requests && Holds(s.requests[r]) }

  /** At most one request holds the action, and while one does the row is not executable. */
  ghost predicate Exclusive(s: System) {
    && (forall r, q :: Holder(s, r) && Holder(s, q) ==> r == q)
    && (forall r :: Holder(s, r) ==> !Executable(s.action.status))
  }

  /** An executable row never carries a lock, so the lease's clock test never decides anything. */
  predicate Unlocked(s: System) { Executable(s.action.status) ==> s.action.lockedUntil.None? }

  /** Of the CRM transactions that reported success at most one committed, and then for good. */
  ghost predicate CommittedOnce(s: System) {
    && s.lostCommits <= s.commits <= s.lostCommits + 1
    && (Executable(s.action.status) ==> s.commits == s.lostCommits)
    && (forall r :: Holder(s, r) ==> (s.requests[r].phase.Committed? <==> s.commits > s.lostCommits))
    && (s.commits > s.lostCommits && s.sourceIsInquiry && s.emails > Failures(s) ==> s.responded)
  }

  /** Errors that were reported about an email that may be out: by its own call, or by the transaction after it. */
  function Failures(s: System): nat { s.failedTransactions + s.lostSends }

  /** Its email is out, and nothing about it reported an error. */
  predicate HasMailed(r: Request) { r.sendEmail && (r.phase.Mailed? || r.phase.Committed?) }

  /** An email beyond the failures is the one of the run that holds, or of the last that did. */
  ghost predicate MailBounded(s: System) {
    && s.emails <= Failures(s) + 1
    && s.lostSends <= s.emails && s.lostCommits <= s.failedTransactions
    && (Executable(s.action.status) ==> s.emails <= Failures(s))
    && (forall r :: Holder(s, r) && !HasMailed(s.requests[r]) ==> s.emails <= Failures(s))
  }

  ghost predicate Inv(s: System) {
    Exclusive(s) && Unlocked(s) && CommittedOnce(s) && MailBounded(s)
  }

  /** Whoever holds after a step held before it, in the same run, or took the lease in it. */
  lemma HolderBefore(s: System, step: Step, q: nat)
    requires Enabled(s, step) && Holder(Apply(s, step), q)
    ensures (Holder(s, q) && Apply(s, step).requests[q].sendEmail == s.requests[q].sendEmail)
      || (step == Lease(q) && LeaseGuard(s.action, s.clock))
  {
  }

  /** The steps of the holder, the only ones that touch the counters or write FAILED. */
  predicate ByHolder(step: Step) { step.Mail? || step.Commit? || step.WriteFailed? || step.Finish? }

  lemma ActorHolds(s: System, step: Step)
    requires Enabled(s, step) && ByHolder(step)
    ensures Holder(s, step.r)
  {
  }

  lemma OthersStay(s: System, step: Step, q: nat)
    requires Enabled(s, step) && q in s.requests
    requires Actor(step) != Some(q)
    ensures q in Apply(s, step).requests && Apply(s, step).requests[q] == s.requests[q]
  {
  }

  /** What no step takes back. */
  ghost predicate Grows(s: System, t: System) {
    && s.commits <= t.commits && s.failedTransactions <= t.failedTransactions && s.emails <= t.emails
    && s.lostSends <= t.lostSends && s.lostCommits <= t.lostCommits
    && s.action.attemptCount <= t.action.attemptCount && (s.responded ==> t.responded)
    && s.sourceIsInquiry == t.sourceIsInquiry
  }

  lemma HistoryGrows(s: System, step: Step)
    requires Enabled(s, step)
    ensures Grows(s, Apply(s, step))
  {
  }

  lemma ExclusiveKept(s: System, step: Step)
    requires Inv(s) && Enabled(s, step)
    ensures Exclusive(Apply(s, step)) && Unlocked(Apply(s, step))
  {
    var t := Apply(s, step);
    if ByHolder(step) {
      ActorHolds(s, step);
    }
    forall q | Holder(t, q) ensures !Executable(t.action.status) {
      HolderBefore(s, step, q);
    }
    forall q, p | Holder(t, q) && Holder(t, p) ensures q == p {
      HolderBefore(s, step, q);
      HolderBefore(s, step, p);
    }
  }

  lemma CommittedOnceKept(s: System, step: Step)
    requires Inv(s) && Enabled(s, step)
    ensures CommittedOnce(Apply(s, step))
  {
    var t := Apply(s, step);
    if ByHolder(step) {
      ActorHolds(s, step);
    }
    forall q | Holder(t, q) ensures t.requests[q].phase.Committed? <==> t.commits > t.lostCommits {
      HolderBefore(s, step, q);
      if Holder(s, q) && Actor(step) != Some(q) {
        OthersStay(s, step, q);
      }
    }
  }

  lemma MailBoundedKept(s: System, step: Step)
    requires Inv(s) && Enabled(s, step)
    ensures MailBounded(Apply(s, step))
  {
    var t := Apply(s, step);
    if ByHolder(step) {
      ActorHolds(s, step);
    }
    forall q | Holder(t, q) && !HasMailed(t.requests[q])
      ensures t.emails <= Failures(t)
    {
      HolderBefore(s, step, q);
      if Holder(s, q) && Actor(step) != Some(q) {
        OthersStay(s, step, q);
      }
    }
  }

  lemma InvKept(s: System, step: Step)
    requires Inv(s) && Enabled(s, step)
    ensures Inv(Apply(s, step))
  {
    ExclusiveKept(s, step);
    CommittedOnceKept(s, step);
    MailBoundedKept(s, step);
  }
}
