/**
 The "responded" state of an inquiry and everyone who writes it: the owner's PATCH, which
 reads before it writes (apps/api/src/routes/ownerLeads.ts), the portal inbox's guarded
 PATCH (apps/api/src/routes/agentPortals.ts), the two respond handlers
 (apps/api/src/routes/agentInquiries.ts, apps/api/src/routes/users.ts) and the CRM
 transaction of an AI action (apps/api/src/services/aiDraftService.ts).
 */
module Inquiry {
  import opened Common

  datatype Status = New | Read | Responded | Archived

  datatype Inquiry = Inquiry(status: Status, respondedAt: Option<int>)

  /** `checkAlreadyResponded`. */
  predicate AlreadyResponded(q: Inquiry) { q.status == Responded || q.respondedAt.Some? }

  /** The recovery scan's filter on this row (apps/api/src/routes/cron.ts), its age aside. */
  predicate RecoverySelects(q: Inquiry) { q.respondedAt.None? && q.status != Responded }

  function RespondTo(q: Inquiry, now: int): Inquiry { Inquiry(Responded, Some(now)) }

  /** The owner's update, its `respondedAt` decision made on the row as it was read. */
  function OwnerUpdate(q: Inquiry, status: Status, seen: Option<int>, now: int): Inquiry {
    Inquiry(status, if status == Responded && seen.None? then Some(now) else q.respondedAt)
  }

  /** The owner may leave a responded inquiry responded, or archive it. */
  predicate OwnerAllowed(seen: Option<int>, status: Status) {
    seen.Some? ==> status == Responded || status == Archived
  }

  /** An owner request between its read and its write. */
  datatype Patch = Patch(status: Status, seen: Option<int>)

  datatype System = System(inquiry: Inquiry, patches: map<nat, Patch>)

  datatype Step =
    | OwnerRead(w: nat, status: Status)
    | OwnerWrite(w: nat, now: int)
    | PortalPatch(status: Status)
    | Respond(now: int)
    | Crash(w: nat)

  /** The step is one of the owner request `me`. */
  predicate Belongs(step: Step, me: nat) {
    match step
    case OwnerRead(w, _) => w == me
    case OwnerWrite(w, _) => w == me
    case PortalPatch(_) => false
    case Respond(_) => false
    case Crash(w) => w == me
  }

  predicate Enabled(s: System, step: Step) {
    match step
    case OwnerRead(w, _) => w !in s.patches
    case OwnerWrite(w, _) => w in s.patches
    case PortalPatch(status) => status != Responded
    case Respond(_) => true
    case Crash(w) => w in s.patches
  }

  function Apply(s: System, step: Step): System
    requires Enabled(s, step)
  {
    match step
    case OwnerRead(w, status) =>
      if OwnerAllowed(s.inquiry.respondedAt, status)
      then s.(patches := s.patches[w := Patch(status, s.inquiry.respondedAt)])
      else s
    case OwnerWrite(w, now) =>
      System(OwnerUpdate(s.inquiry, s.patches[w].status, s.patches[w].seen, now), s.patches - {w})
    case PortalPatch(status) =>
      if s.inquiry.status != Responded then s.(inquiry := s.inquiry.(status := status)) else s
    case Respond(now) => s.(inquiry := RespondTo(s.inquiry, now))
    case Crash(w) => s.(patches := s.patches - {w})
  }

  /** RESPONDED has its date, and a date once read by an owner request is still there. */
  ghost predicate Inv(s: System) {
    && (s.inquiry.status == Responded ==> s.inquiry.respondedAt.Some?)
    && (forall w :: w in s.patches ==>
          && OwnerAllowed(s.patches[w].seen, s.patches[w].status)
          && (s.patches[w].seen.Some? ==> s.inquiry.respondedAt.Some?))
  }

  lemma InvKept(s: System, step: Step)
    requires Inv(s) && Enabled(s, step)
    ensures Inv(Apply(s, step))
    ensures s.inquiry.respondedAt.Some? ==> Apply(s, step).inquiry.respondedAt.Some?
  {
  }

  ghost predicate IsRun(ss: seq<System>, steps: seq<Step>) {
    && |ss| == |steps| + 1
    && ss[0] == System(Inquiry(New, None), map[])
    && (forall i {:trigger steps[i]} :: 0 <= i < |steps| ==>
      Enabled(ss[i], steps[i]) && ss[i + 1] == Apply(ss[i], steps[i]))
  }

  lemma {:induction false} InvAlways(ss: seq<System>, steps: seq<Step>, i: nat)
    requires IsRun(ss, steps) && i < |ss|
    ensures Inv(ss[i])
  {
    if i == 0 {
    } else {
      InvAlways(ss, steps, i - 1);
      InvKept(ss[i - 1], steps[i - 1]);
    }
  }

  /**
   Responding is permanent as far as the second-email guard is concerned: across all
   writers, the check stays true and the recovery scan never selects the inquiry again.
   */
  lemma {:induction false} RespondedIsPermanent(ss: seq<System>, steps: seq<Step>, i: nat, j: nat)
    requires IsRun(ss, steps) && i <= j < |ss|
    requires AlreadyResponded(ss[i].inquiry)
    ensures ss[j].inquiry.respondedAt.Some?
    ensures AlreadyResponded(ss[j].inquiry) && !RecoverySelects(ss[j].inquiry)
  {
    InvAlways(ss, steps, i);
    if i == j {
    } else {
      RespondedIsPermanent(ss, steps, i, j - 1);
      InvAlways(ss, steps, j - 1);
      InvKept(ss[j - 1], steps[j - 1]);
    }
  }

  /** The visible status, on the other hand: shown as responded or archived. */
  predicate ShownResponded(q: Inquiry) {
    q.respondedAt.Some? && (q.status == Responded || q.status == Archived)
  }

  /**
   Exactly which steps break "a responded inquiry may only be archived": the portal inbox
   reopening an archived one, and an owner's write decided on a read that predates the response.
   */
  lemma LeavesRespondedIff(s: System, step: Step)
    requires Inv(s) && Enabled(s, step) && ShownResponded(s.inquiry)
    ensures !ShownResponded(Apply(s, step).inquiry) <==>
      || (step.PortalPatch? && step.status != Archived && s.inquiry.status == Archived)
      || (step.OwnerWrite? && s.patches[step.w].seen.None? && s.patches[step.w].status in {New, Read})
  {
  }

  /** It does break, with no two requests overlapping: respond, archive, then reopen from the portal inbox. */
  lemma RespondedInquiryReopened() returns (ss: seq<System>, steps: seq<Step>)
    ensures IsRun(ss, steps) && |steps| == 4
    ensures ss[1].inquiry.status == Responded && ss[3].inquiry.status == Archived && ss[4].inquiry.status == New
  {
    var s0 := System(Inquiry(New, None), map[]);
    steps := [Respond(1), OwnerRead(7, Archived), OwnerWrite(7, 2), PortalPatch(New)];
    var s1 := Apply(s0, steps[0]);
    var s2 := Apply(s1, steps[1]);
    var s3 := Apply(s2, steps[2]);
    ss := [s0, s1, s2, s3, Apply(s3, steps[3])];
  }

  /**
   Exactly what changes the date: a response, or an owner's write of RESPONDED decided on a
   read without one. Reading, archiving and reopening leave it alone.
   */
  lemma DateChangesIff(s: System, step: Step)
    requires Enabled(s, step)
    ensures
      var date := Apply(s, step).inquiry.respondedAt;
      date != s.inquiry.respondedAt <==>
        || (step.Respond? && s.inquiry.respondedAt != Some(step.now))
        || (step.OwnerWrite? && s.patches[step.w].status == Responded && s.patches[step.w].seen == None
            && s.inquiry.respondedAt != Some(step.now))
    ensures Apply(s, step).inquiry.respondedAt != s.inquiry.respondedAt ==>
      Apply(s, step).inquiry == Inquiry(Responded, Some(step.now))
  {
  }

  /** Exactly what changes the status; no portal step writes over RESPONDED, and none of them writes it. */
  lemma StatusChangesIff(s: System, step: Step)
    requires Enabled(s, step)
    ensures Apply(s, step).inquiry.status != s.inquiry.status <==>
      || (step.Respond? && s.inquiry.status != Responded)
      || (step.OwnerWrite? && s.patches[step.w].status != s.inquiry.status)
      || (step.PortalPatch? && s.inquiry.status != Responded && step.status != s.inquiry.status)
  {
  }

  // ------------------------------------------------------------------------ handlers

  datatype PatchResult = Conflict | Updated

  class InquiryRow {
    var status: Status
    var respondedAt: Option<int>
    // Owner requests between their read and their write.
    var patches: map<nat, Patch>

    function World(): System
      reads this
    {
      System(Inquiry(status, respondedAt), patches)
    }

    ghost predicate Valid()
      reads this
    {
      Inv(World())
    }

    constructor ()
      ensures Valid() && status == New && respondedAt == None && patches == map[]
    {
      status, respondedAt, patches := New, None, map[];
    }

    method Take(step: Step)
      requires Valid() && Enabled(World(), step)
      modifies this
      ensures Valid() && World() == Apply(old(World()), step)
      ensures old(respondedAt).Some? ==> respondedAt.Some?
    {
      InvKept(World(), step);
      var after := Apply(World(), step);
      status, respondedAt, patches := after.inquiry.status, after.inquiry.respondedAt, after.patches;
    }

    /** Any number of steps by others; none without `concurrent`. */
    method Interfere(me: nat, concurrent: bool)
      requires Valid() && me in patches
      modifies this
      ensures Valid() && me in patches && patches[me] == old(patches[me])
      ensures old(respondedAt).Some? ==> respondedAt.Some?
      ensures !concurrent ==> World() == old(World())
    {
      if !concurrent { return; }
      var n: nat := *;
      while n > 0
        invariant Valid() && me in patches && patches[me] == old(patches[me])
        invariant old(respondedAt).Some? ==> respondedAt.Some?
      {
        var step: Step := *;
        if !Belongs(step, me) && Enabled(World(), step) {
          Take(step);
        }
        n := n - 1;
      }
    }

    /** PATCH by the owner: read, decide, and only then write. */
    method PatchByOwner(me: nat, newStatus: Status, now: int, concurrent: bool) returns (r: PatchResult)
      requires Valid() && me !in patches
      modifies this
      ensures Valid()
      ensures old(respondedAt).Some? ==> respondedAt.Some?
      ensures r == Conflict <==> old(respondedAt).Some? && newStatus != Responded && newStatus != Archived
      ensures r == Conflict ==> status == old(status) && respondedAt == old(respondedAt)
      ensures r == Updated ==> status == newStatus && (newStatus == Responded ==> respondedAt.Some?)
      ensures r == Updated && newStatus == Responded && old(respondedAt).None? ==> respondedAt == Some(now)
      ensures r == Updated && !concurrent && !(newStatus == Responded && old(respondedAt).None?) ==>
        respondedAt == old(respondedAt)
    {
      var seen := respondedAt;
      Take(OwnerRead(me, newStatus));
      if seen.Some? && newStatus != Responded && newStatus != Archived {
        return Conflict;
      }
      Interfere(me, concurrent);
      InvKept(World(), OwnerWrite(me, now));
      status := newStatus;
      if newStatus == Responded && seen == None {
        respondedAt := Some(now);
      }
      patches := patches - {me};
      r := Updated;
    }

    /** PATCH from the portal inbox: one guarded statement. */
    method PatchByPortal(newStatus: Status) returns (count: nat)
      requires Valid() && newStatus != Responded
      modifies this
      ensures Valid() && World() == Apply(old(World()), PortalPatch(newStatus))
      ensures old(status) == Responded ==> count == 0 && status == Responded
      ensures old(status) != Responded ==> count == 1 && status == newStatus
      ensures respondedAt == old(respondedAt) && patches == old(patches)
    {
      InvKept(World(), PortalPatch(newStatus));
      if status != Responded {
        status := newStatus;
        count := 1;
      } else {
        count := 0;
      }
    }

    /** The respond handlers and `markSourceResponded`: one unconditional statement. */
    method Answer(now: int)
      requires Valid()
      modifies this
      ensures Valid() && World() == Apply(old(World()), Step.Respond(now))
      ensures status == Responded && respondedAt == Some(now) && patches == old(patches)
    {
      InvKept(World(), Step.Respond(now));
      status, respondedAt := Responded, Some(now);
    }
  }
}
