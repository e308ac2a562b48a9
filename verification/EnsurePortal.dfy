/**
 The create-once race of migrate runs (packages/db/scripts/ensurePortal.ts). Runs share one
 input; each of their statements is one step, the transaction that creates account and
 portal included, and any run may die between two steps. The owner may edit a portal.
 */
module EnsurePortal {
  import opened Common

  datatype Input = Input(
    slug: string, name: string, brokerageName: string, brokeragePhone: string, agentEmail: Option<string>,
    domains: seq<string>)

  /** `account` is the position of the portal's account in the list of accounts. */
  datatype Portal = Portal(
    slug: string, name: string, account: nat, brokerageName: string, brokeragePhone: string,
    agentEmail: Option<string>, customDomain: Option<string>, isActive: bool)

  predicate EndsWith(s: string, suffix: string) {
    |s| >= |suffix| && s[|s| - |suffix|..] == suffix
  }

  predicate IsLocal(domain: string) { domain == "localhost" || EndsWith(domain, ".localhost") }

  lemma IsLocalIff(domain: string)
    ensures IsLocal(domain) <==> domain == "localhost" || exists name :: domain == name + ".localhost"
  {
    if EndsWith(domain, ".localhost") {
      assert domain == domain[..|domain| - 10] + ".localhost";
    }
    forall name | domain == name + ".localhost" ensures IsLocal(domain) {
      assert domain[|domain| - 10..] == ".localhost";
    }
  }

  /** Position `i` holds the first domain that is not local. */
  predicate FirstPublic(domains: seq<string>, i: int) {
    0 <= i < |domains| && !IsLocal(domains[i]) && forall j :: 0 <= j < i ==> IsLocal(domains[j])
  }

  /** The first configured domain that is not a local one. */
  function PrimaryDomain(domains: seq<string>): (r: Option<string>)
    ensures r.None? <==> forall i :: 0 <= i < |domains| ==> IsLocal(domains[i])
    ensures r.Some? ==> exists i :: FirstPublic(domains, i) && r.value == domains[i]
  {
    if domains == [] then None
    else if !IsLocal(domains[0]) then
      assert FirstPublic(domains, 0);
      Some(domains[0])
    else
      var r := PrimaryDomain(domains[1..]);
      assert forall i :: 1 <= i < |domains| ==> domains[i] == domains[1..][i - 1];
      assert r.Some? ==> exists i :: FirstPublic(domains, i) && r.value == domains[i] by {
        if r.Some? {
          var i :| FirstPublic(domains[1..], i) && r.value == domains[1..][i];
          assert FirstPublic(domains, i + 1);
        }
      }
      r
  }

  datatype Answer = Created | Exists | SlugMismatch(existing: seq<string>) | Threw

  datatype Phase = Started | Missed | Alone | Conflicted | Committed | Done(answer: Answer) | Dead

  datatype System = System(portals: seq<Portal>, accounts: seq<string>, runs: map<nat, Phase>)

  datatype Step =
    | Begin(r: nat)
    | FindBySlug(r: nat)
    | FindOthers(r: nat)
    | Transact(r: nat, fails: bool, effect: bool)
    | Recheck(r: nat)
    | Reply(r: nat)
    | Crash(r: nat)
    | OwnerEdits(name: string, isActive: bool)

  function Slugs(portals: seq<Portal>): seq<string> {
    seq(|portals|, i requires 0 <= i < |portals| => portals[i].slug)
  }

  predicate HasSlug(portals: seq<Portal>, slug: string) { slug in Slugs(portals) }

  function NewPortal(input: Input, account: nat): Portal {
    Portal(input.slug, input.name, account, input.brokerageName, input.brokeragePhone, input.agentEmail,
           PrimaryDomain(input.domains), true)
  }

  predicate At(s: System, r: nat, phase: Phase) { r in s.runs && s.runs[r] == phase }

  predicate Enabled(s: System, step: Step) {
    match step
    case Begin(r) => r !in s.runs
    case FindBySlug(r) => At(s, r, Started)
    case FindOthers(r) => At(s, r, Missed)
    case Transact(r, _, _) => At(s, r, Alone)
    case Recheck(r) => At(s, r, Conflicted)
    case Reply(r) => At(s, r, Committed)
    case Crash(r) => r in s.runs && !s.runs[r].Done?
    case OwnerEdits(_, _) => s.portals != []
  }

  function Goto(s: System, r: nat, phase: Phase): System {
    s.(runs := s.runs[r := phase])
  }

  function Apply(s: System, step: Step, input: Input): System
    requires Enabled(s, step)
  {
    match step
    case Begin(r) => Goto(s, r, Started)
    case FindBySlug(r) => Goto(s, r, if HasSlug(s.portals, input.slug) then Done(Exists) else Missed)
    case FindOthers(r) =>
      Goto(s, r, if s.portals != [] then Done(SlugMismatch(Slugs(s.portals)[..Min(5, |s.portals|)])) else Alone)
    case Transact(r, fails, effect) =>
      // the slug column is unique: a second insert is a P2002 and the account is rolled back
      if HasSlug(s.portals, input.slug) then Goto(s, r, Conflicted)
      else if fails && !effect then Goto(s, r, Done(Threw))
      else  // a transaction that reports an error may have committed
        Goto(s, r, if fails then Done(Threw) else Committed).(
          portals := s.portals + [NewPortal(input, |s.accounts|)], accounts := s.accounts + [input.name])
    case Recheck(r) => Goto(s, r, Done(if HasSlug(s.portals, input.slug) then Exists else Threw))
    case Reply(r) => Goto(s, r, Done(Created))
    case Crash(r) => Goto(s, r, Dead)
    case OwnerEdits(name, isActive) =>
      s.(portals := s.portals[0 := s.portals[0].(name := name, isActive := isActive)])
  }

  // ------------------------------------------------------------------- invariant

  /** This run's transaction has committed, as far as it lived to tell. */
  predicate Winner(s: System, r: nat) { At(s, r, Committed) || At(s, r, Done(Created)) }

  /** This run may have committed without its answer telling. */
  predicate Unheard(s: System, r: nat) { At(s, r, Dead) || At(s, r, Done(Threw)) }

  /** This run has seen, or lost to, a portal that exists. */
  predicate Informed(p: Phase) {
    p.Committed? || p.Conflicted? || (p.Done? && !p.answer.Threw?)
  }

  ghost predicate Inv(s: System, input: Input, accounts: seq<string>) {
    && |s.portals| <= 1
    && (s.portals != [] ==> s.portals[0].slug == input.slug && s.portals[0].account == |accounts|)
    && s.accounts == accounts + (if s.portals == [] then [] else [input.name])
    && (forall r :: r in s.runs && Informed(s.runs[r]) ==> s.portals != [])
    && (forall r, q :: Winner(s, r) && Winner(s, q) ==> r == q)
    && (s.portals != [] ==> exists r :: Winner(s, r) || Unheard(s, r))
    && (forall r :: r in s.runs && s.runs[r].Done? && s.runs[r].answer.SlugMismatch? ==>
      s.runs[r].answer.existing == [input.slug])
  }

  lemma OnlyPortal(s: System, input: Input)
    requires |s.portals| == 1 && s.portals[0].slug == input.slug
    ensures Slugs(s.portals) == [input.slug] && HasSlug(s.portals, input.slug)
  {
    assert Slugs(s.portals)[0] == input.slug;
  }

  lemma WinnerAfter(s: System, step: Step, input: Input, r: nat)
    requires Enabled(s, step) && Winner(Apply(s, step, input), r)
    ensures Winner(s, r) || (step == Transact(r, false, step.effect) && !HasSlug(s.portals, input.slug))
  {
  }

  lemma InvKept(s: System, step: Step, input: Input, accounts: seq<string>)
    requires Inv(s, input, accounts) && Enabled(s, step)
    ensures Inv(Apply(s, step, input), input, accounts)
  {
    var t := Apply(s, step, input);
    if s.portals != [] {
      OnlyPortal(s, input);
      var w :| Winner(s, w) || Unheard(s, w);
      assert Winner(t, w) || Unheard(t, w);
    } else if t.portals != [] {
      assert Winner(t, step.r) || Unheard(t, step.r);
    }
    forall r, q | Winner(t, r) && Winner(t, q) ensures r == q {
      WinnerAfter(s, step, input, r);
      WinnerAfter(s, step, input, q);
    }
  }

  /** No step of a run changes or removes a row: it can only append. */
  lemma RunsOnlyAppend(s: System, step: Step, input: Input)
    requires Enabled(s, step) && !step.OwnerEdits?
    ensures s.portals <= Apply(s, step, input).portals && s.accounts <= Apply(s, step, input).accounts
  {
  }

  // ------------------------------------------------------------------------- runs

  ghost predicate IsRun(ss: seq<System>, steps: seq<Step>, input: Input) {
    && |ss| == |steps| + 1
    && ss[0].portals == [] && ss[0].runs == map[]
    && (forall i {:trigger steps[i]} :: 0 <= i < |steps| ==>
      Enabled(ss[i], steps[i]) && ss[i + 1] == Apply(ss[i], steps[i], input))
  }

  lemma {:induction false} InvAlways(ss: seq<System>, steps: seq<Step>, input: Input, i: nat)
    requires IsRun(ss, steps, input) && i < |ss|
    ensures Inv(ss[i], input, ss[0].accounts)
  {
    if i == 0 {
      assert ss[0].accounts + [] == ss[0].accounts;
    } else {
      InvAlways(ss, steps, input, i - 1);
      InvKept(ss[i - 1], steps[i - 1], input, ss[0].accounts);
    }
  }

  /** Every run has answered, and none with an error. */
  predicate AllAnswered(s: System) {
    s.runs != map[] && forall r :: r in s.runs ==> s.runs[r].Done? && !s.runs[r].answer.Threw?
  }

  /**
   Any number of interleaved runs on a database without portals leave exactly one portal and
   one new account, and exactly one of them answers `created`. A run that lost the race
   answers `exists`, or a mismatch that names the very slug it was looking for.
   */
  lemma CreateOnce(ss: seq<System>, steps: seq<Step>, input: Input, i: nat)
    requires IsRun(ss, steps, input) && i < |ss| && AllAnswered(ss[i])
    ensures |ss[i].portals| == 1 && ss[i].portals[0].slug == input.slug
    ensures ss[i].accounts == ss[0].accounts + [input.name] && ss[i].portals[0].account == |ss[0].accounts|
    ensures exists w :: At(ss[i], w, Done(Created)) && forall r :: r in ss[i].runs && r != w ==>
      ss[i].runs[r] == Done(Exists) || ss[i].runs[r] == Done(SlugMismatch([input.slug]))
  {
    InvAlways(ss, steps, input, i);
    var s := ss[i];
    var some :| some in s.runs;
    assert Informed(s.runs[some]);
    var w :| Winner(s, w) || Unheard(s, w);
    assert At(s, w, Done(Created));
    assert Winner(s, w);
    assert forall r :: At(s, r, Done(Created)) ==> Winner(s, r);
    forall r | r in s.runs && r != w
      ensures s.runs[r] == Done(Exists) || s.runs[r] == Done(SlugMismatch([input.slug]))
    {
      assert !At(s, r, Done(Created));
    }
  }

  /** Until the owner edits it, the portal is the configured one: active, with the first public domain. */
  lemma {:induction false} CreatedAsConfigured(ss: seq<System>, steps: seq<Step>, input: Input, i: nat)
    requires IsRun(ss, steps, input) && i < |ss|
    requires forall k :: 0 <= k < |steps| ==> !steps[k].OwnerEdits?
    ensures ss[i].portals == [] || ss[i].portals ==
      [Portal(input.slug, input.name, |ss[0].accounts|, input.brokerageName, input.brokeragePhone, input.agentEmail,
              PrimaryDomain(input.domains), true)]
  {
    if i > 0 {
      CreatedAsConfigured(ss, steps, input, i - 1);
      InvAlways(ss, steps, input, i - 1);
      var s := ss[i - 1];
      assert ss[i] == Apply(s, steps[i - 1], input);
      if s.portals != [] {
        OnlyPortal(s, input);
      }
    }
  }

  /** With crashes and errors too, there is never a second portal or a second account, nor a second `created`. */
  lemma NeverTwice(ss: seq<System>, steps: seq<Step>, input: Input, i: nat, r: nat, q: nat)
    requires IsRun(ss, steps, input) && i < |ss|
    ensures |ss[i].portals| <= 1 && |ss[i].accounts| == |ss[0].accounts| + |ss[i].portals|
    ensures At(ss[i], r, Done(Created)) && At(ss[i], q, Done(Created)) ==> r == q
  {
    InvAlways(ss, steps, input, i);
    if At(ss[i], r, Done(Created)) && At(ss[i], q, Done(Created)) {
      assert Winner(ss[i], r) && Winner(ss[i], q);
    }
  }

  ghost predicate Reachable(s: System, input: Input) {
    exists ss, steps :: IsRun(ss, steps, input) && ss[|steps|] == s
  }

  lemma Go(s: System, step: Step, t: System, input: Input)
    requires Reachable(s, input) && Enabled(s, step) && Apply(s, step, input) == t
    ensures Reachable(t, input)
  {
    var ss, steps :| IsRun(ss, steps, input) && ss[|steps|] == s;
    var ss', steps' := ss + [t], steps + [step];
    assert IsRun(ss', steps', input) && ss'[|steps'|] == t;
  }

  /** Some continuation of the state has run `r` answer a mismatch that names its own slug. */
  ghost predicate MayMismatch(s: System, r: nat, steps: seq<Step>, input: Input)
    decreases |steps|
  {
    if steps == [] then At(s, r, Done(SlugMismatch([input.slug])))
    else Enabled(s, steps[0]) && MayMismatch(Apply(s, steps[0], input), r, steps[1..], input)
  }

  /** The new run begins now. */
  ghost predicate NewRunMayMismatch(s: System, r: nat, input: Input)
    requires r !in s.runs
  {
    exists steps :: MayMismatch(Apply(s, Begin(r), input), r, steps, input)
  }

  /** A run that began when the portal existed. */
  predicate SeesPortal(s: System, r: nat, input: Input) {
    && |s.portals| == 1 && s.portals[0].slug == input.slug
    && (At(s, r, Started) || At(s, r, Done(Exists)) || At(s, r, Dead))
  }

  lemma SeesPortalKept(s: System, r: nat, step: Step, input: Input)
    requires SeesPortal(s, r, input) && Enabled(s, step)
    ensures SeesPortal(Apply(s, step, input), r, input)
  {
    OnlyPortal(s, input);
  }

  lemma {:induction false} SeesPortalNeverMismatches(s: System, r: nat, steps: seq<Step>, input: Input)
    requires SeesPortal(s, r, input)
    ensures !MayMismatch(s, r, steps, input)
    decreases |steps|
  {
    if steps != [] && Enabled(s, steps[0]) {
      SeesPortalKept(s, r, steps[0], input);
      SeesPortalNeverMismatches(Apply(s, steps[0], input), r, steps[1..], input);
    }
  }

  lemma Before(s: System, r: nat, step: Step, rest: seq<Step>, input: Input)
    requires Enabled(s, step) && MayMismatch(Apply(s, step, input), r, rest, input)
    ensures MayMismatch(s, r, [step] + rest, input)
  {
    assert ([step] + rest)[1..] == rest;
  }

  /** The late answer: run `r` looked for the slug just before `q` creates the portal. */
  lemma LateLook(s: System, r: nat, q: nat, input: Input) returns (steps: seq<Step>)
    requires s.portals == [] && At(s, r, Missed) && At(s, q, Alone) && r != q
    ensures MayMismatch(s, r, steps, input)
  {
    var t := Apply(s, Transact(q, false, true), input);
    assert t.portals == [NewPortal(input, |s.accounts|)];
    OnlyPortal(t, input);
    assert Slugs(t.portals)[..1] == [input.slug];
    assert MayMismatch(Apply(t, FindOthers(r), input), r, [], input);
    Before(t, r, FindOthers(r), [], input);
    steps := [Transact(q, false, true)] + ([FindOthers(r)] + []);
    Before(s, r, Transact(q, false, true), [FindOthers(r)] + [], input);
  }

  lemma Overtaken(s: System, r: nat, q: nat, input: Input) returns (steps: seq<Step>)
    requires s.portals == [] && At(s, r, Missed) && At(s, q, Started) && r != q
    ensures MayMismatch(s, r, steps, input)
  {
    var missed := Apply(s, FindBySlug(q), input);
    var alone := Apply(missed, FindOthers(q), input);
    var rest := LateLook(alone, r, q, input);
    Before(missed, r, FindOthers(q), rest, input);
    steps := [FindBySlug(q)] + ([FindOthers(q)] + rest);
    Before(s, r, FindBySlug(q), [FindOthers(q)] + rest, input);
  }

  lemma NewRunOvertaken(s: System, r: nat, q: nat, input: Input) returns (steps: seq<Step>)
    requires s.portals == [] && At(s, r, Started) && q !in s.runs
    ensures MayMismatch(s, r, steps, input)
  {
    var looked := Apply(s, FindBySlug(r), input);
    var rest := Overtaken(Apply(looked, Begin(q), input), r, q, input);
    Before(looked, r, Begin(q), rest, input);
    steps := [FindBySlug(r)] + ([Begin(q)] + rest);
    Before(s, r, FindBySlug(r), [Begin(q)] + rest, input);
  }

  /**
   A run on a database without portals answers only `created` or `exists`, unless another
   overtakes it: from any reachable state, a new run can still be told a mismatch naming its
   own slug if and only if no portal exists when it begins.
   */
  lemma MismatchPossibleIff(s: System, r: nat, input: Input)
    requires Reachable(s, input) && r !in s.runs
    ensures NewRunMayMismatch(s, r, input) <==> s.portals == []
  {
    var begun := Apply(s, Begin(r), input);
    if s.portals == [] {
      var q := FreshId(begun.runs.Keys);
      var steps := NewRunOvertaken(begun, r, q, input);
    } else {
      var ss, steps :| IsRun(ss, steps, input) && ss[|steps|] == s;
      InvAlways(ss, steps, input, |steps|);
      forall steps ensures !MayMismatch(begun, r, steps, input) {
        SeesPortalNeverMismatches(begun, r, steps, input);
      }
    }
  }

  function Empty(runs: map<nat, Phase>): System { System([], [], runs) }

  lemma BothMiss(input: Input)
    ensures Reachable(Empty(map[1 := Missed, 2 := Missed]), input)
  {
    var s := Empty(map[]);
    var noSteps: seq<Step> := [];
    assert IsRun([s], noSteps, input) && [s][|noSteps|] == s;
    Go(s, Begin(1), Empty(map[1 := Started]), input);
    Go(Empty(map[1 := Started]), Begin(2), Empty(map[1 := Started, 2 := Started]), input);
    Go(Empty(map[1 := Started, 2 := Started]), FindBySlug(2), Empty(map[1 := Started, 2 := Missed]), input);
    Go(Empty(map[1 := Started, 2 := Missed]), FindBySlug(1), Empty(map[1 := Missed, 2 := Missed]), input);
  }

  /**
   The late answer: a run that looked for the slug just before another created it reports a
   mismatch with that slug.
   */
  lemma LateRunReportsMismatch(input: Input) returns (s: System)
    ensures Reachable(s, input) && AllAnswered(s)
    ensures At(s, 1, Done(Created)) && At(s, 2, Done(SlugMismatch([input.slug])))
  {
    BothMiss(input);
    Go(Empty(map[1 := Missed, 2 := Missed]), FindOthers(1), Empty(map[1 := Alone, 2 := Missed]), input);
    var created := System([NewPortal(input, 0)], [input.name], map[1 := Committed, 2 := Missed]);
    Go(Empty(map[1 := Alone, 2 := Missed]), Transact(1, false, true), created, input);
    OnlyPortal(created, input);
    assert Slugs(created.portals)[..1] == [input.slug];
    var late := created.(runs := map[1 := Committed, 2 := Done(SlugMismatch([input.slug]))]);
    Go(created, FindOthers(2), late, input);
    s := late.(runs := map[1 := Done(Created), 2 := Done(SlugMismatch([input.slug]))]);
    Go(late, Reply(1), s, input);
  }

  // ---------------------------------------------------------------------- the script

  class PortalDb {
    const input: Input
    ghost const before: seq<string>
    // Nothing goes wrong: no statement fails, no process dies and nobody else is at work.
    const calm: bool
    var portals: seq<Portal>
    var accounts: seq<string>
    // Bookkeeping of the machine: the runs under way and finished.
    var runs: map<nat, Phase>

    function World(): System
      reads this
    {
      System(portals, accounts, runs)
    }

    ghost predicate Valid()
      reads this
    {
      Inv(World(), input, before)
    }

    constructor (input: Input, accounts: seq<string>, calm: bool)
      ensures Valid() && this.calm == calm && this.input == input
      ensures portals == [] && this.accounts == accounts && runs == map[]
    {
      this.input, this.before, this.accounts, this.calm := input, accounts, accounts, calm;
      portals, runs := [], map[];
      new;
      assert accounts + [] == accounts;
    }

    method Take(step: Step)
      requires Valid() && Enabled(World(), step)
      modifies this
      ensures Valid() && World() == Apply(old(World()), step, input)
    {
      InvKept(World(), step, input, before);
      var after := Apply(World(), step, input);
      portals, accounts, runs := after.portals, after.accounts, after.runs;
    }

    /** Any number of steps of other runs, and edits by the owner. */
    method Interfere(me: nat)
      requires Valid() && me in runs
      modifies this
      ensures Valid() && me in runs && runs[me] == old(runs[me])
      ensures calm ==> World() == old(World())
    {
      if calm { return; }
      var n: nat := *;
      while n > 0
        invariant Valid() && me in runs && runs[me] == old(runs[me])
      {
        var step: Step := *;
        var mine := match step { case OwnerEdits(_, _) => false case _ => step.r == me };
        if !mine && Enabled(World(), step) {
          Take(step);
        }
        n := n - 1;
      }
    }

    /** The transaction: account and portal together, or neither when the slug is taken. */
    method CreateBoth(me: nat) returns (outcome: Phase)
      requires Valid() && At(World(), me, Alone)
      modifies this
      ensures Valid() && me in runs && runs[me] == outcome
      ensures exists fails, effect :: World() == Apply(old(World()), Transact(me, fails, effect), input)
      ensures outcome in {Committed, Conflicted, Done(Threw)} && (calm ==> !outcome.Done?)
      ensures outcome == Conflicted <==> exists i :: 0 <= i < |old(portals)| && old(portals)[i].slug == input.slug
      ensures outcome == Conflicted ==> portals == old(portals) && accounts == old(accounts)
      ensures portals == old(portals) <==> accounts == old(accounts)
      ensures outcome == Committed || portals != old(portals) ==>
        && accounts == old(accounts) + [input.name]
        && portals == old(portals) +
             [Portal(input.slug, input.name, |old(accounts)|, input.brokerageName, input.brokeragePhone,
                     input.agentEmail, PrimaryDomain(input.domains), true)]
    {
      var fails, effect := *, *;
      fails := fails && !calm;
      ghost var was := World();
      assert forall i :: 0 <= i < |portals| ==> Slugs(portals)[i] == portals[i].slug;
      InvKept(World(), Transact(me, fails, effect), input, before);
      var account := input.name;
      var portal := Portal(input.slug, input.name, |accounts|, input.brokerageName, input.brokeragePhone,
                           input.agentEmail, PrimaryDomain(input.domains), true);
      if input.slug in Slugs(portals) {
        outcome := Conflicted;
      } else {
        if !fails || effect {
          accounts, portals := accounts + [account], portals + [portal];
        }
        outcome := if fails then Done(Threw) else Committed;
      }
      runs := runs[me := outcome];
      assert World() == Apply(was, Transact(me, fails, effect), input);
    }

    /** `ensurePortal`: no answer means the run died. Whatever it answers but an error, the portal is there. */
    method Ensure(me: nat) returns (answer: Option<Answer>)
      requires Valid() && me !in runs
      modifies this
      ensures Valid() && me in runs
      ensures answer.Some? ==> runs[me] == Done(answer.value)
      ensures answer.Some? && answer.value != Threw ==>
        |portals| == 1 && portals[0].slug == input.slug && accounts == before + [input.name]
      ensures answer.Some? ==> answer.value in {Created, Exists, SlugMismatch([input.slug]), Threw}
      ensures old(portals) != [] ==> answer == Some(Exists)
      ensures calm ==> answer == Some(if old(portals) == [] then Created else Exists)
      ensures calm && old(portals) == [] ==>
        portals == [Portal(input.slug, input.name, |before|, input.brokerageName, input.brokeragePhone,
                           input.agentEmail, PrimaryDomain(input.domains), true)]
      ensures calm && old(portals) != [] ==> portals == old(portals) && accounts == old(accounts)
    {
      Take(Begin(me));
      Take(FindBySlug(me));
      if old(portals) != [] {
        OnlyPortal(old(World()), input);
      }
      if runs[me].Done? { return Some(Exists); }
      Interfere(me);
      Take(FindOthers(me));
      if runs[me].Done? { return Some(runs[me].answer); }
      Interfere(me);
      var dies := *;
      if dies && !calm { Take(Crash(me)); return None; }
      var outcome := CreateBoth(me);
      if outcome == Done(Threw) { return Some(Threw); }
      Interfere(me);
      dies := *;
      if dies && !calm { Take(Crash(me)); return None; }
      if outcome == Conflicted {
        Take(Recheck(me));
      } else {
        Take(Reply(me));
      }
      answer := Some(runs[me].answer);
    }
  }
}
