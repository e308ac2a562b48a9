/**
 Classifying properties, one at a time and as a batched, resumable run
 (packages/db/classification.ts). The classifier's verdict on a definition and a property is
 a parameter; the order of the property list is the order of the run's query.
 */
module ClassificationRun {
  import opened Common
  import opened CanonicalJson
  import Cursor

  datatype Property = Property(id: string, input: Json)

  /** `hash` is the configuration hash, which the run and the classification both compute. */
  datatype Config = Config(version: string, hash: string, definitions: seq<Definition>, initialAreas: seq<InitialArea>)

  datatype Definition = Definition(slug: string, classifier: Json, confidence: Option<real>)

  datatype InitialArea = InitialArea(slug: string, definition: Json)

  datatype Source = Ingestion | Reclassification

  datatype Row = Row(
    positive: bool, source: Source, confidence: real, version: string, hash: string, manualOverride: bool)

  /** Account, property and tag; and account, area and property. */
  datatype TagKey = TagKey(account: string, property: string, tag: string)

  datatype AreaKey = AreaKey(account: string, slug: string)

  datatype MemberKey = MemberKey(area: AreaKey, property: string)

  datatype Mode = Check | Diff | Apply

  datatype RunStatus = Completed | Failed

  datatype Run = Run(
    status: RunStatus, cursor: Option<string>, processed: nat, changed: nat, diff: seq<string>)

  type Verdict = (Json, Property) -> bool

  // ------------------------------------------------------------- what one property gets

  function TagRow(d: Definition, p: Property, c: Config, source: Source, verdict: Verdict): Row {
    var confidence := if d.confidence.Some? then d.confidence.value else 1.0;
    Row(verdict(d.classifier, p), source, confidence, c.version, c.hash, false)
  }

  /** An upsert that a manual override blocks. */
  function Put<K>(rows: map<K, Row>, key: K, row: Row): map<K, Row> {
    if key in rows && rows[key].manualOverride then rows else rows[key := row]
  }

  function PutTags(rows: map<TagKey, Row>, account: string, p: Property, c: Config, ds: seq<Definition>, source: Source,
                   verdict: Verdict): map<TagKey, Row> {
    if ds == [] then rows
    else
      var d := ds[|ds| - 1];
      Put(PutTags(rows, account, p, c, ds[..|ds| - 1], source, verdict),
          TagKey(account, p.id, d.slug), TagRow(d, p, c, source, verdict))
  }

  /** The row is there, and is manual or was written under this very configuration. */
  predicate Current(rows: map<TagKey, Row>, key: TagKey, c: Config) {
    key in rows && (rows[key].manualOverride || (rows[key].hash == c.hash && rows[key].version == c.version))
  }

  predicate Stale(rows: map<TagKey, Row>, account: string, p: Property, c: Config) {
    exists i :: 0 <= i < |c.definitions| && !Current(rows, TagKey(account, p.id, c.definitions[i].slug), c)
  }

  /** Only rows of this account and property differ, and no manual one. */
  ghost predicate OnlyTouches(before: map<TagKey, Row>, after: map<TagKey, Row>, account: string, id: string) {
    && (forall k :: k in before ==> k in after)
    && (forall k :: k in after && !(k.account == account && k.property == id) ==> k in before && after[k] == before[k])
    && (forall k :: k in before && before[k].manualOverride ==> after[k] == before[k])
  }

  lemma {:induction false} PutTagsTouches(rows: map<TagKey, Row>, account: string, p: Property, c: Config,
                                          ds: seq<Definition>, source: Source, verdict: Verdict)
    ensures OnlyTouches(rows, PutTags(rows, account, p, c, ds, source, verdict), account, p.id)
  {
    if ds != [] {
      PutTagsTouches(rows, account, p, c, ds[..|ds| - 1], source, verdict);
    }
  }

  lemma {:induction false} PutTagsCurrent(rows: map<TagKey, Row>, account: string, p: Property, c: Config,
                                          ds: seq<Definition>, source: Source, verdict: Verdict, i: nat)
    requires i < |ds|
    ensures Current(PutTags(rows, account, p, c, ds, source, verdict), TagKey(account, p.id, ds[i].slug), c)
  {
    if i < |ds| - 1 {
      PutTagsCurrent(rows, account, p, c, ds[..|ds| - 1], source, verdict, i);
    }
  }

  /** The last definition with this slug. */
  function LastFor(ds: seq<Definition>, slug: string): (r: Option<Definition>)
    ensures r.None? <==> forall d :: d in ds ==> d.slug != slug
  {
    if ds == [] then None
    else if ds[|ds| - 1].slug == slug then Some(ds[|ds| - 1])
    else
      assert ds == ds[..|ds| - 1] + [ds[|ds| - 1]];
      LastFor(ds[..|ds| - 1], slug)
  }

  /**
   What classification leaves under one key: a manual row as it was, else the last
   definition's row, else what was there.
   */
  lemma {:induction false} PutTagsAt(rows: map<TagKey, Row>, account: string, p: Property, c: Config,
                                     ds: seq<Definition>, source: Source, verdict: Verdict, key: TagKey)
    ensures
      var after := PutTags(rows, account, p, c, ds, source, verdict);
      var d := LastFor(ds, key.tag);
      if key.account == account && key.property == p.id && d.Some? then
        key in after && after[key] ==
          if key in rows && rows[key].manualOverride then rows[key] else TagRow(d.value, p, c, source, verdict)
      else
        (key in after <==> key in rows) && (key in rows ==> after[key] == rows[key])
  {
    if ds == [] {
    } else {
      PutTagsAt(rows, account, p, c, ds[..|ds| - 1], source, verdict, key);
    }
  }

  /** The last definition with its slug decides the tag. */
  predicate LastOfSlug(ds: seq<Definition>, i: int) {
    0 <= i < |ds| && forall j :: i < j < |ds| ==> ds[j].slug != ds[i].slug
  }

  lemma {:induction false} LastForAt(ds: seq<Definition>, i: nat)
    requires LastOfSlug(ds, i)
    ensures LastFor(ds, ds[i].slug) == Some(ds[i])
  {
    if i < |ds| - 1 {
      LastForAt(ds[..|ds| - 1], i);
    }
  }

  /** The tag of this definition was decided by hand before, or now carries its classifier's verdict. */
  ghost predicate Decided(before: map<TagKey, Row>, after: map<TagKey, Row>, account: string, p: Property, c: Config,
                          d: Definition, source: Source, verdict: Verdict) {
    var key := TagKey(account, p.id, d.slug);
    && key in after
    && (if key in before && before[key].manualOverride then after[key] == before[key]
        else
          && (after[key].positive <==> verdict(d.classifier, p))
          && after[key].source == source && !after[key].manualOverride
          && after[key].confidence == (if d.confidence.Some? then d.confidence.value else 1.0)
          && after[key].version == c.version && after[key].hash == c.hash)
  }

  /** The decision: classification decides the tag of every definition, the last one with its slug. */
  lemma TagDecided(rows: map<TagKey, Row>, account: string, p: Property, c: Config,
                   source: Source, verdict: Verdict, i: nat)
    requires LastOfSlug(c.definitions, i)
    ensures Decided(rows, PutTags(rows, account, p, c, c.definitions, source, verdict), account, p, c,
                    c.definitions[i], source, verdict)
  {
    LastForAt(c.definitions, i);
    PutTagsAt(rows, account, p, c, c.definitions, source, verdict, TagKey(account, p.id, c.definitions[i].slug));
  }

  /** Classifying a property again with the same verdicts changes nothing. */
  lemma PutTagsIdempotent(rows: map<TagKey, Row>, account: string, p: Property, c: Config,
                          ds: seq<Definition>, source: Source, verdict: Verdict)
    ensures
      var once := PutTags(rows, account, p, c, ds, source, verdict);
      PutTags(once, account, p, c, ds, source, verdict) == once
  {
    var once := PutTags(rows, account, p, c, ds, source, verdict);
    var twice := PutTags(once, account, p, c, ds, source, verdict);
    forall key: TagKey
      ensures (key in twice <==> key in once) && (key in once ==> twice[key] == once[key])
    {
      PutTagsAt(rows, account, p, c, ds, source, verdict, key);
      PutTagsAt(once, account, p, c, ds, source, verdict, key);
    }
  }

  /** What classification leaves of the tags, wherever it stops: its first `n` definitions are done. */
  ghost predicate Partly(before: map<TagKey, Row>, after: map<TagKey, Row>, account: string, p: Property, c: Config,
                         source: Source, verdict: Verdict) {
    exists n :: 0 <= n <= |c.definitions|
      && after == PutTags(before, account, p, c, c.definitions[..n], source, verdict)
  }

  lemma {:induction false} PutTagsKeepsCurrent(rows: map<TagKey, Row>, account: string, p: Property, c: Config,
                                               ds: seq<Definition>, source: Source, verdict: Verdict, key: TagKey)
    requires Current(rows, key, c)
    ensures Current(PutTags(rows, account, p, c, ds, source, verdict), key, c)
  {
    if ds == [] {
    } else {
      PutTagsKeepsCurrent(rows, account, p, c, ds[..|ds| - 1], source, verdict, key);
    }
  }

  /** Interrupted or not, classification touches this property alone, and never makes it stale. */
  lemma PartlyTouches(before: map<TagKey, Row>, after: map<TagKey, Row>, account: string, p: Property, c: Config,
                      source: Source, verdict: Verdict)
    requires Partly(before, after, account, p, c, source, verdict)
    ensures OnlyTouches(before, after, account, p.id)
    ensures Stale(after, account, p, c) ==> Stale(before, account, p, c)
  {
    var n :| 0 <= n <= |c.definitions|
      && after == PutTags(before, account, p, c, c.definitions[..n], source, verdict);
    PutTagsTouches(before, account, p, c, c.definitions[..n], source, verdict);
    if Stale(after, account, p, c) {
      var i :| 0 <= i < |c.definitions| && !Current(after, TagKey(account, p.id, c.definitions[i].slug), c);
      if Current(before, TagKey(account, p.id, c.definitions[i].slug), c) {
        PutTagsKeepsCurrent(before, account, p, c, c.definitions[..n], source, verdict,
                            TagKey(account, p.id, c.definitions[i].slug));
      }
    }
  }

  /** Staleness of one property is not affected by classifying another. */
  lemma StaleElsewhere(before: map<TagKey, Row>, after: map<TagKey, Row>, account: string, id: string, q: Property,
                       c: Config)
    requires OnlyTouches(before, after, account, id) && q.id != id
    ensures Stale(before, account, q, c) <==> Stale(after, account, q, c)
  {
    forall i | 0 <= i < |c.definitions|
      ensures Current(before, TagKey(account, q.id, c.definitions[i].slug), c)
        <==> Current(after, TagKey(account, q.id, c.definitions[i].slug), c)
    {
    }
  }

  // ---------------------------------------------------------------- what a run does

  predicate Distinct(ps: seq<Property>) {
    forall i, j :: 0 <= i < j < |ps| ==> ps[i].id != ps[j].id
  }

  function Ids(ps: seq<Property>): (ids: seq<string>)
    ensures |ids| == |ps| && forall i :: 0 <= i < |ps| ==> ids[i] == ps[i].id
  {
    seq(|ps|, i requires 0 <= i < |ps| => ps[i].id)
  }

  /** The part of the list a query starting at the cursor reads. */
  function After(ps: seq<Property>, cursor: Option<string>): seq<Property> {
    Cursor.Past(Ids(ps), ps, cursor)
  }

  lemma AfterDistinct(ps: seq<Property>, cursor: Option<string>)
    requires Distinct(ps)
    ensures Distinct(After(ps, cursor))
  {
    var from := Cursor.PastIsSuffix(Ids(ps), ps, cursor);
  }

  lemma AfterFrom(ps: seq<Property>, from: nat, k: nat)
    requires Distinct(ps) && 1 <= k && from + k <= |ps| && ps[from + k - 1].id != ""
    ensures After(ps, Some(ps[from..][k - 1].id)) == ps[from..][k..]
  {
    Cursor.PastAt(Ids(ps), ps, from + k - 1);
    assert ps[from..][k - 1] == ps[from + k - 1] && ps[from..][k..] == ps[from + k..];
  }

  /** The cursor after `k` completed properties. */
  function CursorAt(todo: seq<Property>, k: nat, start: Option<string>): Option<string>
    requires k <= |todo|
  {
    if k == 0 then start else Some(todo[k - 1].id)
  }

  lemma CursorMoves(todo: seq<Property>, k: nat, rows: seq<Property>, done: nat, start: Option<string>)
    requires k + |rows| <= |todo| && done <= |rows|
    requires forall i :: 0 <= i < |rows| ==> rows[i] == todo[k + i]
    ensures CursorAt(todo, k + done, start)
      == if done == 0 then CursorAt(todo, k, start) else Some(rows[done - 1].id)
  {
  }

  /** Resuming from the cursor of a run that stopped after `k` properties continues with exactly the others. */
  lemma ResumeExact(ps: seq<Property>, start: Option<string>, k: nat)
    requires Distinct(ps) && (forall i :: 0 <= i < |ps| ==> ps[i].id != "") && k <= |After(ps, start)|
    ensures After(ps, CursorAt(After(ps, start), k, start)) == After(ps, start)[k..]
  {
    if k > 0 {
      var from := Cursor.PastIsSuffix(Ids(ps), ps, start);
      AfterFrom(ps, from, k);
    }
  }

  ghost function StaleOf(rows: map<TagKey, Row>, account: string, ps: seq<Property>, c: Config): seq<string> {
    if ps == [] then []
    else if Stale(rows, account, ps[|ps| - 1], c) then
      StaleOf(rows, account, ps[..|ps| - 1], c) + [ps[|ps| - 1].id]
    else
      StaleOf(rows, account, ps[..|ps| - 1], c)
  }

  ghost function ApplyAll(rows: map<TagKey, Row>, account: string, ps: seq<Property>, c: Config,
                          verdict: Verdict): map<TagKey, Row> {
    if ps == [] then rows
    else PutTags(ApplyAll(rows, account, ps[..|ps| - 1], c, verdict), account, ps[|ps| - 1], c, c.definitions,
      Reclassification, verdict)
  }

  lemma {:induction false} ApplyAllElsewhere(rows: map<TagKey, Row>, account: string, ps: seq<Property>, c: Config,
                                             verdict: Verdict, q: Property)
    requires forall i :: 0 <= i < |ps| ==> ps[i].id != q.id
    ensures Stale(ApplyAll(rows, account, ps, c, verdict), account, q, c) <==> Stale(rows, account, q, c)
  {
    if ps != [] {
      var front, last := ps[..|ps| - 1], ps[|ps| - 1];
      ApplyAllElsewhere(rows, account, front, c, verdict, q);
      var mid := ApplyAll(rows, account, front, c, verdict);
      PutTagsTouches(mid, account, last, c, c.definitions, Reclassification, verdict);
      StaleElsewhere(mid, ApplyAll(rows, account, ps, c, verdict), account, last.id, q, c);
    }
  }

  lemma {:induction false} ApplyAllCurrent(rows: map<TagKey, Row>, account: string, ps: seq<Property>, c: Config,
                                           verdict: Verdict, i: nat)
    requires Distinct(ps) && i < |ps|
    ensures !Stale(ApplyAll(rows, account, ps, c, verdict), account, ps[i], c)
  {
    var front, last := ps[..|ps| - 1], ps[|ps| - 1];
    var mid := ApplyAll(rows, account, front, c, verdict);
    var all := ApplyAll(rows, account, ps, c, verdict);
    if i < |front| {
      ApplyAllCurrent(rows, account, front, c, verdict, i);
      PutTagsTouches(mid, account, last, c, c.definitions, Reclassification, verdict);
      StaleElsewhere(mid, all, account, last.id, ps[i], c);
    } else {
      forall d | 0 <= d < |c.definitions| ensures Current(all, TagKey(account, last.id, c.definitions[d].slug), c) {
        PutTagsCurrent(mid, account, last, c, c.definitions, Reclassification, verdict, d);
      }
    }
  }

  lemma {:induction false} ApplyAllKeeps(rows: map<TagKey, Row>, account: string, ps: seq<Property>, c: Config,
                                         verdict: Verdict, key: TagKey)
    requires forall i :: 0 <= i < |ps| ==> ps[i].id != key.property
    ensures
      var after := ApplyAll(rows, account, ps, c, verdict);
      (key in after <==> key in rows) && (key in rows ==> after[key] == rows[key])
  {
    if ps == [] {
    } else {
      var front, last := ps[..|ps| - 1], ps[|ps| - 1];
      ApplyAllKeeps(rows, account, front, c, verdict, key);
      var mid := ApplyAll(rows, account, front, c, verdict);
      PutTagsAt(mid, account, last, c, c.definitions, Reclassification, verdict, key);
    }
  }

  /**
   What an APPLY over a list leaves under the tag of each of its properties and definitions:
   the verdict, written by this run and configuration, or the row decided by hand.
   */
  lemma {:induction false} AppliedDecides(rows: map<TagKey, Row>, account: string, ps: seq<Property>, c: Config,
                                          verdict: Verdict, k: nat, i: nat)
    requires Distinct(ps) && k < |ps| && LastOfSlug(c.definitions, i)
    ensures
      var d := c.definitions[i];
      var key := TagKey(account, ps[k].id, d.slug);
      var after := ApplyAll(rows, account, ps, c, verdict);
      && key in after
      && (if key in rows && rows[key].manualOverride then after[key] == rows[key]
          else
            && (after[key].positive <==> verdict(d.classifier, ps[k]))
            && after[key].source == Reclassification && !after[key].manualOverride
            && after[key].confidence == (if d.confidence.Some? then d.confidence.value else 1.0)
            && after[key].version == c.version && after[key].hash == c.hash)
  {
    var front, last := ps[..|ps| - 1], ps[|ps| - 1];
    var mid := ApplyAll(rows, account, front, c, verdict);
    var key := TagKey(account, ps[k].id, c.definitions[i].slug);
    if k == |ps| - 1 {
      ApplyAllKeeps(rows, account, front, c, verdict, key);
      TagDecided(mid, account, last, c, Reclassification, verdict, i);
    } else {
      AppliedDecides(rows, account, front, c, verdict, k, i);
      PutTagsAt(mid, account, last, c, c.definitions, Reclassification, verdict, key);
    }
  }

  /**
   A new configuration hash or version makes a classified property stale, and so counted and
   rewritten, exactly if one of its tags was not decided by hand.
   */
  lemma ReconfiguredIsStaleIff(rows: map<TagKey, Row>, account: string, p: Property, c: Config, c': Config,
                               source: Source, verdict: Verdict)
    requires c'.definitions == c.definitions && (c'.hash != c.hash || c'.version != c.version)
    ensures
      Stale(PutTags(rows, account, p, c, c.definitions, source, verdict), account, p, c') <==>
        exists d :: d in c.definitions
          && var key := TagKey(account, p.id, d.slug); !(key in rows && rows[key].manualOverride)
  {
    var after := PutTags(rows, account, p, c, c.definitions, source, verdict);
    forall d | d in c.definitions ensures
      var key := TagKey(account, p.id, d.slug);
      !Current(after, key, c') <==> !(key in rows && rows[key].manualOverride)
    {
      PutTagsAt(rows, account, p, c, c.definitions, source, verdict, TagKey(account, p.id, d.slug));
    }
    forall i | 0 <= i < |c.definitions| ensures c.definitions[i] in c.definitions {
    }
  }

  lemma {:induction false} NoneStale(rows: map<TagKey, Row>, account: string, ps: seq<Property>, c: Config)
    requires forall i :: 0 <= i < |ps| ==> !Stale(rows, account, ps[i], c)
    ensures StaleOf(rows, account, ps, c) == []
  {
    if ps != [] {
      NoneStale(rows, account, ps[..|ps| - 1], c);
    }
  }

  /** What the next property adds to a run that has completed `k`. */
  lemma NextOne(rows: map<TagKey, Row>, account: string, todo: seq<Property>, k: nat, c: Config, verdict: Verdict)
    requires Distinct(todo) && k < |todo|
    ensures Stale(ApplyAll(rows, account, todo[..k], c, verdict), account, todo[k], c)
      <==> Stale(rows, account, todo[k], c)
    ensures ApplyAll(rows, account, todo[..k + 1], c, verdict)
      == PutTags(ApplyAll(rows, account, todo[..k], c, verdict), account, todo[k], c, c.definitions, Reclassification,
        verdict)
    ensures StaleOf(rows, account, todo[..k + 1], c)
      == StaleOf(rows, account, todo[..k], c) + if Stale(rows, account, todo[k], c) then [todo[k].id] else []
  {
    assert todo[..k + 1][..k] == todo[..k];
    ApplyAllElsewhere(rows, account, todo[..k], c, verdict, todo[k]);
  }

  /** A completed APPLY over a list leaves nothing in it for CHECK to count, under the same configuration. */
  lemma ApplyConverges(rows: map<TagKey, Row>, account: string, ps: seq<Property>, c: Config, verdict: Verdict)
    requires Distinct(ps)
    ensures StaleOf(ApplyAll(rows, account, ps, c, verdict), account, ps, c) == []
  {
    forall i | 0 <= i < |ps| ensures !Stale(ApplyAll(rows, account, ps, c, verdict), account, ps[i], c) {
      ApplyAllCurrent(rows, account, ps, c, verdict, i);
    }
    NoneStale(ApplyAll(rows, account, ps, c, verdict), account, ps, c);
  }

  /** `mid` is what an APPLY that failed after `k` properties may have left. */
  ghost predicate LeftBy(rows: map<TagKey, Row>, mid: map<TagKey, Row>, ps: seq<Property>, k: nat, account: string,
                         c: Config, verdict: Verdict)
    requires k <= |ps|
  {
    || mid == ApplyAll(rows, account, ps[..k], c, verdict)
    || (k < |ps|
        && Partly(ApplyAll(rows, account, ps[..k], c, verdict), mid, account, ps[k], c, Reclassification, verdict))
  }

  lemma DoneBeforeFailure(rows: map<TagKey, Row>, mid: map<TagKey, Row>, ps: seq<Property>, k: nat, account: string,
                          c: Config, verdict: Verdict, i: nat)
    requires Distinct(ps) && i < k <= |ps| && LeftBy(rows, mid, ps, k, account, c, verdict)
    ensures !Stale(mid, account, ps[i], c)
  {
    ApplyAllCurrent(rows, account, ps[..k], c, verdict, i);
    var done := ApplyAll(rows, account, ps[..k], c, verdict);
    if mid != done {
      PartlyTouches(done, mid, account, ps[k], c, Reclassification, verdict);
      StaleElsewhere(done, mid, account, ps[k].id, ps[i], c);
    }
  }

  /** An APPLY that failed anywhere, resumed from its cursor and completed, converges all the same. */
  lemma ResumedApplyConverges(rows: map<TagKey, Row>, mid: map<TagKey, Row>, ps: seq<Property>, k: nat,
                              account: string, c: Config, verdict: Verdict)
    requires Distinct(ps) && k <= |ps| && LeftBy(rows, mid, ps, k, account, c, verdict)
    ensures StaleOf(ApplyAll(mid, account, ps[k..], c, verdict), account, ps, c) == []
  {
    var rest := ps[k..];
    var all := ApplyAll(mid, account, rest, c, verdict);
    forall i | 0 <= i < |ps| ensures !Stale(all, account, ps[i], c) {
      if i < k {
        DoneBeforeFailure(rows, mid, ps, k, account, c, verdict, i);
        ApplyAllElsewhere(mid, account, rest, c, verdict, ps[i]);
      } else {
        ApplyAllCurrent(mid, account, rest, c, verdict, i - k);
        assert rest[i - k] == ps[i];
      }
    }
    NoneStale(all, account, ps, c);
  }

  // ------------------------------------------------------------- counting on resume

  lemma {:induction false} StaleOfConcat(rows: map<TagKey, Row>, account: string, a: seq<Property>, b: seq<Property>,
                                         c: Config)
    ensures StaleOf(rows, account, a + b, c) == StaleOf(rows, account, a, c) + StaleOf(rows, account, b, c)
  {
    if b == [] {
      assert a + b == a;
    } else {
      StaleOfConcat(rows, account, a, b[..|b| - 1], c);
      assert (a + b)[..|a + b| - 1] == a + b[..|b| - 1];
    }
  }

  lemma {:induction false} SameStale(rows: map<TagKey, Row>, mid: map<TagKey, Row>, account: string,
                                     ps: seq<Property>, c: Config)
    requires forall i :: 0 <= i < |ps| ==> (Stale(rows, account, ps[i], c) <==> Stale(mid, account, ps[i], c))
    ensures StaleOf(rows, account, ps, c) == StaleOf(mid, account, ps, c)
  {
    if ps == [] {
    } else {
      SameStale(rows, mid, account, ps[..|ps| - 1], c);
    }
  }

  lemma LaterUntouched(rows: map<TagKey, Row>, mid: map<TagKey, Row>, ps: seq<Property>, k: nat, account: string,
                       c: Config, verdict: Verdict, i: nat)
    requires Distinct(ps) && k <= |ps| && LeftBy(rows, mid, ps, k, account, c, verdict) && k < i < |ps|
    ensures Stale(rows, account, ps[i], c) <==> Stale(mid, account, ps[i], c)
  {
    var done := ApplyAll(rows, account, ps[..k], c, verdict);
    ApplyAllElsewhere(rows, account, ps[..k], c, verdict, ps[i]);
    if mid != done {
      PartlyTouches(done, mid, account, ps[k], c, Reclassification, verdict);
      StaleElsewhere(done, mid, account, ps[k].id, ps[i], c);
    }
  }

  lemma StaleOfSplit(rows: map<TagKey, Row>, account: string, ps: seq<Property>, k: nat, c: Config)
    requires k <= |ps|
    ensures |StaleOf(rows, account, ps, c)|
      == |StaleOf(rows, account, ps[..k], c)| + |StaleOf(rows, account, ps[k..], c)|
  {
    StaleOfConcat(rows, account, ps[..k], ps[k..], c);
    assert ps == ps[..k] + ps[k..];
  }

  lemma StaleOfFrom(rows: map<TagKey, Row>, account: string, ps: seq<Property>, k: nat, c: Config)
    requires k < |ps|
    ensures |StaleOf(rows, account, ps[k..], c)|
      == (if Stale(rows, account, ps[k], c) then 1 else 0) + |StaleOf(rows, account, ps[k + 1..], c)|
  {
    StaleOfSplit(rows, account, ps[k..], 1, c);
    assert ps[k..][..1] == [ps[k]] && ps[k..][1..] == ps[k + 1..];
    assert [ps[k]][..0] == [];
    assert StaleOf(rows, account, [ps[k]], c) == if Stale(rows, account, ps[k], c) then [ps[k].id] else [];
  }

  lemma LaterSameStale(rows: map<TagKey, Row>, mid: map<TagKey, Row>, ps: seq<Property>, k: nat, account: string,
                       c: Config, verdict: Verdict)
    requires Distinct(ps) && k < |ps| && LeftBy(rows, mid, ps, k, account, c, verdict)
    ensures StaleOf(rows, account, ps[k + 1..], c) == StaleOf(mid, account, ps[k + 1..], c)
  {
    var later := ps[k + 1..];
    forall i | 0 <= i < |later| ensures Stale(rows, account, later[i], c) <==> Stale(mid, account, later[i], c) {
      LaterUntouched(rows, mid, ps, k, account, c, verdict, k + 1 + i);
    }
    SameStale(rows, mid, account, later, c);
  }

  /**
   A run that failed in a property it had counted, and the run that resumes it, count that
   property twice exactly when it is still stale at the resumption. Nothing else is counted
   twice, and nothing is missed. When it was not counted, its staleness has not changed.
   */
  lemma ResumedCount(rows: map<TagKey, Row>, mid: map<TagKey, Row>, ps: seq<Property>, k: nat, account: string,
                     c: Config, verdict: Verdict, counted: bool)
    requires Distinct(ps) && k <= |ps| && LeftBy(rows, mid, ps, k, account, c, verdict)
    requires counted ==> k < |ps| && Stale(rows, account, ps[k], c)
    requires !counted && k < |ps| ==> (Stale(rows, account, ps[k], c) <==> Stale(mid, account, ps[k], c))
    ensures |StaleOf(rows, account, ps[..k], c)| + (if counted then 1 else 0) + |StaleOf(mid, account, ps[k..], c)|
      == |StaleOf(rows, account, ps, c)| + (if counted && Stale(mid, account, ps[k], c) then 1 else 0)
  {
    StaleOfSplit(rows, account, ps, k, c);
    if k < |ps| {
      StaleOfFrom(rows, account, ps, k, c);
      StaleOfFrom(mid, account, ps, k, c);
      LaterSameStale(rows, mid, ps, k, account, c, verdict);
    }
  }

  /**
   The concrete case: one unclassified property, whose first upsert fails, is counted once
   by each of the two runs.
   */
  lemma CountedTwice(p: Property, d: Definition, account: string, verdict: Verdict)
    ensures
      var c := Config("1", "h", [d], []);
      && LeftBy(map[], map[], [p], 0, account, c, verdict) && Stale(map[], account, p, c)
      && StaleOf(map[], account, [p], c) == [p.id]
      && |StaleOf(map[], account, [p][..0], c)| + 1 + |StaleOf(map[], account, [p][0..], c)| == 2
  {
    var c := Config("1", "h", [d], []);
    var none: map<TagKey, Row> := map[];
    assert [p][..0] == [] && [p][0..] == [p];
    assert !Current(none, TagKey(account, p.id, c.definitions[0].slug), c);
  }

  // --------------------------------------------------------------------- memberships

  function AreaRow(definition: Json, p: Property, c: Config, source: Source, verdict: Verdict): Row {
    Row(verdict(definition, p), source, 1.0, c.version, c.hash, false)
  }

  function PutAreas(areas: map<AreaKey, Json>, account: string, initial: seq<InitialArea>): map<AreaKey, Json> {
    if initial == [] then areas
    else
      var last := initial[|initial| - 1];
      PutAreas(areas, account, initial[..|initial| - 1])[AreaKey(account, last.slug) := last.definition]
  }

  predicate LastEntry(initial: seq<InitialArea>, i: int) {
    0 <= i < |initial| && forall j :: i < j < |initial| ==> initial[j].slug != initial[i].slug
  }

  /** Every configured area takes the definition of its last entry. */
  lemma {:induction false} PutAreasAt(areas: map<AreaKey, Json>, account: string, initial: seq<InitialArea>, i: nat)
    requires LastEntry(initial, i)
    ensures
      var key, after := AreaKey(account, initial[i].slug), PutAreas(areas, account, initial);
      key in after && after[key] == initial[i].definition
  {
    if i < |initial| - 1 {
      PutAreasAt(areas, account, initial[..|initial| - 1], i);
    }
  }

  /** The other areas keep theirs. */
  lemma {:induction false} PutAreasElsewhere(areas: map<AreaKey, Json>, account: string, initial: seq<InitialArea>,
                                             key: AreaKey)
    requires forall i :: 0 <= i < |initial| ==> key != AreaKey(account, initial[i].slug)
    ensures
      var after := PutAreas(areas, account, initial);
      (key in after <==> key in areas) && (key in areas ==> after[key] == areas[key])
  {
    if initial != [] {
      PutAreasElsewhere(areas, account, initial[..|initial| - 1], key);
    }
  }

  lemma {:induction false} HasLastEntry(initial: seq<InitialArea>, slug: string) returns (i: nat)
    requires exists j :: 0 <= j < |initial| && initial[j].slug == slug
    ensures LastEntry(initial, i) && initial[i].slug == slug
  {
    i := |initial| - 1;
    if initial[i].slug != slug {
      i := HasLastEntry(initial[..i], slug);
    }
  }

  /** The configured areas keep their definitions when they are upserted again. */
  lemma PutAreasTwice(areas: map<AreaKey, Json>, account: string, initial: seq<InitialArea>)
    ensures
      var once := PutAreas(areas, account, initial);
      PutAreas(once, account, initial) == once
  {
    var once := PutAreas(areas, account, initial);
    var twice := PutAreas(once, account, initial);
    forall key: AreaKey ensures (key in twice <==> key in once) && (key in once ==> twice[key] == once[key]) {
      if exists i :: 0 <= i < |initial| && key == AreaKey(account, initial[i].slug) {
        var i := HasLastEntry(initial, key.slug);
        PutAreasAt(areas, account, initial, i);
        PutAreasAt(once, account, initial, i);
      } else {
        PutAreasElsewhere(once, account, initial, key);
      }
    }
  }

  function AreasOf(areas: map<AreaKey, Json>, account: string): set<AreaKey> {
    set a | a in areas && a.account == account
  }

  /** Only memberships of this account and property differ, and no manual one. */
  ghost predicate OnlyTouchesMembers(before: map<MemberKey, Row>, after: map<MemberKey, Row>, account: string,
                                     id: string) {
    && (forall k :: k in before ==> k in after)
    && (forall k :: k in after && !(k.area.account == account && k.property == id) ==>
      k in before && after[k] == before[k])
    && ManualIn(before, after) && ManualIn(after, before)
  }

  /** The membership was decided by hand before, or now carries the verdict of the area's definition. */
  ghost predicate MemberDecided(before: map<MemberKey, Row>, after: map<MemberKey, Row>, areas: map<AreaKey, Json>,
                                area: AreaKey, p: Property, c: Config, source: Source, verdict: Verdict)
    requires area in areas
  {
    var key := MemberKey(area, p.id);
    && key in after
    && (if key in before && before[key].manualOverride then after[key] == before[key]
        else
          && (after[key].positive <==> verdict(areas[area], p))
          && after[key].source == source && after[key].confidence == 1.0 && !after[key].manualOverride
          && after[key].version == c.version && after[key].hash == c.hash)
  }

  /** Every area of the account has its verdict on this property, manual rows aside. */
  ghost predicate MembersDecided(before: map<MemberKey, Row>, after: map<MemberKey, Row>, areas: map<AreaKey, Json>,
                                 done: set<AreaKey>, account: string, p: Property, c: Config, source: Source,
                                 verdict: Verdict) {
    && OnlyTouchesMembers(before, after, account, p.id)
    && forall a :: a in done && a in areas ==> MemberDecided(before, after, areas, a, p, c, source, verdict)
  }

  lemma OneMoreDecided(before: map<MemberKey, Row>, mid: map<MemberKey, Row>, areas: map<AreaKey, Json>,
                       done: set<AreaKey>, account: string, p: Property, c: Config, source: Source,
                       verdict: Verdict, area: AreaKey)
    requires MembersDecided(before, mid, areas, done, account, p, c, source, verdict)
    requires area in areas && area.account == account && area !in done
    requires var key := MemberKey(area, p.id);
      (key in mid <==> key in before) && (key in before ==> mid[key] == before[key])
    ensures MembersDecided(before, Put(mid, MemberKey(area, p.id), AreaRow(areas[area], p, c, source, verdict)),
                           areas, done + {area}, account, p, c, source, verdict)
  {
  }

  ghost predicate ManualIn<K>(rows: map<K, Row>, later: map<K, Row>) {
    forall k :: k in rows && rows[k].manualOverride ==> k in later && later[k] == rows[k]
  }

  lemma ManualTagsStay(rows: map<TagKey, Row>, before: map<TagKey, Row>, after: map<TagKey, Row>, account: string,
                       id: string)
    requires ManualIn(rows, before) && OnlyTouches(before, after, account, id)
    ensures ManualIn(rows, after)
  {
  }

  /**
   The memberships that an APPLY leaves for its first `k` properties: the areas have their
   configured definitions, and each of them is decided for each property.
   */
  ghost predicate MembersOf(before: map<MemberKey, Row>, after: map<MemberKey, Row>, areas: map<AreaKey, Json>,
                            todo: seq<Property>, k: nat, account: string, c: Config, verdict: Verdict)
    requires k <= |todo|
  {
    if k == 0 then ManualIn(after, before)
    else
      && MembersOf(before, after, areas, todo, k - 1, account, c, verdict)
      && areas == PutAreas(areas, account, c.initialAreas)
      && forall a :: a in AreasOf(areas, account) ==>
        MemberDecided(before, after, areas, a, todo[k - 1], c, Reclassification, verdict)
  }

  lemma {:induction false} NoNewManual(before: map<MemberKey, Row>, after: map<MemberKey, Row>,
                                       areas: map<AreaKey, Json>, todo: seq<Property>, k: nat, account: string,
                                       c: Config, verdict: Verdict)
    requires k <= |todo| && MembersOf(before, after, areas, todo, k, account, c, verdict)
    ensures ManualIn(after, before)
  {
    if k > 0 {
      NoNewManual(before, after, areas, todo, k - 1, account, c, verdict);
    }
  }

  /** Classifying a later property leaves them alone. */
  lemma {:induction false} MembersKept(before: map<MemberKey, Row>, mid: map<MemberKey, Row>,
                                       after: map<MemberKey, Row>, areas: map<AreaKey, Json>, todo: seq<Property>,
                                       k: nat, last: nat, account: string, c: Config, verdict: Verdict)
    requires Distinct(todo) && k <= last < |todo| && OnlyTouchesMembers(mid, after, account, todo[last].id)
    requires MembersOf(before, mid, areas, todo, k, account, c, verdict)
    ensures MembersOf(before, after, areas, todo, k, account, c, verdict)
  {
    if k > 0 {
      MembersKept(before, mid, after, areas, todo, k - 1, last, account, c, verdict);
      assert todo[k - 1].id != todo[last].id;
      forall a | a in AreasOf(areas, account)
        ensures MemberDecided(before, after, areas, a, todo[k - 1], c, Reclassification, verdict)
      {
        assert MemberDecided(before, mid, areas, a, todo[k - 1], c, Reclassification, verdict);
      }
    }
  }

  /** One more property. */
  lemma MembersNext(before: map<MemberKey, Row>, mid: map<MemberKey, Row>, after: map<MemberKey, Row>,
                    areas: map<AreaKey, Json>, areas': map<AreaKey, Json>, todo: seq<Property>, k: nat,
                    account: string, c: Config, verdict: Verdict)
    requires Distinct(todo) && k < |todo| && ManualIn(before, mid)
    requires MembersOf(before, mid, areas, todo, k, account, c, verdict)
    requires areas' == PutAreas(areas, account, c.initialAreas)
    requires MembersDecided(mid, after, areas', AreasOf(areas', account), account, todo[k], c,
                            Reclassification, verdict)
    ensures MembersOf(before, after, areas', todo, k + 1, account, c, verdict)
  {
    PutAreasTwice(areas, account, c.initialAreas);
    NoNewManual(before, mid, areas, todo, k, account, c, verdict);
    MembersKept(before, mid, after, areas, todo, k, k, account, c, verdict);
    if k == 0 {
      assert MembersOf(before, after, areas', todo, 0, account, c, verdict);
    }
    forall a | a in AreasOf(areas', account)
      ensures MemberDecided(before, after, areas', a, todo[k], c, Reclassification, verdict)
    {
      assert MemberDecided(mid, after, areas', a, todo[k], c, Reclassification, verdict);
    }
  }

  /** Read back: every area of the account is decided for every one of these properties. */
  lemma {:induction false} MembersOfMeans(before: map<MemberKey, Row>, after: map<MemberKey, Row>,
                                          areas: map<AreaKey, Json>, todo: seq<Property>, k: nat, account: string,
                                          c: Config, verdict: Verdict, j: nat, area: AreaKey)
    requires j < k <= |todo| && area in areas && area.account == account
    requires MembersOf(before, after, areas, todo, k, account, c, verdict)
    ensures
      var key := MemberKey(area, todo[j].id);
      && key in after
      && (if key in before && before[key].manualOverride then after[key] == before[key]
          else (after[key].positive <==> verdict(areas[area], todo[j])) && after[key].source == Reclassification)
  {
    assert area in AreasOf(areas, account);
    if j < k - 1 {
      MembersOfMeans(before, after, areas, todo, k - 1, account, c, verdict, j, area);
    }
  }

  class ClassificationStore {
    const properties: seq<Property>
    const verdict: Verdict
    // No statement fails.
    const calm: bool
    var areas: map<AreaKey, Json>
    var memberships: map<MemberKey, Row>
    var classifications: map<TagKey, Row>

    /** The property table: distinct, non-empty ids. */
    ghost predicate Valid() {
      Distinct(properties) && forall i :: 0 <= i < |properties| ==> properties[i].id != ""
    }

    constructor (properties: seq<Property>, verdict: Verdict, calm: bool)
      requires Distinct(properties) && forall i :: 0 <= i < |properties| ==> properties[i].id != ""
      ensures Valid() && this.properties == properties && this.verdict == verdict && this.calm == calm
      ensures areas == map[] && memberships == map[] && classifications == map[]
    {
      this.properties, this.verdict, this.calm := properties, verdict, calm;
      areas, memberships, classifications := map[], map[], map[];
    }

    /** Whether the next statement fails. */
    method Fails() returns (fails: bool)
      ensures calm ==> !fails
    {
      fails := *;
      fails := fails && !calm;
    }

    /** Every configured area takes its definition; a statement may fail, or take effect and report an error. */
    method UpsertAreas(account: string, c: Config) returns (ok: bool)
      modifies this`areas
      ensures ok ==> areas == PutAreas(old(areas), account, c.initialAreas)
      ensures calm ==> ok
    {
      for i := 0 to |c.initialAreas|
        invariant areas == PutAreas(old(areas), account, c.initialAreas[..i])
      {
        var fails := Fails();
        var effect := *;
        if fails && !effect { return false; }
        assert c.initialAreas[..i + 1][..i] == c.initialAreas[..i];
        areas := areas[AreaKey(account, c.initialAreas[i].slug) := c.initialAreas[i].definition];
        if fails { return false; }
      }
      assert c.initialAreas[..|c.initialAreas|] == c.initialAreas;
      ok := true;
    }

    /** The membership of one area, unless it is manual. */
    method UpsertMember(area: AreaKey, p: Property, c: Config, source: Source)
      requires area in areas
      modifies this`memberships
      ensures memberships == Put(old(memberships), MemberKey(area, p.id), AreaRow(areas[area], p, c, source, verdict))
    {
      var key := MemberKey(area, p.id);
      if !(key in memberships && memberships[key].manualOverride) {
        memberships := memberships[key := AreaRow(areas[area], p, c, source, verdict)];
      }
    }

    /** Upsert the areas, then the membership of each, with the same failures. */
    method ClassifyAreas(p: Property, account: string, c: Config, source: Source) returns (ok: bool)
      modifies this`areas, this`memberships
      ensures calm ==> ok
      ensures OnlyTouchesMembers(old(memberships), memberships, account, p.id)
      ensures ok ==> areas == PutAreas(old(areas), account, c.initialAreas)
      ensures ok ==> MembersDecided(old(memberships), memberships, areas,
                                    AreasOf(areas, account), account, p, c, source, verdict)
    {
      ok := UpsertAreas(account, c);
      if !ok { return; }
      ghost var mine := AreasOf(areas, account);
      var rest := AreasOf(areas, account);
      while rest != {}
        invariant rest <= mine && areas == PutAreas(old(areas), account, c.initialAreas)
        invariant MembersDecided(old(memberships), memberships, areas, mine - rest, account, p, c, source, verdict)
        invariant forall a :: a in rest ==>
          var key := MemberKey(a, p.id);
          && (key in memberships <==> key in old(memberships))
          && (key in old(memberships) ==> memberships[key] == old(memberships)[key])
        decreases |rest|
      {
        var area :| area in rest;
        var fails := Fails();
        var effect := *;
        if fails && !effect { return false; }
        ghost var mid := memberships;
        UpsertMember(area, p, c, source);
        OneMoreDecided(old(memberships), mid, areas, mine - rest, account, p, c, source, verdict, area);
        assert mine - rest + {area} == mine - (rest - {area});
        if fails { return false; }
        rest := rest - {area};
      }
      ok := true;
    }

    /** `classifyForAccount`: the areas, then one upsert per definition, with the same failures. */
    method ClassifyForAccount(p: Property, account: string, c: Config, source: Source) returns (ok: bool)
      modifies this`areas, this`memberships, this`classifications
      ensures calm ==> ok
      ensures OnlyTouchesMembers(old(memberships), memberships, account, p.id)
      ensures Partly(old(classifications), classifications, account, p, c, source, verdict)
      ensures ok ==> classifications == PutTags(old(classifications), account, p, c, c.definitions, source, verdict)
      ensures ok ==> areas == PutAreas(old(areas), account, c.initialAreas)
      ensures ok ==> forall i :: LastOfSlug(c.definitions, i) ==>
        Decided(old(classifications), classifications, account, p, c, c.definitions[i], source, verdict)
      ensures ok ==> MembersDecided(old(memberships), memberships, areas,
                                    AreasOf(areas, account), account, p, c, source, verdict)
    {
      ok := ClassifyAreas(p, account, c, source);
      assert classifications == PutTags(old(classifications), account, p, c, c.definitions[..0], source, verdict);
      if !ok { return; }
      ghost var members, known := memberships, areas;
      for i := 0 to |c.definitions|
        invariant memberships == members && areas == known
        invariant classifications == PutTags(old(classifications), account, p, c, c.definitions[..i], source, verdict)
      {
        var fails := Fails();
        var effect := *;
        if fails && !effect { return false; }
        var d := c.definitions[i];
        assert c.definitions[..i + 1][..i] == c.definitions[..i];
        var key := TagKey(account, p.id, d.slug);
        if !(key in classifications && classifications[key].manualOverride) {
          classifications := classifications[key := TagRow(d, p, c, source, verdict)];
        }
        assert classifications == PutTags(old(classifications), account, p, c, c.definitions[..i + 1], source, verdict);
        if fails { return false; }
      }
      assert c.definitions[..|c.definitions|] == c.definitions;
      forall i | LastOfSlug(c.definitions, i)
        ensures Decided(old(classifications), classifications, account, p, c, c.definitions[i], source, verdict)
      {
        TagDecided(old(classifications), account, p, c, source, verdict, i);
      }
    }

    /** What one property adds to a run: counted as stale before it is classified, so also when that fails. */
    method ProcessProperty(p: Property, account: string, mode: Mode, c: Config) returns (counted: bool, ok: bool)
      modifies this`areas, this`memberships, this`classifications
      ensures calm ==> ok
      ensures counted ==> Stale(old(classifications), account, p, c)
      ensures ok ==> counted == Stale(old(classifications), account, p, c)
      ensures !ok && !counted ==>
        (Stale(old(classifications), account, p, c) <==> Stale(classifications, account, p, c))
      ensures !ok && counted ==> mode == Apply
      ensures mode != Apply ==>
        areas == old(areas) && memberships == old(memberships) && classifications == old(classifications)
      ensures classifications == old(classifications)
        || Partly(old(classifications), classifications, account, p, c, Reclassification, verdict)
      ensures ManualIn(old(memberships), memberships)
      ensures ok && mode == Apply ==>
        && classifications == PutTags(old(classifications), account, p, c, c.definitions, Reclassification, verdict)
        && areas == PutAreas(old(areas), account, c.initialAreas)
        && MembersDecided(old(memberships), memberships, areas, AreasOf(areas, account), account, p, c,
                          Reclassification, verdict)
    {
      var readFails := Fails();
      if readFails { return false, false; }
      counted := Stale(classifications, account, p, c);
      ok := true;
      if mode == Apply {
        ghost var before := classifications;
        ok := ClassifyForAccount(p, account, c, Reclassification);
        PartlyTouches(before, classifications, account, p, c, Reclassification, verdict);
      }
    }

    /** Every manual row of `tags` and `members` is there as it was. */
    ghost predicate ManualKept(tags: map<TagKey, Row>, members: map<MemberKey, Row>)
      reads this
    {
      ManualIn(tags, classifications) && ManualIn(members, memberships)
    }

    /** The state after `k` properties of a run that began with classification rows `tags`. */
    ghost predicate Reached(tags: map<TagKey, Row>, todo: seq<Property>, k: nat, account: string, mode: Mode, c: Config)
      requires k <= |todo|
      reads this
    {
      classifications == if mode == Apply then ApplyAll(tags, account, todo[..k], c, verdict) else tags
    }

    /** CHECK and DIFF write no area, membership or classification row. */
    twostate predicate WritesOnlyIf(mode: Mode)
      reads this
    {
      mode != Apply ==>
        areas == old(areas) && memberships == old(memberships) && classifications == old(classifications)
    }

    /** A run over `todo` that has completed `k` properties and counted `stale`. */
    ghost predicate Progress(tags: map<TagKey, Row>, members: map<MemberKey, Row>, todo: seq<Property>, k: nat,
                             account: string, mode: Mode, c: Config, stale: seq<string>)
      reads this
    {
      && k <= |todo| && Reached(tags, todo, k, account, mode, c) && ManualKept(tags, members)
      && stale == StaleOf(tags, account, todo[..k], c)
      && (mode == Apply ==> MembersOf(members, memberships, areas, todo, k, account, c, verdict))
    }

    /**
     The state after an error that came when `k` properties were completed; with `counted`,
     while the next one, already counted, was being classified.
     */
    ghost predicate Interrupted(tags: map<TagKey, Row>, todo: seq<Property>, k: nat, account: string, mode: Mode,
                                c: Config, counted: bool)
      reads this
    {
      && k <= |todo|
      && (if mode == Apply then LeftBy(tags, classifications, todo, k, account, c, verdict)
          else classifications == tags)
      && (counted ==> mode == Apply && k < |todo| && Stale(tags, account, todo[k], c))
      && (!counted && k < |todo| ==>
            (Stale(tags, account, todo[k], c) <==> Stale(classifications, account, todo[k], c)))
    }

    /** A run over `todo` stopped by an error, having counted `stale`. */
    ghost predicate Broken(tags: map<TagKey, Row>, members: map<MemberKey, Row>, todo: seq<Property>, k: nat,
                           account: string, mode: Mode, c: Config, stale: seq<string>, counted: bool)
      reads this
    {
      && ManualKept(tags, members) && Interrupted(tags, todo, k, account, mode, c, counted)
      && stale == StaleOf(tags, account, todo[..if counted then k + 1 else k], c)
    }

    /** An error between two properties. */
    lemma StopHere(tags: map<TagKey, Row>, members: map<MemberKey, Row>, todo: seq<Property>, k: nat,
                   account: string, mode: Mode, c: Config, stale: seq<string>)
      requires Distinct(todo) && Progress(tags, members, todo, k, account, mode, c, stale)
      ensures Broken(tags, members, todo, k, account, mode, c, stale, false)
    {
      if k < |todo| {
        ApplyAllElsewhere(tags, account, todo[..k], c, verdict, todo[k]);
      }
    }

    /** How many a broken run has counted. */
    lemma BrokenCount(tags: map<TagKey, Row>, members: map<MemberKey, Row>, todo: seq<Property>, k: nat,
                      account: string, mode: Mode, c: Config, stale: seq<string>, counted: bool)
      requires Broken(tags, members, todo, k, account, mode, c, stale, counted)
      ensures |stale| == |StaleOf(tags, account, todo[..k], c)| + (if counted then 1 else 0)
    {
      if counted {
        assert todo[..k + 1][..k] == todo[..k];
      }
    }

    method ProcessNext(p: Property, stale: seq<string>, ghost tags: map<TagKey, Row>,
                       ghost members: map<MemberKey, Row>,
                       ghost todo: seq<Property>, ghost k: nat, account: string, mode: Mode, c: Config)
      returns (ok: bool, stale': seq<string>, ghost broke: bool)
      requires Distinct(todo) && k < |todo| && p == todo[k]
      requires Progress(tags, members, todo, k, account, mode, c, stale)
      modifies this`areas, this`memberships, this`classifications
      ensures WritesOnlyIf(mode) && (calm ==> ok)
      ensures if ok then Progress(tags, members, todo, k + 1, account, mode, c, stale')
              else Broken(tags, members, todo, k, account, mode, c, stale', broke)
    {
      NextOne(tags, account, todo, k, c, verdict);
      ghost var before, mid, known := classifications, memberships, areas;
      var counted;
      counted, ok := ProcessProperty(p, account, mode, c);
      if ok && mode == Apply {
        MembersNext(members, mid, memberships, known, areas, todo, k, account, c, verdict);
      }
      broke := counted && !ok;
      if classifications != before {
        PartlyTouches(before, classifications, account, p, c, Reclassification, verdict);
      }
      ManualTagsStay(tags, before, classifications, account, p.id);
      stale' := if counted then stale + [p.id] else stale;
    }

    /** One page: the properties of `todo` from `start` on, up to the first that fails. */
    method ProcessBatch(rows: seq<Property>, stale: seq<string>, ghost tags: map<TagKey, Row>,
                        ghost members: map<MemberKey, Row>, ghost todo: seq<Property>, ghost start: nat,
                        account: string, mode: Mode, c: Config)
      returns (ok: bool, done: nat, stale': seq<string>, ghost counted: bool)
      requires Distinct(todo) && start + |rows| <= |todo|
      requires forall i :: 0 <= i < |rows| ==> rows[i] == todo[start + i]
      requires Progress(tags, members, todo, start, account, mode, c, stale)
      modifies this`areas, this`memberships, this`classifications
      ensures done <= |rows| && WritesOnlyIf(mode) && (calm ==> ok)
      ensures if ok then done == |rows| && Progress(tags, members, todo, start + done, account, mode, c, stale')
              else Broken(tags, members, todo, start + done, account, mode, c, stale', counted)
    {
      ok, done, stale', counted := true, 0, stale, false;
      ghost var k := start;
      while ok && done < |rows|
        invariant 0 <= done <= |rows| && k == start + done && WritesOnlyIf(mode) && (calm ==> ok)
        invariant if ok then Progress(tags, members, todo, k, account, mode, c, stale')
                  else Broken(tags, members, todo, k, account, mode, c, stale', counted)
        decreases ok, |rows| - done
      {
        ok, stale', counted := ProcessNext(rows[done], stale', tags, members, todo, k, account, mode, c);
        if ok {
          done, k := done + 1, k + 1;
        }
      }
    }

    /** The properties of one page, and the statement that records the progress, which may fail too. */
    method ProcessPage(rows: seq<Property>, stale: seq<string>, ghost tags: map<TagKey, Row>,
                       ghost members: map<MemberKey, Row>, ghost todo: seq<Property>, ghost start: nat,
                       account: string, mode: Mode, c: Config)
      returns (ok: bool, done: nat, stale': seq<string>, ghost counted: bool)
      requires Distinct(todo) && start + |rows| <= |todo|
      requires forall i :: 0 <= i < |rows| ==> rows[i] == todo[start + i]
      requires Progress(tags, members, todo, start, account, mode, c, stale)
      modifies this`areas, this`memberships, this`classifications
      ensures done <= |rows| && (ok ==> done == |rows|) && WritesOnlyIf(mode) && (calm ==> ok)
      ensures if ok then Progress(tags, members, todo, start + done, account, mode, c, stale')
              else Broken(tags, members, todo, start + done, account, mode, c, stale', counted)
    {
      ok, done, stale', counted := ProcessBatch(rows, stale, tags, members, todo, start, account, mode, c);
      var updateFails := Fails();
      if ok && updateFails {
        StopHere(tags, members, todo, start + done, account, mode, c, stale');
        ok, counted := false, false;
      }
    }

    /** The rows of one page, at most `take`, past the cursor of a run that has completed `k` properties. */
    method FindPage(cursor: Option<string>, take: nat, ghost todo: seq<Property>, ghost start: Option<string>,
                    ghost k: nat)
      returns (rows: seq<Property>)
      requires Valid() && take >= 1 && todo == After(properties, start)
      requires k <= |todo| && cursor == CursorAt(todo, k, start)
      ensures k + |rows| <= |todo| && |rows| <= take
      ensures forall i :: 0 <= i < |rows| ==> rows[i] == todo[k + i]
      ensures |rows| == 0 <==> k == |todo|
    {
      ResumeExact(properties, start, k);
      var rest := After(properties, cursor);
      rows := rest[..Min(|rest|, take)];
    }

    /** The query for the next page, which may fail. */
    method QueryPage(stale: seq<string>, cursor: Option<string>, k: nat, ghost tags: map<TagKey, Row>,
                     ghost members: map<MemberKey, Row>, ghost todo: seq<Property>, account: string, mode: Mode,
                     take: nat, ghost start: Option<string>, c: Config)
      returns (ok: bool, rows: seq<Property>)
      requires Valid() && take >= 1 && todo == After(properties, start) && Distinct(todo)
      requires Progress(tags, members, todo, k, account, mode, c, stale) && cursor == CursorAt(todo, k, start)
      ensures calm ==> ok
      ensures ok ==> k + |rows| <= |todo| && forall i :: 0 <= i < |rows| ==> rows[i] == todo[k + i]
      ensures ok ==> (|rows| == 0 <==> k == |todo|)
      ensures !ok ==> Broken(tags, members, todo, k, account, mode, c, stale, false)
    {
      var fails := Fails();
      if fails {
        StopHere(tags, members, todo, k, account, mode, c, stale);
        return false, [];
      }
      rows := FindPage(cursor, take, todo, start, k);
      ok := true;
    }

    /** One turn of the loop: fetch a page, process it, record the progress; `more` is false at the end of the list. */
    method RunPage(stale: seq<string>, cursor: Option<string>, processed: nat, ghost tags: map<TagKey, Row>,
                   ghost members: map<MemberKey, Row>, ghost todo: seq<Property>, account: string, mode: Mode,
                   batchSize: nat, ghost start: Option<string>, c: Config)
      returns (ok: bool, more: bool, cursor': Option<string>, processed': nat, stale': seq<string>, ghost counted: bool)
      requires Valid() && batchSize >= 1 && todo == After(properties, start) && Distinct(todo)
      requires Progress(tags, members, todo, processed, account, mode, c, stale)
      requires cursor == CursorAt(todo, processed, start)
      modifies this`areas, this`memberships, this`classifications
      ensures WritesOnlyIf(mode) && (calm ==> ok)
      ensures processed <= processed' <= |todo| && cursor' == CursorAt(todo, processed', start)
      ensures if ok then Progress(tags, members, todo, processed', account, mode, c, stale')
              else Broken(tags, members, todo, processed', account, mode, c, stale', counted)
      ensures ok && more ==> processed' > processed
      ensures ok && !more ==> processed' == |todo|
    {
      var rows;
      ok, rows := QueryPage(stale, cursor, processed, tags, members, todo, account, mode, batchSize, start, c);
      more := ok && |rows| > 0;
      cursor', processed', stale', counted := cursor, processed, stale, false;
      if !more { return; }
      var done;
      ok, done, stale', counted := ProcessPage(rows, stale, tags, members, todo, processed, account, mode, c);
      CursorMoves(todo, processed, rows, done, start);
      if done > 0 {
        cursor' := Some(rows[done - 1].id);
      }
      processed' := processed + done;
    }

    /** The loop over the pages, and where it stands when it ends or breaks. */
    method RunPages(ghost todo: seq<Property>, account: string, mode: Mode, batchSize: nat, start: Option<string>,
                    c: Config)
      returns (ok: bool, cursor: Option<string>, processed: nat, stale: seq<string>, ghost counted: bool)
      requires Valid() && batchSize >= 1 && todo == After(properties, start) && Distinct(todo)
      modifies this`areas, this`memberships, this`classifications
      ensures WritesOnlyIf(mode) && (calm ==> ok)
      ensures processed <= |todo| && cursor == CursorAt(todo, processed, start) && (ok ==> processed == |todo|)
      ensures
        if ok then Progress(old(classifications), old(memberships), todo, processed, account, mode, c, stale)
        else Broken(old(classifications), old(memberships), todo, processed, account, mode, c, stale, counted)
    {
      ghost var tags, members := classifications, memberships;
      var more := true;
      ok, cursor, processed, stale, counted := true, start, 0, [], false;
      while ok && more
        invariant processed <= |todo| && cursor == CursorAt(todo, processed, start) && WritesOnlyIf(mode)
        invariant calm ==> ok
        invariant if ok then Progress(tags, members, todo, processed, account, mode, c, stale)
                  else Broken(tags, members, todo, processed, account, mode, c, stale, counted)
        invariant ok && !more ==> processed == |todo|
        decreases ok, more, |todo| - processed
      {
        ok, more, cursor, processed, stale, counted :=
          RunPage(stale, cursor, processed, tags, members, todo, account, mode, batchSize, start, c);
      }
    }

    /**
     `runClassification` over `todo`, the properties past the starting cursor. Nothing promised
     mentions the batch size: a completed run has processed every one of them, once each and
     in order; a failed one has completed a prefix and its cursor stands right after it.
     */
    method RunClassification(account: string, mode: Mode, batchSize: nat, start: Option<string>, c: Config)
      returns (run: Run, ghost todo: seq<Property>, ghost counted: bool)
      requires Valid() && batchSize >= 1
      modifies this`areas, this`memberships, this`classifications
      ensures todo == After(properties, start) && Distinct(todo)
      ensures run.processed <= |todo|
      ensures run.cursor == CursorAt(todo, run.processed, start)
      ensures After(properties, run.cursor) == todo[run.processed..]
      ensures run.status == Completed ==>
        && run.processed == |todo|
        && run.changed == |StaleOf(old(classifications), account, todo, c)|
        && run.diff == (if mode == Diff then StaleOf(old(classifications), account, todo, c) else [])
        && Reached(old(classifications), todo, run.processed, account, mode, c)
        && (mode == Apply ==>
              MembersOf(old(memberships), memberships, areas, todo, run.processed, account, c, verdict))
      ensures run.status == Failed ==>
        && Interrupted(old(classifications), todo, run.processed, account, mode, c, counted)
        && run.changed == |StaleOf(old(classifications), account, todo[..run.processed], c)|
                          + (if counted then 1 else 0)
      ensures calm ==> run.status == Completed
      ensures WritesOnlyIf(mode)
      ensures ManualKept(old(classifications), old(memberships))
    {
      todo := After(properties, start);
      ghost var tags := classifications;
      AfterDistinct(properties, start);
      var ok, cursor, processed, stale;
      ok, cursor, processed, stale, counted := RunPages(todo, account, mode, batchSize, start, c);
      ResumeExact(properties, start, processed);
      assert todo[..|todo|] == todo;
      if !ok {
        BrokenCount(tags, old(memberships), todo, processed, account, mode, c, stale, counted);
      }
      run := if ok then Run(Completed, cursor, processed, |stale|, if mode == Diff then stale else [])
             else Run(Failed, cursor, processed, |stale|, []);
    }

    /** Resume an APPLY that was interrupted after `k` properties of `todo`; `tags` are the rows it had begun with. */
    method ResumeApply(cursor: Option<string>, ghost tags: map<TagKey, Row>, ghost todo: seq<Property>, ghost k: nat,
                       ghost counted: bool, account: string, batchSize: nat, c: Config) returns (run: Run)
      requires Valid() && batchSize >= 1 && Distinct(todo)
      requires Interrupted(tags, todo, k, account, Apply, c, counted) && After(properties, cursor) == todo[k..]
      modifies this`areas, this`memberships, this`classifications
      ensures calm ==> run.status == Completed
      ensures run.status == Completed ==>
        && StaleOf(classifications, account, todo, c) == []
        && |StaleOf(tags, account, todo[..k], c)| + (if counted then 1 else 0) + run.changed
           == |StaleOf(tags, account, todo, c)|
              + (if counted && Stale(old(classifications), account, todo[k], c) then 1 else 0)
    {
      ghost var mid := classifications;
      ResumedCount(tags, mid, todo, k, account, c, verdict, counted);
      ghost var rest, again;
      run, rest, again := RunClassification(account, Apply, batchSize, cursor, c);
      if run.status == Completed {
        assert todo[k..][..|todo[k..]|] == todo[k..];
        ResumedApplyConverges(tags, mid, todo, k, account, c, verdict);
      }
    }

    /**
     APPLY past the cursor, resumed from where it stopped if it fails; `mid` are the rows at
     the resumption. When the resumed run completes nothing is stale, and the two counts add
     up to the stale properties, with one of them counted twice exactly when the failing
     property was counted and is still stale at the resumption.
     */
    method ApplyResumed(account: string, batchSize: nat, start: Option<string>, c: Config)
      returns (first: Run, second: Option<Run>,
               ghost todo: seq<Property>, ghost counted: bool, ghost mid: map<TagKey, Row>)
      requires Valid() && batchSize >= 1
      modifies this`areas, this`memberships, this`classifications
      ensures todo == After(properties, start)
      ensures second.None? <==> first.status == Completed
      ensures calm ==> second.None?
      ensures first.status == Completed ==>
        && StaleOf(classifications, account, todo, c) == []
        && first.changed == |StaleOf(old(classifications), account, todo, c)|
      ensures second.Some? && counted ==> first.processed < |todo|
      ensures second.Some? && second.value.status == Completed ==>
        && StaleOf(classifications, account, todo, c) == []
        && first.changed + second.value.changed == |StaleOf(old(classifications), account, todo, c)|
           + (if counted && Stale(mid, account, todo[first.processed], c) then 1 else 0)
    {
      ghost var before := classifications;
      first, todo, counted := RunClassification(account, Apply, batchSize, start, c);
      second, mid := None, classifications;
      if first.status == Completed {
        ApplyConverges(before, account, todo, c, verdict);
        assert todo[..|todo|] == todo;
      } else {
        var resumed := ResumeApply(first.cursor, before, todo, first.processed, counted, account, batchSize, c);
        second := Some(resumed);
      }
    }

    /** APPLY everything, resuming once if it fails; when that completes, CHECK reports nothing. */
    method ApplyThenCheck(account: string, batchSize: nat, c: Config) returns (check: Option<Run>)
      requires Valid() && batchSize >= 1
      modifies this`areas, this`memberships, this`classifications
      ensures check.Some? && check.value.status == Completed ==>
        check.value.processed == |properties| && check.value.changed == 0
      ensures calm ==> check.Some? && check.value.status == Completed
    {
      var first, second;
      ghost var todo, counted, mid;
      first, second, todo, counted, mid := ApplyResumed(account, batchSize, None, c);
      if second.Some? && second.value.status == Failed { return None; }
      var run;
      run, todo, counted := RunClassification(account, Check, batchSize, None, c);
      check := Some(run);
    }
  }
}
