/**
 Cursor pagination of the lead lists (apps/api/src/routes/ownerLeads.ts and
 apps/api/src/routes/agentPortals.ts), and what a client that follows `nextCursor` sees
 while new leads keep arriving.
 */
module CursorWalk {
  import opened Common
  import Cursor

  const DEFAULT_PAGE := 25
  const MAX_PAGE_SIZE := 100

  datatype Lead = Lead(id: string, createdAt: int, status: string, source: string)

  /** `createdAt` descending, then `id` descending: the order of the query, newest first. */
  predicate Before(a: Lead, b: Lead) {
    a.createdAt > b.createdAt || (a.createdAt == b.createdAt && Above(a.id, b.id))
  }

  /** String order, by code unit. */
  predicate Above(a: string, b: string) {
    a != [] && (b == [] || a[0] > b[0] || (a[0] == b[0] && Above(a[1..], b[1..])))
  }

  /** Ids are keys, and no id is empty. */
  predicate DistinctIds(ls: seq<Lead>) {
    && (forall i, j :: 0 <= i < j < |ls| ==> ls[i].id != ls[j].id)
    && (forall i :: 0 <= i < |ls| ==> ls[i].id != "")
  }

  /** A table of leads, listed in the order of the query. */
  predicate Table(ls: seq<Lead>) {
    DistinctIds(ls) && forall i, j :: 0 <= i < j < |ls| ==> Before(ls[i], ls[j])
  }

  datatype Filters = Filters(status: Option<string>, source: Option<string>)

  predicate Matches(f: Filters, l: Lead) {
    && (f.status.Some? ==> l.status == f.status.value)
    && (f.source.Some? ==> l.source == f.source.value)
  }

  function Filtered(ls: seq<Lead>, f: Filters): seq<Lead> {
    if ls == [] then []
    else (if Matches(f, ls[0]) then [ls[0]] else []) + Filtered(ls[1..], f)
  }

  function Ids(ls: seq<Lead>): (ids: seq<string>)
    ensures |ids| == |ls| && forall i :: 0 <= i < |ls| ==> ids[i] == ls[i].id
  {
    seq(|ls|, i requires 0 <= i < |ls| => ls[i].id)
  }

  /** The rows past a cursor. */
  function Past(ls: seq<Lead>, cursor: Option<string>): seq<Lead> {
    Cursor.Past(Ids(ls), ls, cursor)
  }

  datatype Page = Page(leads: seq<Lead>, nextCursor: Option<string>)

  /** A missing, zero or unreadable limit is the default; any other is clamped. */
  function PageSize(limit: Option<int>): (take: int)
    ensures 1 <= take <= 100
    ensures limit == None || limit == Some(0) ==> take == 25
    ensures limit.Some? && limit.value != 0 && 1 <= limit.value <= 100 ==> take == limit.value
    ensures limit.Some? && limit.value < 0 ==> take == 1
    ensures limit.Some? && limit.value > 100 ==> take == 100
  {
    Clamp(if limit.Some? && limit.value != 0 then limit.value else DEFAULT_PAGE, 1, MAX_PAGE_SIZE)
  }

  /** One row more than the page is fetched; it tells whether there is a next page. */
  function PageOf(past: seq<Lead>, take: nat): Page
    requires take >= 1
  {
    var rows := past[..Min(|past|, take + 1)];
    var hasMore := |rows| > take;
    var leads := if hasMore then rows[..take] else rows;
    Page(leads, if hasMore then Some(leads[|leads| - 1].id) else None)
  }

  /** The handler. */
  function GetPage(table: seq<Lead>, f: Filters, cursor: Option<string>, limit: Option<int>): Page {
    PageOf(Past(Filtered(table, f), cursor), PageSize(limit))
  }

  /** A page is a prefix of what is past its cursor, and says truly whether anything is left. */
  lemma PageIsPrefix(past: seq<Lead>, take: nat)
    requires take >= 1
    ensures
      var page := PageOf(past, take);
      && |page.leads| == Min(take, |past|) && page.leads == past[..|page.leads|]
      && (page.nextCursor.Some? <==> |page.leads| < |past|)
      && (page.nextCursor.Some? ==> page.leads != [] && page.nextCursor.value == page.leads[|page.leads| - 1].id)
  {
  }

  lemma {:induction false} FilteredConcat(a: seq<Lead>, b: seq<Lead>, f: Filters)
    ensures Filtered(a + b, f) == Filtered(a, f) + Filtered(b, f)
  {
    if a == [] {
      assert a + b == b;
    } else {
      var head := if Matches(f, a[0]) then [a[0]] else [];
      FilteredConcat(a[1..], b, f);
      assert (a + b)[0] == a[0] && (a + b)[1..] == a[1..] + b;
      assert head + (Filtered(a[1..], f) + Filtered(b, f)) == (head + Filtered(a[1..], f)) + Filtered(b, f);
    }
  }

  lemma {:induction false} FilteredFrom(ls: seq<Lead>, f: Filters, k: nat)
    requires k < |Filtered(ls, f)|
    ensures exists i :: 0 <= i < |ls| && Filtered(ls, f)[k] == ls[i]
  {
    var skip := if Matches(f, ls[0]) then 1 else 0;
    if k >= skip {
      FilteredFrom(ls[1..], f, k - skip);
      var i :| 0 <= i < |ls[1..]| && Filtered(ls[1..], f)[k - skip] == ls[1..][i];
      assert Filtered(ls, f)[k] == ls[i + 1];
    }
  }

  lemma {:induction false} FilteredDistinct(ls: seq<Lead>, f: Filters)
    requires DistinctIds(ls)
    ensures DistinctIds(Filtered(ls, f))
  {
    if ls != [] {
      FilteredDistinct(ls[1..], f);
      forall k | 0 <= k < |Filtered(ls[1..], f)| ensures Filtered(ls[1..], f)[k].id != ls[0].id {
        FilteredFrom(ls[1..], f, k);
      }
    }
  }

  /** The filter keeps exactly the leads with the status and the source asked for, when they are. */
  lemma {:induction false} FilteredIff(ls: seq<Lead>, f: Filters, l: Lead)
    ensures l in Filtered(ls, f) <==>
      l in ls && (f.status == None || f.status == Some(l.status)) && (f.source == None || f.source == Some(l.source))
  {
    if ls == [] {
    } else {
      FilteredIff(ls[1..], f, l);
      assert ls == [ls[0]] + ls[1..];
    }
  }

  lemma {:induction false} FilteredIffAll(ls: seq<Lead>, f: Filters)
    ensures forall l :: l in Filtered(ls, f) <==>
      l in ls && (f.status == None || f.status == Some(l.status)) && (f.source == None || f.source == Some(l.source))
  {
    forall l ensures l in Filtered(ls, f) <==>
      l in ls && (f.status == None || f.status == Some(l.status)) && (f.source == None || f.source == Some(l.source))
    {
      FilteredIff(ls, f, l);
    }
  }

  /** The first string goes on where the other ends, or has the greater character where they part. */
  predicate PartsAt(a: string, b: string, k: int) {
    0 <= k < |a| && k <= |b| && a[..k] == b[..k] && (k == |b| || a[k] > b[k])
  }

  lemma {:induction false} AbovePartsAt(a: string, b: string) returns (k: nat)
    requires Above(a, b)
    ensures PartsAt(a, b, k)
  {
    if b == [] || a[0] > b[0] {
      k := 0;
    } else {
      var at := AbovePartsAt(a[1..], b[1..]);
      k := at + 1;
      assert a[..k] == [a[0]] + a[1..][..at] && b[..k] == [b[0]] + b[1..][..at];
    }
  }

  lemma {:induction false} PartsAtAbove(a: string, b: string, k: nat)
    requires PartsAt(a, b, k)
    ensures Above(a, b)
  {
    if k > 0 {
      assert a[0] == a[..k][0] && b[0] == b[..k][0];
      assert a[1..][..k - 1] == a[..k][1..] && b[1..][..k - 1] == b[..k][1..];
      PartsAtAbove(a[1..], b[1..], k - 1);
    }
  }

  lemma AboveIff(a: string, b: string)
    ensures Above(a, b) <==> exists k :: PartsAt(a, b, k)
  {
    if Above(a, b) {
      var k := AbovePartsAt(a, b);
    }
    forall k | PartsAt(a, b, k) ensures Above(a, b) {
      PartsAtAbove(a, b, k);
    }
  }

  /** The order of the table is kept: newest first, and by descending id among leads of one time. */
  lemma {:induction false} FilteredOrdered(ls: seq<Lead>, f: Filters)
    requires Table(ls)
    ensures forall i, j :: 0 <= i < j < |Filtered(ls, f)| ==> Before(Filtered(ls, f)[i], Filtered(ls, f)[j])
  {
    if ls != [] {
      var rest := Filtered(ls[1..], f);
      FilteredOrdered(ls[1..], f);
      forall k | 0 <= k < |rest| ensures Before(ls[0], rest[k]) {
        FilteredFrom(ls[1..], f, k);
      }
      assert Filtered(ls, f) == rest || Filtered(ls, f) == [ls[0]] + rest;
    }
  }

  lemma OrderedMeans(ls: seq<Lead>, f: Filters)
    requires Table(ls)
    ensures
      var kept := Filtered(ls, f);
      forall i, j :: 0 <= i < j < |kept| ==>
        kept[i].createdAt > kept[j].createdAt
        || (kept[i].createdAt == kept[j].createdAt && exists k :: PartsAt(kept[i].id, kept[j].id, k))
  {
    var kept := Filtered(ls, f);
    FilteredOrdered(ls, f);
    forall i, j | 0 <= i < j < |kept| ensures
      kept[i].createdAt > kept[j].createdAt
      || (kept[i].createdAt == kept[j].createdAt && exists k :: PartsAt(kept[i].id, kept[j].id, k))
    {
      assert Before(kept[i], kept[j]);
      AboveIff(kept[i].id, kept[j].id);
    }
  }

  /** `seen` leads of `all` have been shown, and the page that showed the last of them said so. */
  ghost predicate UpTo(all: seq<Lead>, seen: seq<Lead>, page: Page) {
    && |seen| <= |all| && seen == all[..|seen|]
    && (page.nextCursor.Some? <==> |seen| < |all|)
    && (page.nextCursor.Some? ==> seen != [] && page.nextCursor.value == seen[|seen| - 1].id)
  }

  lemma FirstPage(table: seq<Lead>, f: Filters, limit: Option<int>)
    ensures UpTo(Filtered(table, f), GetPage(table, f, None, limit).leads, GetPage(table, f, None, limit))
  {
    PageIsPrefix(Filtered(table, f), PageSize(limit));
  }

  lemma PastSuffix(before: seq<Lead>, all: seq<Lead>, n: nat)
    requires DistinctIds(before + all) && 1 <= n <= |all|
    ensures Past(before + all, Some(all[n - 1].id)) == all[n..]
  {
    var i := |before| + n - 1;
    Cursor.PastAt(Ids(before + all), before + all, i);
    assert (before + all)[i] == all[n - 1] && (before + all)[i + 1..] == all[n..];
  }

  /** Newer leads in front of the table do not change what is past a cursor. */
  lemma PastSeen(arrived: seq<Lead>, first: seq<Lead>, f: Filters, n: nat)
    requires DistinctIds(arrived + first) && 1 <= n <= |Filtered(first, f)|
    ensures Past(Filtered(arrived + first, f), Some(Filtered(first, f)[n - 1].id)) == Filtered(first, f)[n..]
  {
    FilteredConcat(arrived, first, f);
    FilteredDistinct(arrived + first, f);
    PastSuffix(Filtered(arrived, f), Filtered(first, f), n);
  }

  lemma PageContinues(all: seq<Lead>, seen: seq<Lead>, take: nat)
    requires take >= 1 && |seen| < |all| && seen == all[..|seen|]
    ensures
      var next := PageOf(all[|seen|..], take);
      next.leads != [] && UpTo(all, seen + next.leads, next)
  {
    var left := all[|seen|..];
    PageIsPrefix(left, take);
    var leads := PageOf(left, take).leads;
    assert seen + left[..|leads|] == all[..|seen| + |leads|];
  }

  lemma NextPage(arrived: seq<Lead>, first: seq<Lead>, f: Filters, seen: seq<Lead>, page: Page, limit: Option<int>)
    requires DistinctIds(arrived + first) && UpTo(Filtered(first, f), seen, page) && page.nextCursor.Some?
    ensures
      var next := GetPage(arrived + first, f, page.nextCursor, limit);
      next.leads != [] && UpTo(Filtered(first, f), seen + next.leads, next)
  {
    var all := Filtered(first, f);
    PastSeen(arrived, first, f, |seen|);
    PageContinues(all, seen, PageSize(limit));
  }

  /** Any number of newer leads arrive in front of the table. */
  method Arrivals(table: seq<Lead>, ghost arrived: seq<Lead>, ghost first: seq<Lead>)
    returns (table': seq<Lead>, ghost arrived': seq<Lead>)
    requires Table(table) && table == arrived + first
    ensures Table(table') && table' == arrived' + first
  {
    table', arrived' := table, arrived;
    var newer: seq<Lead> := *;
    if Table(newer + table) {
      table', arrived' := newer + table, newer + arrived;
      assert newer + (arrived + first) == (newer + arrived) + first;
    }
  }

  /**
   Following `nextCursor` to the end. Between two fetches any number of newer leads may
   arrive, and each fetch may ask for another page size. The pages still concatenate to
   the filtered list of the first fetch: nothing skipped, nothing twice, in order.
   */
  method FollowCursor(first: seq<Lead>, f: Filters) returns (seen: seq<Lead>)
    requires Table(first)
    ensures seen == Filtered(first, f) && DistinctIds(seen)
    ensures forall l :: l in seen <==>
      l in first && (f.status == None || f.status == Some(l.status)) && (f.source == None || f.source == Some(l.source))
    ensures forall i, j :: 0 <= i < j < |seen| ==>
      seen[i].createdAt > seen[j].createdAt
      || (seen[i].createdAt == seen[j].createdAt && exists k :: PartsAt(seen[i].id, seen[j].id, k))
  {
    FilteredDistinct(first, f);
    FilteredIffAll(first, f);
    OrderedMeans(first, f);
    var table := first;
    ghost var arrived: seq<Lead> := [];
    var limit: Option<int> := *;
    var page := GetPage(table, f, None, limit);
    FirstPage(table, f, limit);
    seen := page.leads;
    assert table == arrived + first;
    while page.nextCursor.Some?
      invariant Table(table) && table == arrived + first && UpTo(Filtered(first, f), seen, page)
      decreases |Filtered(first, f)| - |seen|
    {
      table, arrived := Arrivals(table, arrived, first);
      limit := *;
      NextPage(arrived, first, f, seen, page, limit);
      page := GetPage(table, f, page.nextCursor, limit);
      seen := seen + page.leads;
    }
  }
}
