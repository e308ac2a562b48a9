/**
 The `properties` search index and the two ways it is brought into agreement with the
 database: one document at a time (packages/search/reconcilePropertyDocument.ts) and all at
 once (packages/search/syncService.ts, called from apps/api/src/routes/search.ts).
 */
module SearchIndex {
  import opened Common
  import opened PropertyVisibility

  /** A listing with the columns the newest-first order reads. */
  datatype ListingRow = ListingRow(propertyId: string, listDate: Option<int>, createdAt: int, listing: Listing)

  /** The document columns that come from the property itself. */
  datatype PropertyRow = PropertyRow(columns: string)

  datatype Database = Database(properties: map<string, PropertyRow>, listings: map<string, ListingRow>)

  /** `toPropertyDoc(property, listing)`, kept as the two rows it was built from. */
  datatype Doc = Doc(id: string, property: PropertyRow, listingId: string, listing: ListingRow)

  type Index = map<string, Doc>

  predicate Eligible(db: Database, id: string, lid: string, mlsDisplay: bool) {
    && id in db.properties && lid in db.listings
    && db.listings[lid].propertyId == id && PubliclyVisible(db.listings[lid].listing, mlsDisplay)
  }

  /** `listDate` descending, where the database puts null first, then `createdAt` descending. */
  predicate Newer(a: ListingRow, b: ListingRow) {
    || (a.listDate.None? && b.listDate.Some?)
    || (a.listDate.Some? && b.listDate.Some? && a.listDate.value > b.listDate.value)
    || (a.listDate == b.listDate && a.createdAt > b.createdAt)
  }

  /** A listing the database may return first; with equal dates there may be several. */
  ghost predicate Newest(db: Database, id: string, lid: string, mlsDisplay: bool) {
    && Eligible(db, id, lid, mlsDisplay)
    && forall m :: Eligible(db, id, m, mlsDisplay) ==> !Newer(db.listings[m], db.listings[lid])
  }

  ghost predicate Listed(db: Database, id: string, mlsDisplay: bool) {
    exists lid :: Eligible(db, id, lid, mlsDisplay)
  }

  function DocOf(db: Database, id: string, lid: string): Doc
    requires id in db.properties && lid in db.listings
  {
    Doc(id, db.properties[id], lid, db.listings[lid])
  }

  /** The index holds exactly what the database says about this id. */
  ghost predicate Agrees(db: Database, index: Index, id: string, mlsDisplay: bool) {
    if Listed(db, id, mlsDisplay) then
      id in index && exists lid :: Newest(db, id, lid, mlsDisplay) && index[id] == DocOf(db, id, lid)
    else id !in index
  }

  /** Passes the public filter and belongs to a property that is there, column by column. */
  predicate Shown(db: Database, id: string, lid: string, mlsDisplay: bool) {
    && id in db.properties && lid in db.listings && db.listings[lid].propertyId == id
    && db.listings[lid].listing.status == Active && db.listings[lid].listing.idxDisplayable
    && (db.listings[lid].listing.source == Mls ==> mlsDisplay)
  }

  /** No older than the other: undated, or dated no earlier and, at one date, created no earlier. */
  predicate NoOlder(a: ListingRow, b: ListingRow) {
    if a.listDate == b.listDate then a.createdAt >= b.createdAt
    else a.listDate.None? || (b.listDate.Some? && a.listDate.value >= b.listDate.value)
  }

  /**
   Agreement in the rows' own columns: a document exactly for a property with a listing that
   may be shown, built from the property and from a listing no older than any such listing.
   */
  lemma AgreesIff(db: Database, index: Index, id: string, mlsDisplay: bool)
    ensures Agrees(db, index, id, mlsDisplay) <==>
      && (id in index <==> exists lid :: Shown(db, id, lid, mlsDisplay))
      && (id in index ==>
            var d := index[id];
            && d.id == id && Shown(db, id, d.listingId, mlsDisplay)
            && d.property == db.properties[id] && d.listing == db.listings[d.listingId]
            && forall m :: Shown(db, id, m, mlsDisplay) ==> NoOlder(d.listing, db.listings[m]))
  {
    forall lid ensures Eligible(db, id, lid, mlsDisplay) <==> Shown(db, id, lid, mlsDisplay) {
    }
    forall a: ListingRow, b: ListingRow ensures Newer(b, a) <==> !NoOlder(a, b) {
    }
    if id in index {
      var d := index[id];
      if Newest(db, id, d.listingId, mlsDisplay) && d == DocOf(db, id, d.listingId) {
        assert Eligible(db, id, d.listingId, mlsDisplay);
      }
    }
  }

  /** Import in order: a later document with the same id wins. */
  function Overlay(index: Index, docs: seq<Doc>): Index {
    if docs == [] then index
    else Overlay(index, docs[..|docs| - 1])[docs[|docs| - 1].id := docs[|docs| - 1]]
  }

  function Ids(docs: seq<Doc>): set<string> {
    set d | d in docs :: d.id
  }

  lemma {:induction false} OverlayHas(index: Index, docs: seq<Doc>, id: string)
    ensures id in Overlay(index, docs) <==> id in index || id in Ids(docs)
    ensures id in Ids(docs) ==> Overlay(index, docs)[id] in docs && Overlay(index, docs)[id].id == id
    ensures id !in Ids(docs) && id in index ==> Overlay(index, docs)[id] == index[id]
  {
    if docs == [] {
    } else {
      var front, last := docs[..|docs| - 1], docs[|docs| - 1];
      OverlayHas(index, front, id);
      assert docs == front + [last];
      assert Ids(docs) == Ids(front) + {last.id};
    }
  }

  /** One line of the index export: blank, not JSON, without a string id, or an id. */
  datatype ExportLine = Blank | BadJson | NoId | Id(id: string)

  predicate Malformed(line: ExportLine) {
    line.BadJson? || line.NoId? || (line.Id? && line.id == "")
  }

  function ExportedIds(lines: seq<ExportLine>): set<string> {
    set l | l in lines && l.Id? :: l.id
  }

  function Existing(exact: bool, lines: seq<ExportLine>): set<string> {
    if exact then ExportedIds(lines) else {}
  }

  datatype ReindexError = BadExport | FetchFailed | BadDocument | ImportFailed | DeleteFailed | ReconcileFailed

  datatype Counts = Counts(desired: nat, upserted: nat, deleted: nat)

  datatype ReconcileResult = Upserted | Deleted

  class SearchSystem {
    var db: Database
    var index: Index
    const mlsDisplay: bool
    // Nothing goes wrong: no statement fails, and the process does not die.
    const calm: bool

    constructor (mlsDisplay: bool, calm: bool)
      ensures this.mlsDisplay == mlsDisplay && this.calm == calm && index == map[] && db == Database(map[], map[])
    {
      this.mlsDisplay, this.calm := mlsDisplay, calm;
      index, db := map[], Database(map[], map[]);
    }

    /** Whether the next statement fails. */
    method Fails() returns (fails: bool)
      ensures calm ==> !fails
    {
      fails := *;
      fails := fails && !calm;
    }

    // ----------------------------------------------------------- index statements

    /** A failed call may have taken effect all the same; a missing document is not an error. */
    method DeleteDocument(id: string) returns (ok: bool)
      modifies this`index
      ensures index == old(index) - {id} || (!ok && index == old(index))
      ensures calm ==> ok
    {
      var fails := Fails();
      ok := !fails;
      var effect := *;
      if ok || effect {
        index := index - {id};
      }
    }

    method UpsertDocument(doc: Doc) returns (ok: bool)
      modifies this`index
      ensures index == old(index)[doc.id := doc] || (!ok && index == old(index))
      ensures calm ==> ok
    {
      var fails := Fails();
      ok := !fails;
      var effect := *;
      if ok || effect {
        index := index[doc.id := doc];
      }
    }

    /** Every row is attempted, and the call answers with one result for each, unless the answer is cut short. */
    method ImportDocuments(docs: seq<Doc>) returns (results: seq<bool>)
      modifies this`index
      ensures index.Keys >= old(index).Keys
      ensures |results| == |docs| && (forall i :: 0 <= i < |results| ==> results[i]) ==>
        index == Overlay(old(index), docs)
      ensures calm ==> |results| == |docs| && forall i :: 0 <= i < |results| ==> results[i]
    {
      results := [];
      for k := 0 to |docs|
        invariant calm ==> forall i :: 0 <= i < |results| ==> results[i]
        invariant |results| == k && index.Keys >= old(index).Keys
        invariant (forall i :: 0 <= i < k ==> results[i]) ==> index == Overlay(old(index), docs[..k])
      {
        assert docs[..k + 1][..k] == docs[..k];
        ghost var before := results;
        var fails := Fails();
        var ok, effect := !fails, *;
        if ok || effect {
          index := index[docs[k].id := docs[k]];
        }
        results := results + [ok];
        assert forall i :: 0 <= i < k ==> before[i] == results[i];
        assert results[k] == ok;
      }
      assert docs[..|docs|] == docs;
      var cut := Fails();
      if cut && |results| > 0 {
        results := results[..|results| - 1];
      }
    }

    /** The first listing of the newest-first query, if any passes the public filter. */
    method FindNewest(id: string) returns (lid: Option<string>)
      ensures lid.None? <==> !Listed(db, id, mlsDisplay)
      ensures lid.Some? ==> Newest(db, id, lid.value, mlsDisplay)
    {
      var eligible := set l | l in db.listings && Eligible(db, id, l, mlsDisplay);
      if eligible == {} {
        assert forall l :: Eligible(db, id, l, mlsDisplay) ==> l in eligible;
        return None;
      }
      var best :| best in eligible;
      var rest := eligible - {best};
      while rest != {}
        invariant rest <= eligible && best in eligible
        invariant forall m :: m in eligible && m !in rest ==> !Newer(db.listings[m], db.listings[best])
        decreases |rest|
      {
        var next :| next in rest;
        if Newer(db.listings[next], db.listings[best]) {
          best := next;
        }
        rest := rest - {next};
      }
      assert forall m :: Eligible(db, id, m, mlsDisplay) ==> m in eligible;
      lid := Some(best);
    }

    // ---------------------------------------------------------- one document at a time

    /** Make one document match its newest publicly eligible listing. */
    method ReconcilePropertyDocument(id: string) returns (r: Option<ReconcileResult>)
      modifies this`index
      ensures index - {id} == old(index) - {id}
      ensures r.Some? ==> Agrees(db, index, id, mlsDisplay) && (r.value == Upserted <==> Listed(db, id, mlsDisplay))
      ensures calm ==> r.Some?
      ensures id in index && (id !in old(index) || index[id] != old(index)[id]) ==> Agrees(db, index, id, mlsDisplay)
    {
      var readFails := Fails();
      if readFails { return None; }
      var lid := FindNewest(id);
      if lid.None? {
        var ok := DeleteDocument(id);
        return if ok then Some(Deleted) else None;
      }
      var ok := UpsertDocument(DocOf(db, id, lid.value));
      return if ok then Some(Upserted) else None;
    }

    // --------------------------------------------------------------------- all at once

    /** Everything with an eligible listing, each document from its newest one. */
    method FetchDocuments() returns (docs: Option<seq<Doc>>)
      ensures docs.Some? ==> forall id :: id in Ids(docs.value) <==> Listed(db, id, mlsDisplay)
      ensures docs.Some? ==> forall d :: d in docs.value ==>
        Newest(db, d.id, d.listingId, mlsDisplay) && d == DocOf(db, d.id, d.listingId)
      ensures calm ==> docs.Some?
    {
      var fails := Fails();
      if fails { return None; }
      var fetched: seq<Doc> := [];
      var rest := db.properties.Keys;
      while rest != {}
        invariant rest <= db.properties.Keys
        invariant forall d :: d in fetched ==>
          Newest(db, d.id, d.listingId, mlsDisplay) && d == DocOf(db, d.id, d.listingId)
        invariant forall id :: id in db.properties && id !in rest && Listed(db, id, mlsDisplay) ==> id in Ids(fetched)
        decreases |rest|
      {
        var id :| id in rest;
        var lid := FindNewest(id);
        if lid.Some? {
          var doc := DocOf(db, id, lid.value);
          assert Ids(fetched + [doc]) == Ids(fetched) + {id};
          fetched := fetched + [doc];
        }
        rest := rest - {id};
      }
      forall id | id in Ids(fetched) ensures Listed(db, id, mlsDisplay) {
        var d :| d in fetched && d.id == id;
        assert Eligible(db, id, d.listingId, mlsDisplay);
      }
      docs := Some(fetched);
    }

    /** Everyone else: with `concurrent`, the database and the index become anything at all. */
    method Interfere(concurrent: bool)
      modifies this`db, this`index
      ensures !concurrent ==> db == old(db) && index == old(index)
    {
      if concurrent {
        db, index := *, *;
      }
    }

    /** Collect the ids of an export; refuse it if any line is malformed. */
    method ReadExport(lines: seq<ExportLine>) returns (ids: Option<set<string>>)
      ensures ids.None? <==> exists i :: 0 <= i < |lines| && lines[i] in {BadJson, NoId, Id("")}
      ensures ids.Some? ==> ids.value == ExportedIds(lines) && forall id :: id in ids.value <==> Id(id) in lines
    {
      var found: set<string> := {};
      for k := 0 to |lines|
        invariant forall i :: 0 <= i < k ==> !Malformed(lines[i])
        invariant found == ExportedIds(lines[..k])
      {
        assert lines[..k + 1] == lines[..k] + [lines[k]];
        if Malformed(lines[k]) {
          assert lines[k] in {BadJson, NoId, Id("")};
          return None;
        }
        if lines[k].Id? {
          found := found + {lines[k].id};
        }
      }
      assert lines[..|lines|] == lines;
      ids := Some(found);
    }

    method DeleteStale(stale: set<string>) returns (ok: bool)
      modifies this`index
      ensures ok ==> index == old(index) - stale
      ensures stale == {} || calm ==> ok
    {
      var rest := stale;
      while rest != {}
        invariant rest <= stale && index == old(index) - (stale - rest)
        decreases |rest|
      {
        var id :| id in rest;
        var deleted := DeleteDocument(id);
        if !deleted { return false; }
        rest := rest - {id};
      }
      return true;
    }

    /** Reconcile ids one by one while the database is quiet: each stays in agreement once it was dealt with. */
    method ReconcileAll(ids: set<string>) returns (ok: bool)
      modifies this`index
      ensures ok ==> forall id :: id in ids ==> Agrees(db, index, id, mlsDisplay)
      ensures calm ==> ok
      ensures forall id :: id !in ids ==>
        (Agrees(db, index, id, mlsDisplay) <==> Agrees(db, old(index), id, mlsDisplay))
    {
      var rest := ids;
      while rest != {}
        invariant rest <= ids
        invariant forall id :: id in ids && id !in rest ==> Agrees(db, index, id, mlsDisplay)
        invariant index - ids == old(index) - ids
        decreases |rest|
      {
        var id :| id in rest;
        ghost var before := index;
        var r := ReconcilePropertyDocument(id);
        forall other | other != id
          ensures Agrees(db, before, other, mlsDisplay) <==> Agrees(db, index, other, mlsDisplay)
        {
          SameEntry(db, before, index, {id}, other, mlsDisplay);
        }
        assert index - ids == (index - {id}) - ids && before - ids == (before - {id}) - ids;
        if r.None? {
          ok := false;
          forall other | other !in ids
            ensures Agrees(db, index, other, mlsDisplay) <==> Agrees(db, old(index), other, mlsDisplay)
          {
            SameEntry(db, old(index), index, ids, other, mlsDisplay);
          }
          return;
        }
        rest := rest - {id};
      }
      forall other | other !in ids
        ensures Agrees(db, index, other, mlsDisplay) <==> Agrees(db, old(index), other, mlsDisplay)
      {
        SameEntry(db, old(index), index, ids, other, mlsDisplay);
      }
      ok := true;
    }

    /**
     `reindexAll('properties', ...)`. `exported` is what the index answered to the export.
     With `concurrent`, others may change everything until the reconcile pass begins.
     */
    method ReindexAll(exact: bool, reconcile: bool, exported: seq<ExportLine>, concurrent: bool)
      returns (r: Result<Counts, ReindexError>, ghost fetched: seq<Doc>)
      requires exact && (forall l :: l in exported ==> !Malformed(l)) ==> ExportedIds(exported) == index.Keys
      modifies this`db, this`index
      // whatever changed earlier: every exported or fetched id ends in agreement
      ensures r.Ok? && reconcile ==>
        forall id :: id in Existing(exact, exported) + Ids(fetched) ==> Agrees(db, index, id, mlsDisplay)
      // with no concurrent change: the index is exactly the eligible documents
      ensures !concurrent ==> db == old(db)
      ensures r.Ok? && exact && !concurrent ==> forall id :: Agrees(db, index, id, mlsDisplay)
      // nothing is deleted unless every import row succeeded
      ensures r.Err? && r.error != DeleteFailed && r.error != ReconcileFailed && !concurrent ==>
        index.Keys >= old(index).Keys
      ensures r.Err? && (r.error == BadExport || r.error == FetchFailed || r.error == BadDocument) && !concurrent ==>
        index == old(index)
      ensures r.Err? && r.error == BadExport <==>
        exact && exists i :: 0 <= i < |exported| && exported[i] in {BadJson, NoId, Id("")}
      ensures !exact && !reconcile && !concurrent ==> index.Keys >= old(index).Keys
      // when no statement fails, the only errors are a malformed export and a document without an id
      ensures calm && r.Err? ==> r.error == BadExport || (r.error == BadDocument && "" in Ids(fetched))
      // the reported counts
      ensures r.Ok? ==> r.value == Counts(|Ids(fetched)|, |fetched|, |Existing(exact, exported) - Ids(fetched)|)
      ensures r.Ok? && !concurrent ==> forall id :: id in Ids(fetched) <==> Listed(db, id, mlsDisplay)
    {
      fetched := [];
      var existing: set<string> := {};
      if exact {
        var ids := ReadExport(exported);
        if ids.None? { return Err(BadExport), fetched; }
        existing := ids.value;
      }
      Interfere(concurrent);
      var answer := FetchDocuments();
      if answer.None? { return Err(FetchFailed), fetched; }
      var docs := answer.value;
      fetched := docs;
      var desired := Ids(docs);
      if "" in desired { return Err(BadDocument), fetched; }
      Interfere(concurrent);
      ghost var beforeImport := index;
      var results := ImportDocuments(docs);
      if |results| != |docs| { return Err(ImportFailed), fetched; }
      if exists i :: 0 <= i < |results| && !results[i] { return Err(ImportFailed), fetched; }
      Interfere(concurrent);
      var stale := if exact then existing - desired else {};
      var deleted := DeleteStale(stale);
      if !deleted { return Err(DeleteFailed), fetched; }
      if exact && !concurrent {
        forall id ensures Agrees(db, index, id, mlsDisplay) {
          ExactAfterDelete(db, beforeImport, docs, id, mlsDisplay);
        }
      }
      Interfere(concurrent);
      if reconcile {
        var reconciled := ReconcileAll(existing + desired);
        if !reconciled { return Err(ReconcileFailed), fetched; }
      }
      r := Ok(Counts(|desired|, |docs|, |stale|));
    }
  }

  lemma SameEntry(db: Database, a: Index, b: Index, keys: set<string>, id: string, mlsDisplay: bool)
    requires a - keys == b - keys && id !in keys
    ensures Agrees(db, a, id, mlsDisplay) <==> Agrees(db, b, id, mlsDisplay)
  {
    assert id in a <==> id in a - keys;
    assert id in b <==> id in b - keys;
  }

  /** Importing every eligible document and deleting every other exported id leaves exactly the eligible ones. */
  lemma ExactAfterDelete(db: Database, index: Index, docs: seq<Doc>, id: string, mlsDisplay: bool)
    requires forall i :: i in Ids(docs) <==> Listed(db, i, mlsDisplay)
    requires forall d :: d in docs ==> Newest(db, d.id, d.listingId, mlsDisplay) && d == DocOf(db, d.id, d.listingId)
    ensures Agrees(db, Overlay(index, docs) - (index.Keys - Ids(docs)), id, mlsDisplay)
  {
    OverlayHas(index, docs, id);
  }
}
