/**
 Creating, updating and deleting one listing, and the order in which index and database
 are written (apps/api/src/services/listingService.ts). Calls are serial; any statement may
 fail, and the process may die between any two of them.
 */
module ListingService {
  import opened Common
  import opened PropertyVisibility
  import opened SearchIndex

  /** `refreshed` tells whether every refresh that was due went through; its errors are only logged. */
  datatype Outcome = Done(refreshed: bool) | Thrown | Died

  /** The document was built from a listing row that is still there, unchanged, and public. */
  predicate Backed(db: Database, index: Index, id: string, mlsDisplay: bool)
    requires id in index
  {
    Eligible(db, id, index[id].listingId, mlsDisplay) && db.listings[index[id].listingId] == index[id].listing
  }

  /** Every document in the index is backed. */
  ghost predicate FailClosed(db: Database, index: Index, mlsDisplay: bool) {
    forall id :: id in index ==> Backed(db, index, id, mlsDisplay)
  }

  /** An id in agreement is fail-closed. */
  lemma AgreementIsFailClosed(db: Database, index: Index, mlsDisplay: bool)
    requires forall id :: Agrees(db, index, id, mlsDisplay)
    ensures FailClosed(db, index, mlsDisplay)
  {
    forall id | id in index ensures Backed(db, index, id, mlsDisplay) {
      assert Agrees(db, index, id, mlsDisplay);
    }
  }

  // ------------------------------------------------ writing the database with the index left alone

  /** No document in the index was built from this listing. */
  ghost predicate Unindexed(index: Index, lid: string) {
    forall id :: id in index ==> index[id].listingId != lid
  }

  /**
   The order matters. With the index left alone, writing a listing row keeps the index
   fail-closed if and only if the row stays the same or no document was built from it.
   */
  lemma WriteKeepsFailClosedIff(db: Database, index: Index, lid: string, row: ListingRow, mlsDisplay: bool)
    requires FailClosed(db, index, mlsDisplay)
    ensures FailClosed(db.(listings := db.listings[lid := row]), index, mlsDisplay)
      <==> (lid in db.listings && db.listings[lid] == row) || Unindexed(index, lid)
  {
    var after := db.(listings := db.listings[lid := row]);
    if lid in db.listings && db.listings[lid] == row {
      assert after.listings == db.listings;
    } else if Unindexed(index, lid) {
      forall id | id in index ensures Backed(after, index, id, mlsDisplay) {
        assert Backed(db, index, id, mlsDisplay);
      }
    } else {
      var id :| id in index && index[id].listingId == lid;
      assert Backed(db, index, id, mlsDisplay);
      assert !Backed(after, index, id, mlsDisplay);
    }
  }

  /** And deleting one does if and only if no document was built from it. */
  lemma DeleteKeepsFailClosedIff(db: Database, index: Index, lid: string, mlsDisplay: bool)
    requires FailClosed(db, index, mlsDisplay)
    ensures FailClosed(db.(listings := db.listings - {lid}), index, mlsDisplay) <==> Unindexed(index, lid)
  {
    var after := db.(listings := db.listings - {lid});
    if Unindexed(index, lid) {
      forall id | id in index ensures Backed(after, index, id, mlsDisplay) {
        assert Backed(db, index, id, mlsDisplay);
      }
    } else {
      var id :| id in index && index[id].listingId == lid;
      assert !Backed(after, index, id, mlsDisplay);
    }
  }

  /** The concrete case: a listing is sold, and its document stays as it was. */
  lemma DatabaseFirstIsNotFailClosed(id: string, lid: string, mlsDisplay: bool)
    ensures
      var active := ListingRow(id, None, 0, Listing(lid, Active, Manual, None, true, None));
      var sold := active.(listing := active.listing.(status := Sold));
      var db := Database(map[id := PropertyRow("")], map[lid := active]);
      var index := map[id := DocOf(db, id, lid)];
      && FailClosed(db, index, mlsDisplay)
      && !FailClosed(db.(listings := map[lid := sold]), index, mlsDisplay)
  {
    var active := ListingRow(id, None, 0, Listing(lid, Active, Manual, None, true, None));
    var sold := active.(listing := active.listing.(status := Sold));
    var db := Database(map[id := PropertyRow("")], map[lid := active]);
    var index := map[id := DocOf(db, id, lid)];
    assert db.listings[lid := sold] == map[lid := sold];
    assert id in index && index[id].listingId == lid;
    WriteKeepsFailClosedIff(db, index, lid, sold, mlsDisplay);
  }

  // ------------------------------------------------------------------- the service

  /** Best effort: reconcile the property's document if the index is configured, and swallow errors. */
  method RefreshPropertyDoc(sys: SearchSystem, configured: bool, id: string) returns (refreshed: bool)
    modifies sys`index
    ensures FailClosed(sys.db, old(sys.index), sys.mlsDisplay) ==> FailClosed(sys.db, sys.index, sys.mlsDisplay)
    ensures sys.index - {id} == old(sys.index) - {id}
    ensures refreshed ==> Agrees(sys.db, sys.index, id, sys.mlsDisplay)
    ensures !configured ==> !refreshed && sys.index == old(sys.index)
    ensures sys.calm ==> refreshed == configured
  {
    if !configured { return false; }
    var r := sys.ReconcilePropertyDocument(id);
    refreshed := r.Some?;
    forall other | other in sys.index && FailClosed(sys.db, old(sys.index), sys.mlsDisplay)
      ensures Backed(sys.db, sys.index, other, sys.mlsDisplay)
    {
      if other != id {
        assert other in sys.index - {id};
        assert other in old(sys.index) && old(sys.index)[other] == sys.index[other];
      }
    }
  }

  /** One database write; a write that reports an error may have happened all the same. */
  method WriteListings(sys: SearchSystem, listings: map<string, ListingRow>) returns (answered: bool)
    modifies sys`db
    ensures sys.db == old(sys.db).(listings := listings) || (!answered && sys.db == old(sys.db))
    ensures sys.calm ==> answered
  {
    var fails := sys.Fails();
    answered := !fails;
    var effect := *;
    if answered || effect {
      sys.db := sys.db.(listings := listings);
    }
  }

  /** Inserting a row cannot invalidate a document, so the index is refreshed afterwards. */
  method CreateListing(sys: SearchSystem, configured: bool, lid: string, row: ListingRow) returns (outcome: Outcome)
    requires configured ==> FailClosed(sys.db, sys.index, sys.mlsDisplay)
    modifies sys`db, sys`index
    ensures configured ==> FailClosed(sys.db, sys.index, sys.mlsDisplay)
    ensures old(FailClosed(sys.db, sys.index, sys.mlsDisplay)) ==> FailClosed(sys.db, sys.index, sys.mlsDisplay)
    ensures sys.db == old(sys.db)
      || (lid !in old(sys.db).listings && sys.db == old(sys.db).(listings := old(sys.db).listings[lid := row]))
    ensures outcome.Done? ==> sys.db.listings == old(sys.db).listings[lid := row]
    ensures outcome == Done(true) ==> Agrees(sys.db, sys.index, row.propertyId, sys.mlsDisplay)
    ensures sys.calm ==> outcome == if lid in old(sys.db).listings then Thrown else Done(configured)
  {
    if lid in sys.db.listings { return Thrown; }
    if FailClosed(sys.db, sys.index, sys.mlsDisplay) {
      WriteKeepsFailClosedIff(sys.db, sys.index, lid, row, sys.mlsDisplay);
    }
    var answered := WriteListings(sys, sys.db.listings[lid := row]);
    if !answered { return Thrown; }
    var dies := sys.Fails();
    if dies { return Died; }
    var refreshed := RefreshPropertyDoc(sys, configured, row.propertyId);
    outcome := Done(refreshed);
  }

  /** The document of the listing's property goes first; an index that cannot delete stops the call. */
  method WithdrawDocument(sys: SearchSystem, configured: bool, lid: string) returns (previous: Option<string>, ok: bool)
    requires configured ==> FailClosed(sys.db, sys.index, sys.mlsDisplay)
    modifies sys`index
    ensures configured ==> FailClosed(sys.db, sys.index, sys.mlsDisplay)
    ensures previous == if lid in sys.db.listings then Some(sys.db.listings[lid].propertyId) else None
    ensures ok && configured && previous.Some? ==> previous.value !in sys.index
    ensures !configured ==> ok && sys.index == old(sys.index)
    ensures sys.calm ==> ok
  {
    previous := if lid in sys.db.listings then Some(sys.db.listings[lid].propertyId) else None;
    ok := true;
    if previous.Some? && configured {
      ok := sys.DeleteDocument(previous.value);
    }
  }

  /** `row` is the listing after the update; its property may change. */
  method UpdateListing(sys: SearchSystem, configured: bool, lid: string, row: ListingRow) returns (outcome: Outcome)
    requires configured ==> FailClosed(sys.db, sys.index, sys.mlsDisplay)
    modifies sys`db, sys`index
    ensures configured ==> FailClosed(sys.db, sys.index, sys.mlsDisplay)
    ensures !configured ==> sys.index == old(sys.index)
    ensures !configured && old(FailClosed(sys.db, sys.index, sys.mlsDisplay)) ==>
      (FailClosed(sys.db, sys.index, sys.mlsDisplay) <==> sys.db == old(sys.db) || Unindexed(sys.index, lid))
    ensures sys.db == old(sys.db)
      || (lid in old(sys.db).listings && sys.db == old(sys.db).(listings := old(sys.db).listings[lid := row]))
    ensures outcome.Done? ==> lid in old(sys.db).listings && sys.db.listings == old(sys.db).listings[lid := row]
    ensures outcome == Done(true) ==> Agrees(sys.db, sys.index, row.propertyId, sys.mlsDisplay)
    ensures outcome == Done(true) ==> Agrees(sys.db, sys.index, old(sys.db).listings[lid].propertyId, sys.mlsDisplay)
    ensures sys.calm ==> outcome == if lid in old(sys.db).listings then Done(configured) else Thrown
  {
    var previous, ok := WithdrawDocument(sys, configured, lid);
    if !ok { return Thrown; }
    var dies := sys.Fails();
    if dies { return Died; }
    if lid !in sys.db.listings { return Thrown; }
    if FailClosed(sys.db, sys.index, sys.mlsDisplay) {
      WriteKeepsFailClosedIff(sys.db, sys.index, lid, row, sys.mlsDisplay);
    }
    var answered := WriteListings(sys, sys.db.listings[lid := row]);
    if !answered { return Thrown; }
    dies := sys.Fails();
    if dies { return Died; }
    var refreshed := RefreshPropertyDoc(sys, configured, previous.value);
    if row.propertyId != previous.value {
      ghost var before := sys.index;
      var also := RefreshPropertyDoc(sys, configured, row.propertyId);
      SameEntry(sys.db, before, sys.index, {row.propertyId}, previous.value, sys.mlsDisplay);
      refreshed := refreshed && also;
    }
    outcome := Done(refreshed);
  }

  method DeleteListing(sys: SearchSystem, configured: bool, lid: string) returns (outcome: Outcome)
    requires configured ==> FailClosed(sys.db, sys.index, sys.mlsDisplay)
    modifies sys`db, sys`index
    ensures configured ==> FailClosed(sys.db, sys.index, sys.mlsDisplay)
    ensures !configured ==> sys.index == old(sys.index)
    ensures !configured && old(FailClosed(sys.db, sys.index, sys.mlsDisplay)) ==>
      (FailClosed(sys.db, sys.index, sys.mlsDisplay) <==> sys.db == old(sys.db) || Unindexed(sys.index, lid))
    ensures sys.db == old(sys.db)
      || (lid in old(sys.db).listings && sys.db == old(sys.db).(listings := old(sys.db).listings - {lid}))
    ensures outcome.Done? ==> lid in old(sys.db).listings && sys.db.listings == old(sys.db).listings - {lid}
    ensures outcome == Done(true) ==> Agrees(sys.db, sys.index, old(sys.db).listings[lid].propertyId, sys.mlsDisplay)
    ensures sys.calm ==> outcome == if lid in old(sys.db).listings then Done(configured) else Thrown
  {
    var previous, ok := WithdrawDocument(sys, configured, lid);
    if !ok { return Thrown; }
    var dies := sys.Fails();
    if dies { return Died; }
    if lid !in sys.db.listings { return Thrown; }
    if FailClosed(sys.db, sys.index, sys.mlsDisplay) {
      DeleteKeepsFailClosedIff(sys.db, sys.index, lid, sys.mlsDisplay);
    }
    var answered := WriteListings(sys, sys.db.listings - {lid});
    if !answered { return Thrown; }
    dies := sys.Fails();
    if dies { return Died; }
    var refreshed := RefreshPropertyDoc(sys, configured, previous.value);
    outcome := Done(refreshed);
  }
}
