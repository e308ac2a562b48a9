/**
 Listings, the query language over them, and the baseline gate every public
 listing query is conjoined with (packages/search/propertyVisibility.ts).
 */
module PropertyVisibility {
  import opened Common

  datatype ListingStatus = Active | Pending | Sold | Withdrawn | Expired | ComingSoon

  datatype ListingSource = Mls | Manual | Zillow | RealtorCom

  datatype Listing = Listing(
    id: string,
    status: ListingStatus,
    source: ListingSource,
    mlsBoardId: Option<string>,
    idxDisplayable: bool,
    listPrice: Option<real>)

  /** A filter on a nullable number: `null`, or an object with optional `gte` and `lte` keys. */
  datatype NumberFilter = IsNull | Range(gte: Option<real>, lte: Option<real>)

  /** SQL meaning: a comparison with null selects nothing, and an object without keys selects everything. */
  predicate NumberMatches(f: NumberFilter, v: Option<real>) {
    match f
    case IsNull => v.None?
    case Range(gte, lte) =>
      && (gte.Some? ==> v.Some? && v.value >= gte.value)
      && (lte.Some? ==> v.Some? && v.value <= lte.value)
  }

  /** The keys a listing filter object may carry; an absent key constrains nothing. */
  datatype ListingKeys = ListingKeys(
    status: Option<ListingStatus>,
    idxDisplayable: Option<bool>,
    boardIn: Option<seq<string>>,
    sourceNot: Option<ListingSource>,
    listPrice: Option<NumberFilter>)

  const NO_KEYS := ListingKeys(None, None, None, None, None)

  /** Object spread `{ ...a, ...b }`: a key of `b` wins over the same key of `a`. */
  function Spread(a: ListingKeys, b: ListingKeys): ListingKeys {
    ListingKeys(
      if b.status.Some? then b.status else a.status,
      if b.idxDisplayable.Some? then b.idxDisplayable else a.idxDisplayable,
      if b.boardIn.Some? then b.boardIn else a.boardIn,
      if b.sourceNot.Some? then b.sourceNot else a.sourceNot,
      if b.listPrice.Some? then b.listPrice else a.listPrice)
  }

  datatype ListingWhere = Keys(keys: ListingKeys) | Both(left: ListingWhere, right: ListingWhere)

  predicate KeysMatch(k: ListingKeys, l: Listing) {
    && (k.status.Some? ==> l.status == k.status.value)
    && (k.idxDisplayable.Some? ==> l.idxDisplayable == k.idxDisplayable.value)
    && (k.boardIn.Some? ==> l.mlsBoardId.Some? && l.mlsBoardId.value in k.boardIn.value)
    && (k.sourceNot.Some? ==> l.source != k.sourceNot.value)
    && (k.listPrice.Some? ==> NumberMatches(k.listPrice.value, l.listPrice))
  }

  predicate ListingMatches(w: ListingWhere, l: Listing) {
    match w
    case Keys(k) => KeysMatch(k, l)
    case Both(a, b) => ListingMatches(a, l) && ListingMatches(b, l)
  }

  /** What the public may see at all; `mlsDisplay` is the environment switch. */
  predicate PubliclyVisible(l: Listing, mlsDisplay: bool) {
    l.status == Active && l.idxDisplayable && (mlsDisplay || l.source != Mls)
  }

  /**
   The caller's filter can only narrow the baseline: conjoining, rather than
   spreading, keeps every baseline key whatever keys the caller passes.
   */
  function BuildPublicListingWhere(additional: Option<ListingKeys>, mlsDisplay: bool): (w: ListingWhere)
    ensures forall l :: ListingMatches(w, l) <==>
      && l.status == Active && l.idxDisplayable && (mlsDisplay || l.source != Mls)
      && (additional.Some? ==> KeysMatch(additional.value, l))
  {
    var baseline := NO_KEYS.(
      status := Some(Active),
      idxDisplayable := Some(true),
      sourceNot := if mlsDisplay then None else Some(Mls));
    match additional
    case None => Keys(baseline)
    case Some(k) => Both(Keys(baseline), Keys(k))
  }
}
