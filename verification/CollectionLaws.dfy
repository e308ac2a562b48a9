/**
 What the collection compiler promises its callers: agreement with the reference
 evaluator, the exact predicates for which that fails, the law of manual
 overrides, and the gate no predicate or override can open.
 */
module CollectionLaws {
  import opened Common
  import opened PropertyVisibility
  import opened CollectionPredicate

  /** Some eligible listing, taken as the row's price, makes the evaluator answer true. */
  predicate EvaluatorAdmits(p: CollectionPredicate, scope: CollectionScope, prop: Property) {
    exists l :: l in prop.listings && EligibleListing(scope, l)
      && EvaluateCollectionPredicate(p, RowOf(prop, scope.accountId, l.listPrice))
  }

  /** The parser rejects a rule whose bounds cross. */
  predicate Ordered(rule: Option<NumericPredicate>) {
    rule.Some? && rule.value.min.Some? && rule.value.max.Some? ==> rule.value.min.value <= rule.value.max.value
  }

  predicate Parsed(p: CollectionPredicate) {
    && Ordered(p.price) && Ordered(p.beds) && Ordered(p.baths)
    && Ordered(p.sqft) && Ordered(p.lotSize) && Ordered(p.yearBuilt)
  }

  /** The tag groups alone rule every property out. */
  predicate Contradictory(p: CollectionPredicate) {
    || (exists t :: t in p.tagsAll && t in p.tagsExclude)
    || (p.tagsAny != [] && forall t :: t in p.tagsAny ==> t in p.tagsExclude)
  }

  /** A value accepted by a rule, null whenever null passes the compiled rule. */
  function ValueFor(rule: Option<NumericPredicate>): (v: Option<real>)
    ensures Ordered(rule) ==> MatchesNumeric(v, Drop(rule))
    ensures Unbounded(rule) ==> v.None?
  {
    if rule.None? || rule.value.nulls != Exclude || Unbounded(rule) then None
    else if rule.value.min.Some? then rule.value.min
    else rule.value.max
  }

  function PositiveTags(accountId: string, tags: seq<string>): (cs: seq<Classification>)
    ensures |cs| == |tags| && forall i :: 0 <= i < |tags| ==> cs[i] == Classification(accountId, tags[i], Positive)
  {
    seq(|tags|, i requires 0 <= i < |tags| => Classification(accountId, tags[i], Positive))
  }

  /** A property with one eligible listing that satisfies every group, null wherever the query lets null through. */
  ghost function Witness(p: CollectionPredicate, scope: CollectionScope): Property
    requires !Contradictory(p)
  {
    var anyTag := if p.tagsAny == [] then [] else (var t :| t in p.tagsAny && t !in p.tagsExclude; [t]);
    Property("witness",
      if p.propertyTypes == [] then None else Some(p.propertyTypes[0]),
      ValueFor(p.beds), ValueFor(p.baths), ValueFor(p.sqft), ValueFor(p.lotSize), ValueFor(p.yearBuilt),
      [Listing("l", Active, Manual,
               if scope.boardIds == [] then None else Some(scope.boardIds[0]), true, ValueFor(p.price))],
      if p.areaSlugs == [] then [] else [AreaMembership(scope.accountId, p.areaSlugs[0], Positive)],
      PositiveTags(scope.accountId, p.tagsAll + anyTag),
      [])
  }

  lemma WitnessMatchesGroups(p: CollectionPredicate, scope: CollectionScope)
    requires !Contradictory(p)
    ensures GroupsMatch(p, RowOf(Witness(p, scope), scope.accountId, None))
  {
    var w := Witness(p, scope);
    var row := RowOf(w, scope.accountId, None);
    forall t | t in p.tagsAll ensures t in row.tags {
      var i :| 0 <= i < |p.tagsAll| && p.tagsAll[i] == t;
      assert w.classifications[i] == Classification(scope.accountId, t, Positive);
    }
    if p.tagsAny != [] {
      var c := w.classifications[|p.tagsAll|];
      assert c in w.classifications && c.tagSlug in p.tagsAny && c.tagSlug in row.tags;
    }
    if p.areaSlugs != [] {
      assert w.areas[0] == AreaMembership(scope.accountId, p.areaSlugs[0], Positive);
      assert p.areaSlugs[0] in row.areaSlugs;
    }
  }

  lemma WitnessAdmitted(p: CollectionPredicate, scope: CollectionScope)
    requires Parsed(p) && !HasCollection(scope) && !Contradictory(p)
    ensures Admits(p, scope, Witness(p, scope))
  {
    var w := Witness(p, scope);
    var l := w.listings[0];
    WitnessMatchesGroups(p, scope);
    EvaluateSplits(Relaxed(p), w, scope.accountId, l.listPrice);
    assert l in w.listings && EligibleListing(scope, l);
  }

  lemma WitnessSeparates(p: CollectionPredicate, scope: CollectionScope)
    requires Parsed(p) && !HasCollection(scope) && !Contradictory(p) && !BoundedExcludes(p)
    ensures Admits(p, scope, Witness(p, scope)) && !EvaluatorAdmits(p, scope, Witness(p, scope))
  {
    var w := Witness(p, scope);
    WitnessAdmitted(p, scope);
    forall m | m in w.listings
      ensures !EvaluateCollectionPredicate(p, RowOf(w, scope.accountId, m.listPrice))
    {
      EvaluateSplits(p, w, scope.accountId, m.listPrice);
    }
  }

  lemma AdmitsAsEvaluatorIff(p: CollectionPredicate, scope: CollectionScope)
    requires Parsed(p) && !HasCollection(scope)
    ensures (forall prop :: Admits(p, scope, prop) <==> EvaluatorAdmits(p, scope, prop))
      <==> BoundedExcludes(p) || Contradictory(p)
  {
    if BoundedExcludes(p) {
      assert Relaxed(p) == p;
    } else if Contradictory(p) {
      forall prop ensures !Admits(p, scope, prop) && !EvaluatorAdmits(p, scope, prop) {
        ContradictoryAdmitsNothing(p, scope, prop);
      }
    } else {
      WitnessSeparates(p, scope);
    }
  }

  /** The query selects a property exactly when the evaluator accepts it with one of its eligible prices. */
  ghost predicate AgreesWithEvaluator(w: PropertyWhere, p: CollectionPredicate, scope: CollectionScope) {
    forall prop :: Holds(w, prop) <==> EvaluatorAdmits(p, scope, prop)
  }

  /**
   Compiler correctness with its exact boundary. Without a collection, the compiled
   query and the evaluator agree on every relational state if and only if every
   `exclude` rule carries a bound, or the tag groups rule everything out anyway.
   */
  lemma CompilerAgreesWithEvaluatorIff(p: CollectionPredicate, scope: CollectionScope, w: PropertyWhere)
    requires Parsed(p) && !HasCollection(scope) && Selects(w, p, scope)
    ensures AgreesWithEvaluator(w, p, scope) <==> BoundedExcludes(p) || Contradictory(p)
  {
    AdmitsAsEvaluatorIff(p, scope);
    if AgreesWithEvaluator(w, p, scope) {
      forall prop ensures Admits(p, scope, prop) <==> EvaluatorAdmits(p, scope, prop) {
        assert Holds(w, prop) <==> Admits(p, scope, prop);
      }
    }
  }

  lemma ContradictoryAdmitsNothing(p: CollectionPredicate, scope: CollectionScope, prop: Property)
    requires Contradictory(p) && !HasCollection(scope)
    ensures !Admits(p, scope, prop) && !EvaluatorAdmits(p, scope, prop)
  {
    forall row: PredicateRow
      ensures !EvaluateCollectionPredicate(p, row) && !EvaluateCollectionPredicate(Relaxed(p), row)
    {
    }
  }

  /** The concrete failure: `{ price: { nulls: 'exclude' } }` selects a listing without a price. */
  lemma UnboundedExcludeSelectsNullPrice(accountId: string)
    ensures
      var p := PriceOnly(Some(NumericPredicate(None, None, Exclude)));
      var scope := CollectionScope(accountId, [], None, true, false, true);
      var prop := Property("p", None, None, None, None, None, None,
                           [Listing("l", Active, Manual, None, true, None)], [], [], []);
      Admits(p, scope, prop) && !EvaluatorAdmits(p, scope, prop)
  {
    var scope := CollectionScope(accountId, [], None, true, false, true);
    var l := Listing("l", Active, Manual, None, true, None);
    assert l in [l] && EligibleListing(scope, l);
  }

  // ------------------------------------------- what a query selects, column by column

  /** The rule as it is compiled: null passes `include`, `only`, and an `exclude` without bounds. */
  predicate Accepts(rule: Option<NumericPredicate>, v: Option<real>) {
    match rule
    case None => true
    case Some(NumericPredicate(min, max, nulls)) =>
      match v
      case None => nulls != Exclude || (min.None? && max.None?)
      case Some(x) => nulls != Only && (min.Some? ==> min.value <= x) && (max.Some? ==> x <= max.value)
  }

  lemma AcceptsIsDrop(rule: Option<NumericPredicate>, v: Option<real>)
    ensures Accepts(rule, v) <==> MatchesNumeric(v, Drop(rule))
  {
  }

  /** The account's POSITIVE classification of the property with this tag. */
  predicate Tagged(prop: Property, accountId: string, tag: string) {
    Classification(accountId, tag, Positive) in prop.classifications
  }

  predicate LocatedIn(prop: Property, accountId: string, area: string) {
    AreaMembership(accountId, area, Positive) in prop.areas
  }

  predicate GroupsHold(p: CollectionPredicate, accountId: string, prop: Property) {
    && (p.areaSlugs != [] ==> exists a :: a in p.areaSlugs && LocatedIn(prop, accountId, a))
    && (p.tagsAny != [] ==> exists t :: t in p.tagsAny && Tagged(prop, accountId, t))
    && (forall t :: t in p.tagsAll ==> Tagged(prop, accountId, t))
    && (forall t :: t in p.tagsExclude ==> !Tagged(prop, accountId, t))
    && (p.propertyTypes != [] ==> prop.propertyType.Some? && prop.propertyType.value in p.propertyTypes)
  }

  predicate ScalarsHold(p: CollectionPredicate, prop: Property) {
    && Accepts(p.beds, prop.bedrooms) && Accepts(p.baths, prop.bathrooms) && Accepts(p.sqft, prop.squareFeet)
    && Accepts(p.lotSize, prop.lotSize) && Accepts(p.yearBuilt, prop.yearBuilt)
  }

  predicate MayList(scope: CollectionScope, l: Listing) {
    && l.status == Active && l.idxDisplayable
    && (scope.boardIds != [] ==> l.mlsBoardId.Some? && l.mlsBoardId.value in scope.boardIds)
    && (l.source == Mls ==> !scope.excludeMls && (scope.publicVisibility ==> scope.mlsDisplay))
  }

  lemma TagsRead(prop: Property, accountId: string, tag: string)
    ensures tag in RowOf(prop, accountId, None).tags <==> Tagged(prop, accountId, tag)
    ensures tag in RowOf(prop, accountId, None).areaSlugs <==> LocatedIn(prop, accountId, tag)
  {
    var row := RowOf(prop, accountId, None);
    if tag in row.tags {
      var c :| c in prop.classifications && c.accountId == accountId && c.decision == Positive && c.tagSlug == tag;
      assert c == Classification(accountId, tag, Positive);
    }
    if tag in row.areaSlugs {
      var m :| m in prop.areas && m.accountId == accountId && m.decision == Positive && m.slug == tag;
      assert m == AreaMembership(accountId, tag, Positive);
    }
  }

  lemma GroupsMean(p: CollectionPredicate, accountId: string, prop: Property)
    ensures GroupsHold(p, accountId, prop) <==> GroupsMatch(p, RowOf(prop, accountId, None))
  {
    forall tag ensures
      && (tag in RowOf(prop, accountId, None).tags <==> Tagged(prop, accountId, tag))
      && (tag in RowOf(prop, accountId, None).areaSlugs <==> LocatedIn(prop, accountId, tag))
    {
      TagsRead(prop, accountId, tag);
    }
  }

  lemma NonPriceMeans(p: CollectionPredicate, accountId: string, prop: Property)
    ensures NonPriceMatch(Relaxed(p), accountId, prop) <==> GroupsHold(p, accountId, prop) && ScalarsHold(p, prop)
  {
    EvaluateSplits(Relaxed(p), prop, accountId, None);
    GroupsMean(Relaxed(p), accountId, prop);
    AcceptsIsDrop(p.beds, prop.bedrooms);
    AcceptsIsDrop(p.baths, prop.bathrooms);
    AcceptsIsDrop(p.sqft, prop.squareFeet);
    AcceptsIsDrop(p.lotSize, prop.lotSize);
    AcceptsIsDrop(p.yearBuilt, prop.yearBuilt);
  }

  lemma AdmitsMeans(p: CollectionPredicate, scope: CollectionScope, prop: Property)
    requires !HasCollection(scope)
    ensures Admits(p, scope, prop) <==>
      && (exists l :: l in prop.listings && MayList(scope, l) && Accepts(p.price, l.listPrice))
      && GroupsHold(p, scope.accountId, prop) && ScalarsHold(p, prop)
  {
    AdmitsUnscoped(p, scope, prop);
    NonPriceMeans(p, scope.accountId, prop);
    forall l: Listing ensures Accepts(p.price, l.listPrice) <==> MatchesNumeric(l.listPrice, Drop(p.price)) {
      AcceptsIsDrop(p.price, l.listPrice);
    }
    assert forall l :: MayList(scope, l) <==> EligibleListing(scope, l);
  }

  /**
   What a query compiled without a collection selects, on the columns of the property and the
   rows related to it. With `OverrideLaw` this says what every compiled query selects.
   */
  lemma QueryMeans(w: PropertyWhere, p: CollectionPredicate, scope: CollectionScope, prop: Property)
    requires Selects(w, p, scope) && !HasCollection(scope)
    ensures Holds(w, prop) <==>
      && (exists l :: l in prop.listings && MayList(scope, l) && Accepts(p.price, l.listPrice))
      && GroupsHold(p, scope.accountId, prop) && ScalarsHold(p, prop)
  {
    AdmitsMeans(p, scope, prop);
  }

  // ------------------------------------------------------------------- overrides and gates

  /** The predicate that asks about the price alone. */
  function PriceOnly(price: Option<NumericPredicate>): CollectionPredicate {
    CollectionPredicate([], [], [], [], [], price, None, None, None, None, None)
  }

  /** What an override does to the properties admitted in a collection. */
  lemma OverriddenAdmits(p: CollectionPredicate, scope: CollectionScope, prop: Property)
    requires HasCollection(scope)
    ensures
      var id := scope.collectionId.value;
      var open := scope.(collectionId := None);
      Admits(p, scope, prop) <==>
        if Overridden(prop, id, ExcludeIt) then false
        else if Overridden(prop, id, IncludeIt) then Admits(PriceOnly(p.price), open, prop)
        else Admits(p, open, prop)
  {
    var open := scope.(collectionId := None);
    AdmitsUnscoped(p, open, prop);
    AdmitsUnscoped(PriceOnly(p.price), open, prop);
    assert forall l :: EligibleListing(open, l) <==> EligibleListing(scope, l);
  }

  /**
   The override law of compiled queries, case by case: EXCLUDE vetoes; INCLUDE leaves only
   eligibility and the price rule; no override changes nothing. The query of a collection is
   expressed through two queries compiled without one.
   */
  lemma OverrideLaw(p: CollectionPredicate, scope: CollectionScope,
                    scoped: PropertyWhere, open: PropertyWhere, priceOnly: PropertyWhere, prop: Property)
    requires HasCollection(scope) && Selects(scoped, p, scope)
    requires Selects(open, p, scope.(collectionId := None))
    requires Selects(priceOnly, PriceOnly(p.price), scope.(collectionId := None))
    ensures
      var id := scope.collectionId.value;
      Holds(scoped, prop) <==>
        if Overridden(prop, id, ExcludeIt) then false
        else if Overridden(prop, id, IncludeIt) then Holds(priceOnly, prop)
        else Holds(open, prop)
  {
    OverriddenAdmits(p, scope, prop);
  }

  /** Whatever the predicate and the overrides, an admitted property has an eligible listing at an admitted price. */
  lemma AdmittedHasListing(p: CollectionPredicate, scope: CollectionScope, prop: Property)
    requires Admits(p, scope, prop)
    ensures exists l :: l in prop.listings && EligibleListing(scope, l) && MatchesNumeric(l.listPrice, Drop(p.price))
  {
    if !HasCollection(scope) {
      AdmitsUnscoped(p, scope, prop);
    }
  }

  /** No predicate and no override makes a compiled query select a property without such a listing. */
  lemma GateSafety(p: CollectionPredicate, scope: CollectionScope, w: PropertyWhere, prop: Property)
    requires Selects(w, p, scope) && Holds(w, prop)
    ensures exists l :: l in prop.listings && EligibleListing(scope, l) && MatchesNumeric(l.listPrice, Drop(p.price))
  {
    AdmittedHasListing(p, scope, prop);
  }
}

/** The public landing page of an area or a collection (apps/api/src/routes/portalPublic.ts). */
module PortalPublic {
  import opened Common
  import opened PropertyVisibility
  import opened CollectionPredicate
  import opened CollectionLaws

  const PAGE := 24

  /** `listings[0]` of the included, filtered listings. */
  datatype LandingCard = LandingCard(property: Property, listing: Option<Listing>)

  datatype PortalSettings = PortalSettings(
    accountId: string, boardIds: seq<string>, idxApproved: bool, mlsDisplay: bool)

  function LandingScope(portal: PortalSettings, collectionId: Option<string>): CollectionScope {
    CollectionScope(portal.accountId, portal.boardIds, collectionId, true, !portal.idxApproved, portal.mlsDisplay)
  }

  /** The filtered include: the first listing, in the query's order, that passes the filter. */
  function FirstListing(ls: seq<Listing>, w: ListingWhere): (r: Option<Listing>)
    ensures r.None? <==> forall l :: l in ls ==> !ListingMatches(w, l)
    ensures r.Some? ==> r.value in ls && ListingMatches(w, r.value)
  {
    if ls == [] then None
    else if ListingMatches(w, ls[0]) then assert ls[0] in ls; Some(ls[0])
    else
      assert forall l :: l in ls <==> l == ls[0] || l in ls[1..];
      FirstListing(ls[1..], w)
  }

  lemma {:induction false} FirstListingAt(ls: seq<Listing>, w: ListingWhere) returns (k: nat)
    requires FirstListing(ls, w).Some?
    ensures k < |ls| && FirstListing(ls, w) == Some(ls[k])
    ensures forall j :: 0 <= j < k ==> !ListingMatches(w, ls[j])
  {
    if ListingMatches(w, ls[0]) {
      k := 0;
    } else {
      var at := FirstListingAt(ls[1..], w);
      k := at + 1;
      forall j | 0 <= j < k ensures !ListingMatches(w, ls[j]) {
        assert j > 0 ==> ls[j] == ls[1..][j - 1];
      }
    }
  }

  ghost function Selected(ps: seq<Property>, p: CollectionPredicate, scope: CollectionScope): seq<Property> {
    if ps == [] then []
    else if Admits(p, scope, ps[|ps| - 1]) then Selected(ps[..|ps| - 1], p, scope) + [ps[|ps| - 1]]
    else Selected(ps[..|ps| - 1], p, scope)
  }

  /** The page's own listing filter, spread from the portal configuration. */
  function LandingListingWhere(portal: PortalSettings): (w: ListingWhere)
    ensures forall l :: ListingMatches(w, l) <==> EligibleListing(LandingScope(portal, None), l)
    ensures forall l :: ListingMatches(w, l) <==>
      && l.status == Active && l.idxDisplayable && (portal.mlsDisplay || l.source != Mls)
      && (portal.boardIds != [] ==> l.mlsBoardId.Some? && l.mlsBoardId.value in portal.boardIds)
      && (!portal.idxApproved ==> l.source != Mls)
  {
    BuildPublicListingWhere(
      Some(Spread(
        NO_KEYS.(boardIn := if portal.boardIds != [] then Some(portal.boardIds) else None),
        NO_KEYS.(sourceNot := if portal.idxApproved then None else Some(Mls)))),
      portal.mlsDisplay)
  }

  /** What the portal may show, on the listing's columns and its own settings. */
  predicate MayShow(portal: PortalSettings, l: Listing) {
    && l.status == Active && l.idxDisplayable && (portal.mlsDisplay || l.source != Mls)
    && (portal.boardIds != [] ==> l.mlsBoardId.Some? && l.mlsBoardId.value in portal.boardIds)
    && (!portal.idxApproved ==> l.source != Mls)
  }

  /** The first of the listings that the portal may show. */
  predicate FirstShown(portal: PortalSettings, ls: seq<Listing>, k: int) {
    0 <= k < |ls| && MayShow(portal, ls[k]) && forall j :: 0 <= j < k ==> !MayShow(portal, ls[j])
  }

  ghost predicate ShowsFirst(portal: PortalSettings, card: LandingCard) {
    card.listing.Some? && exists k ::
      FirstShown(portal, card.property.listings, k) && card.property.listings[k] == card.listing.value
  }

  lemma CardsShowFirst(portal: PortalSettings, cards: seq<LandingCard>)
    requires forall i :: 0 <= i < |cards| ==>
      && cards[i].listing.Some?
      && cards[i].listing == FirstListing(cards[i].property.listings, LandingListingWhere(portal))
    ensures forall i :: 0 <= i < |cards| ==> ShowsFirst(portal, cards[i])
  {
    forall i | 0 <= i < |cards| ensures ShowsFirst(portal, cards[i]) {
      var k := FirstListingAt(cards[i].property.listings, LandingListingWhere(portal));
      assert FirstShown(portal, cards[i].property.listings, k);
    }
  }

  /**
   Which properties a landing page selects: they have a listing that may be shown at an
   accepted price, and, unless a collection includes or excludes them by hand, all groups
   and ranges of the predicate hold.
   */
  lemma PageSelects(p: CollectionPredicate, portal: PortalSettings, collectionId: Option<string>, prop: Property)
    ensures Admits(p, LandingScope(portal, collectionId), prop) <==>
      && (exists l :: l in prop.listings && MayShow(portal, l) && Accepts(p.price, l.listPrice))
      && (if collectionId == None || collectionId == Some("")
          then GroupsHold(p, portal.accountId, prop) && ScalarsHold(p, prop)
          else
            && ManualOverride(collectionId.value, ExcludeIt) !in prop.overrides
            && (ManualOverride(collectionId.value, IncludeIt) in prop.overrides
                || (GroupsHold(p, portal.accountId, prop) && ScalarsHold(p, prop))))
  {
    var scope := LandingScope(portal, collectionId);
    assert forall l :: MayList(scope, l) <==> MayShow(portal, l);
    if HasCollection(scope) {
      var open := LandingScope(portal, None);
      assert open == scope.(collectionId := None);
      assert forall l :: MayList(open, l) <==> MayShow(portal, l);
      OverriddenAdmits(p, scope, prop);
      AdmitsMeans(p, open, prop);
      AdmitsMeans(PriceOnly(p.price), open, prop);
    } else {
      AdmitsMeans(p, scope, prop);
    }
  }

  /** Which properties the landing page of an area selects, on the columns of the rows and the portal's settings. */
  lemma AreaPageSelects(area: string, portal: PortalSettings, prop: Property)
    ensures
      var none: Option<NumericPredicate> := None;
      var p := CollectionPredicate([area], [], [], [], [], none, none, none, none, none, none);
      Admits(p, LandingScope(portal, None), prop) <==>
      && AreaMembership(portal.accountId, area, Positive) in prop.areas
      && (exists l :: l in prop.listings
            && l.status == Active && l.idxDisplayable && (portal.mlsDisplay || l.source != Mls)
            && (portal.boardIds != [] ==> l.mlsBoardId.Some? && l.mlsBoardId.value in portal.boardIds)
            && (!portal.idxApproved ==> l.source != Mls))
  {
    var none: Option<NumericPredicate> := None;
    var p := CollectionPredicate([area], [], [], [], [], none, none, none, none, none, none);
    AdmitsMeans(p, LandingScope(portal, None), prop);
    assert area in [area];
    assert GroupsHold(p, portal.accountId, prop) <==> LocatedIn(prop, portal.accountId, area);
  }

  lemma LandingConjunctIsImplied(p: CollectionPredicate, portal: PortalSettings, collectionId: Option<string>,
                                 prop: Property)
    requires Admits(p, LandingScope(portal, collectionId), prop)
    ensures Holds(SomeListing(LandingListingWhere(portal)), prop)
  {
    AdmittedHasListing(p, LandingScope(portal, collectionId), prop);
  }

  /**
   The page holds the first 24 properties the compiled query selects: the extra
   listing conjunct removes none of them, and every card has an eligible listing.
   */
  method PublicLanding(ps: seq<Property>, p: CollectionPredicate, portal: PortalSettings, collectionId: Option<string>)
    returns (cards: seq<LandingCard>)
    ensures |cards| == Min(24, |Selected(ps, p, LandingScope(portal, collectionId))|)
    ensures forall i :: 0 <= i < |cards| ==>
      && cards[i].property == Selected(ps, p, LandingScope(portal, collectionId))[i]
      && cards[i].listing.Some? && cards[i].listing.value in cards[i].property.listings
      && EligibleListing(LandingScope(portal, collectionId), cards[i].listing.value)
    // what every card's listing is, on its own columns and the portal's
    ensures forall i :: 0 <= i < |cards| ==>
      var l := cards[i].listing.value;
      && l.status == Active && l.idxDisplayable && (portal.mlsDisplay || l.source != Mls)
      && (portal.boardIds != [] ==> l.mlsBoardId.Some? && l.mlsBoardId.value in portal.boardIds)
      && (!portal.idxApproved ==> l.source != Mls)
    // and it is the first such listing of its property
    ensures forall i :: 0 <= i < |cards| ==> ShowsFirst(portal, cards[i])
  {
    ghost var scope := LandingScope(portal, collectionId);
    var listingWhere := LandingListingWhere(portal);
    var compiled := CompileCollectionPredicate(p, LandingScope(portal, collectionId));
    var where := All([compiled, SomeListing(listingWhere)]);
    cards := [];
    for k := 0 to |ps|
      invariant |cards| == Min(PAGE, |Selected(ps[..k], p, scope)|)
      invariant forall i :: 0 <= i < |cards| ==>
        && cards[i].property == Selected(ps[..k], p, scope)[i]
        && cards[i].listing == FirstListing(cards[i].property.listings, listingWhere)
        && cards[i].listing.Some?
    {
      assert ps[..k + 1][..k] == ps[..k];
      AllOfTwo(compiled, SomeListing(listingWhere), ps[k]);
      if Admits(p, scope, ps[k]) {
        LandingConjunctIsImplied(p, portal, collectionId, ps[k]);
      }
      if Holds(where, ps[k]) && |cards| < PAGE {
        cards := cards + [LandingCard(ps[k], FirstListing(ps[k].listings, listingWhere))];
      }
    }
    assert ps[..|ps|] == ps;
    CardsShowFirst(portal, cards);
  }

  /** The listing a card shows, of a property that has an eligible one. */
  function Shown(portal: PortalSettings, prop: Property): (l: Listing)
    requires Holds(SomeListing(LandingListingWhere(portal)), prop)
    ensures l in prop.listings && EligibleListing(LandingScope(portal, None), l)
  {
    FirstListing(prop.listings, LandingListingWhere(portal)).value
  }

  /** Every eligible listing has the price shown. */
  predicate OnePrice(portal: PortalSettings, prop: Property)
    requires Holds(SomeListing(LandingListingWhere(portal)), prop)
  {
    forall l :: l in prop.listings && EligibleListing(LandingScope(portal, None), l) ==>
      l.listPrice == Shown(portal, prop).listPrice
  }

  /** The price shown satisfies the price rule of every predicate under which the page can show the property. */
  ghost predicate PriceAlwaysObeysRule(portal: PortalSettings, collectionId: Option<string>, prop: Property)
    requires Holds(SomeListing(LandingListingWhere(portal)), prop)
  {
    forall p :: Parsed(p) && Admits(p, LandingScope(portal, collectionId), prop) ==>
      MatchesNumeric(Shown(portal, prop).listPrice, Drop(p.price))
  }

  lemma ShownPriceObeysRule(p: CollectionPredicate, portal: PortalSettings, collectionId: Option<string>,
                            prop: Property)
    requires Admits(p, LandingScope(portal, collectionId), prop)
    requires Holds(SomeListing(LandingListingWhere(portal)), prop) && OnePrice(portal, prop)
    ensures MatchesNumeric(Shown(portal, prop).listPrice, Drop(p.price))
  {
    AdmittedHasListing(p, LandingScope(portal, collectionId), prop);
  }

  /** The rule that only this price satisfies. */
  function Exactly(price: Option<real>): (rule: NumericPredicate)
    ensures forall v :: MatchesNumeric(v, Drop(Some(rule))) <==> v == price
    ensures Ordered(Some(rule))
  {
    if price.None? then NumericPredicate(None, None, Only) else NumericPredicate(price, price, Exclude)
  }

  /** A rule satisfied by one eligible listing's price is enough to be admitted, unless the collection vetoes it. */
  lemma PriceAloneAdmits(rule: NumericPredicate, scope: CollectionScope, prop: Property, l: Listing)
    requires l in prop.listings && EligibleListing(scope, l) && MatchesNumeric(l.listPrice, Drop(Some(rule)))
    requires !(HasCollection(scope) && Overridden(prop, scope.collectionId.value, ExcludeIt))
    ensures Admits(PriceOnly(Some(rule)), scope, prop)
  {
    var p := PriceOnly(Some(rule));
    EvaluateSplits(Relaxed(p), prop, scope.accountId, l.listPrice);
    if !HasCollection(scope) {
      AdmitsUnscoped(p, scope, prop);
    }
  }

  /**
   The price shown is the newest eligible listing's, not that of the listing that matched. It
   obeys the price rule of every predicate if and only if all eligible listings have one
   price (or the collection excludes the property, so that no predicate shows it).
   */
  lemma ShownPriceObeysRuleIff(portal: PortalSettings, collectionId: Option<string>, prop: Property)
    requires Holds(SomeListing(LandingListingWhere(portal)), prop)
    ensures
      var scope := LandingScope(portal, collectionId);
      PriceAlwaysObeysRule(portal, collectionId, prop) <==>
        OnePrice(portal, prop) || (HasCollection(scope) && Overridden(prop, scope.collectionId.value, ExcludeIt))
  {
    var scope := LandingScope(portal, collectionId);
    if OnePrice(portal, prop) {
      forall p | Admits(p, scope, prop) ensures MatchesNumeric(Shown(portal, prop).listPrice, Drop(p.price)) {
        ShownPriceObeysRule(p, portal, collectionId, prop);
      }
    } else if !(HasCollection(scope) && Overridden(prop, scope.collectionId.value, ExcludeIt)) {
      var l :| l in prop.listings && EligibleListing(LandingScope(portal, None), l)
        && l.listPrice != Shown(portal, prop).listPrice;
      var p := PriceOnly(Some(Exactly(l.listPrice)));
      PriceAloneAdmits(Exactly(l.listPrice), scope, prop, l);
      assert Parsed(p) && !MatchesNumeric(Shown(portal, prop).listPrice, Drop(p.price));
    }
  }

  /** The concrete case: a price cap of 100 shows a property at 500. */
  lemma ShownPriceMayMissTheRule(accountId: string)
    ensures
      var p := PriceOnly(Some(NumericPredicate(None, Some(100.0), Exclude)));
      var portal := PortalSettings(accountId, [], true, true);
      var newest := Listing("new", Active, Manual, None, true, Some(500.0));
      var cheap := Listing("old", Active, Manual, None, true, Some(90.0));
      var prop := Property("p", None, None, None, None, None, None, [newest, cheap], [], [], []);
      && Admits(p, LandingScope(portal, None), prop)
      && FirstListing(prop.listings, LandingListingWhere(portal)) == Some(newest)
      && !MatchesNumeric(newest.listPrice, p.price)
  {
    var portal := PortalSettings(accountId, [], true, true);
    var cheap := Listing("old", Active, Manual, None, true, Some(90.0));
    var newest := Listing("new", Active, Manual, None, true, Some(500.0));
    assert cheap in [newest, cheap] && EligibleListing(LandingScope(portal, None), cheap);
    assert EligibleListing(LandingScope(portal, None), newest);
  }
}
