/**
 The collection predicate compiler and its reference evaluator
 (packages/search/collectionPredicate.ts).

 The compiler turns a typed predicate into a query tree; `Holds` gives that tree
 its meaning over one property and the rows related to it. `Admits` says, without
 any query tree, which properties the query must select.
 */
module CollectionPredicate {
  import opened Common
  import opened PropertyVisibility

  // ---------------------------------------------------------------- predicates

  datatype NullSemantics = Exclude | Include | Only

  datatype NumericPredicate = NumericPredicate(min: Option<real>, max: Option<real>, nulls: NullSemantics)

  /** Absent and empty lists mean the same to the source (`?.length`), so both are the empty sequence. */
  datatype CollectionPredicate = CollectionPredicate(
    areaSlugs: seq<string>,
    tagsAny: seq<string>,
    tagsAll: seq<string>,
    tagsExclude: seq<string>,
    propertyTypes: seq<string>,
    price: Option<NumericPredicate>,
    beds: Option<NumericPredicate>,
    baths: Option<NumericPredicate>,
    sqft: Option<NumericPredicate>,
    lotSize: Option<NumericPredicate>,
    yearBuilt: Option<NumericPredicate>)

  datatype CollectionScope = CollectionScope(
    accountId: string,
    boardIds: seq<string>,
    collectionId: Option<string>,
    publicVisibility: bool,
    excludeMls: bool,
    mlsDisplay: bool)

  /** A missing or empty collection id is falsy. */
  predicate HasCollection(scope: CollectionScope) {
    scope.collectionId.Some? && scope.collectionId.value != ""
  }

  // ------------------------------------------------------------ relational state

  datatype Decision = Positive | Negative

  datatype OverrideDecision = IncludeIt | ExcludeIt

  datatype AreaMembership = AreaMembership(accountId: string, slug: string, decision: Decision)

  datatype Classification = Classification(accountId: string, tagSlug: string, decision: Decision)

  datatype ManualOverride = ManualOverride(collectionId: string, decision: OverrideDecision)

  /** A property row with the rows that reference it. */
  datatype Property = Property(
    id: string,
    propertyType: Option<string>,
    bedrooms: Option<real>,
    bathrooms: Option<real>,
    squareFeet: Option<real>,
    lotSize: Option<real>,
    yearBuilt: Option<real>,
    listings: seq<Listing>,
    areas: seq<AreaMembership>,
    classifications: seq<Classification>,
    overrides: seq<ManualOverride>)

  datatype ScalarField = Bedrooms | Bathrooms | SquareFeet | LotSize | YearBuilt

  function Scalar(prop: Property, field: ScalarField): Option<real> {
    match field
    case Bedrooms => prop.bedrooms
    case Bathrooms => prop.bathrooms
    case SquareFeet => prop.squareFeet
    case LotSize => prop.lotSize
    case YearBuilt => prop.yearBuilt
  }

  // ------------------------------------------------------------------ query tree

  datatype PropertyWhere =
    | All(conjuncts: seq<PropertyWhere>)
    | Any(disjuncts: seq<PropertyWhere>)
    | ScalarIs(field: ScalarField, filter: NumberFilter)
    | TypeIn(types: seq<string>)
    | SomeArea(accountId: string, decision: Decision, slugs: seq<string>)
    | SomeClassification(accountId: string, decision: Decision, tags: seq<string>)
    | NoClassification(accountId: string, decision: Decision, tags: seq<string>)
    | SomeListing(listing: ListingWhere)
    | SomeOverride(collectionId: string, override: OverrideDecision)
    | NoOverride(collectionId: string, override: OverrideDecision)

  predicate Classified(prop: Property, accountId: string, decision: Decision, tags: seq<string>) {
    exists c :: c in prop.classifications && c.accountId == accountId && c.decision == decision && c.tagSlug in tags
  }

  predicate Overridden(prop: Property, collectionId: string, decision: OverrideDecision) {
    ManualOverride(collectionId, decision) in prop.overrides
  }

  predicate Holds(w: PropertyWhere, prop: Property) {
    match w
    case All(ws) => forall i :: 0 <= i < |ws| ==> Holds(ws[i], prop)
    case Any(ws) => exists i :: 0 <= i < |ws| && Holds(ws[i], prop)
    case ScalarIs(field, filter) => NumberMatches(filter, Scalar(prop, field))
    case TypeIn(types) => prop.propertyType.Some? && prop.propertyType.value in types
    case SomeArea(accountId, decision, slugs) =>
      exists m :: m in prop.areas && m.accountId == accountId && m.decision == decision && m.slug in slugs
    case SomeClassification(accountId, decision, tags) => Classified(prop, accountId, decision, tags)
    case NoClassification(accountId, decision, tags) => !Classified(prop, accountId, decision, tags)
    case SomeListing(lw) => exists l :: l in prop.listings && ListingMatches(lw, l)
    case SomeOverride(collectionId, decision) => Overridden(prop, collectionId, decision)
    case NoOverride(collectionId, decision) => !Overridden(prop, collectionId, decision)
  }

  /** The conjunction of a list of conditions, as `{ AND: ws }` reads it. */
  ghost predicate AllHold(ws: seq<PropertyWhere>, prop: Property) {
    Holds(All(ws), prop)
  }

  lemma AllHoldPush(ws: seq<PropertyWhere>, w: PropertyWhere, prop: Property)
    ensures AllHold(ws + [w], prop) <==> AllHold(ws, prop) && Holds(w, prop)
  {
    var all := ws + [w];
    assert all[|ws|] == w && forall i :: 0 <= i < |ws| ==> all[i] == ws[i];
    if AllHold(all, prop) {
      forall i | 0 <= i < |ws| ensures Holds(ws[i], prop) { assert Holds(all[i], prop); }
      assert Holds(all[|ws|], prop);
    }
  }

  // ------------------------------------------------------------------- evaluator

  /** `PredicateFixtureProperty`; the two lists are only asked `includes`. */
  datatype PredicateRow = PredicateRow(
    areaSlugs: set<string>,
    tags: set<string>,
    propertyType: Option<string>,
    price: Option<real>,
    beds: Option<real>,
    baths: Option<real>,
    sqft: Option<real>,
    lotSize: Option<real>,
    yearBuilt: Option<real>)

  predicate MatchesNumeric(value: Option<real>, rule: Option<NumericPredicate>) {
    if rule.None? then true
    else if value.None? then rule.value.nulls == Include || rule.value.nulls == Only
    else if rule.value.nulls == Only then false
    else
      && (rule.value.min.None? || value.value >= rule.value.min.value)
      && (rule.value.max.None? || value.value <= rule.value.max.value)
  }

  predicate EvaluateCollectionPredicate(p: CollectionPredicate, row: PredicateRow) {
    && (|p.areaSlugs| == 0 || exists v :: v in p.areaSlugs && v in row.areaSlugs)
    && (|p.tagsAny| == 0 || exists v :: v in p.tagsAny && v in row.tags)
    && (|p.tagsAll| == 0 || forall v :: v in p.tagsAll ==> v in row.tags)
    && !(exists v :: v in p.tagsExclude && v in row.tags)
    && (|p.propertyTypes| == 0 || (row.propertyType.Some? && row.propertyType.value in p.propertyTypes))
    && MatchesNumeric(row.price, p.price) && MatchesNumeric(row.beds, p.beds) && MatchesNumeric(row.baths, p.baths)
    && MatchesNumeric(row.sqft, p.sqft) && MatchesNumeric(row.lotSize, p.lotSize)
    && MatchesNumeric(row.yearBuilt, p.yearBuilt)
  }

  /** The row of a property as one account sees it: its POSITIVE areas and tags, at a given price. */
  function RowOf(prop: Property, accountId: string, price: Option<real>): PredicateRow {
    PredicateRow(
      set m | m in prop.areas && m.accountId == accountId && m.decision == Positive :: m.slug,
      set c | c in prop.classifications && c.accountId == accountId && c.decision == Positive :: c.tagSlug,
      prop.propertyType, price, prop.bedrooms, prop.bathrooms, prop.squareFeet, prop.lotSize, prop.yearBuilt)
  }

  // --------------------------------------------------------- what a query must mean

  /** An `exclude` rule without a bound: it compiles to the empty filter, which selects nulls too. */
  predicate Unbounded(rule: Option<NumericPredicate>) {
    rule.Some? && rule.value.nulls == Exclude && rule.value.min.None? && rule.value.max.None?
  }

  predicate BoundedExcludes(p: CollectionPredicate) {
    && !Unbounded(p.price) && !Unbounded(p.beds) && !Unbounded(p.baths)
    && !Unbounded(p.sqft) && !Unbounded(p.lotSize) && !Unbounded(p.yearBuilt)
  }

  function Drop(rule: Option<NumericPredicate>): Option<NumericPredicate> {
    if Unbounded(rule) then None else rule
  }

  /** The predicate without its unbounded `exclude` rules; the same predicate when there are none. */
  function Relaxed(p: CollectionPredicate): CollectionPredicate {
    p.(price := Drop(p.price), beds := Drop(p.beds), baths := Drop(p.baths),
       sqft := Drop(p.sqft), lotSize := Drop(p.lotSize), yearBuilt := Drop(p.yearBuilt))
  }

  predicate EligibleListing(scope: CollectionScope, l: Listing) {
    && l.status == Active && l.idxDisplayable
    && (scope.boardIds != [] ==> l.mlsBoardId.Some? && l.mlsBoardId.value in scope.boardIds)
    && (scope.excludeMls ==> l.source != Mls)
    && (scope.publicVisibility && !scope.mlsDisplay ==> l.source != Mls)
  }

  /** Every group of the predicate but the price rule. */
  predicate NonPriceMatch(p: CollectionPredicate, accountId: string, prop: Property) {
    EvaluateCollectionPredicate(p.(price := None), RowOf(prop, accountId, None))
  }

  /** Which properties a compiled query selects, for every predicate and scope. */
  predicate Admits(p: CollectionPredicate, scope: CollectionScope, prop: Property) {
    var q := Relaxed(p);
    if !HasCollection(scope) then
      exists l :: l in prop.listings && EligibleListing(scope, l)
        && EvaluateCollectionPredicate(q, RowOf(prop, scope.accountId, l.listPrice))
    else
      && (exists l :: l in prop.listings && EligibleListing(scope, l) && MatchesNumeric(l.listPrice, q.price))
      && !Overridden(prop, scope.collectionId.value, ExcludeIt)
      && (Overridden(prop, scope.collectionId.value, IncludeIt) || NonPriceMatch(q, scope.accountId, prop))
  }

  // -------------------------------------------------------------------- compiler

  /** The filter object both a scalar rule and a price rule spread their bounds into. */
  function RangeOf(rule: NumericPredicate): NumberFilter {
    Range(rule.min, rule.max)
  }

  /** A compiled scalar rule selects exactly what the evaluator accepts once an unbounded `exclude` is dropped. */
  function ScalarNumber(field: ScalarField, rule: NumericPredicate): (w: PropertyWhere)
    ensures forall prop :: Holds(w, prop) <==> MatchesNumeric(Scalar(prop, field), Drop(Some(rule)))
  {
    if rule.nulls == Only then ScalarIs(field, IsNull)
    else if rule.nulls == Include then
      var ws := [ScalarIs(field, IsNull), ScalarIs(field, RangeOf(rule))];
      assert forall prop :: Holds(Any(ws), prop) <==> Holds(ws[0], prop) || Holds(ws[1], prop);
      Any(ws)
    else ScalarIs(field, RangeOf(rule))
  }

  method PushScalar(ws: seq<PropertyWhere>, field: ScalarField, rule: Option<NumericPredicate>)
    returns (r: seq<PropertyWhere>)
    ensures forall prop :: AllHold(r, prop) <==>
      AllHold(ws, prop) && MatchesNumeric(Scalar(prop, field), Drop(rule))
  {
    r := ws;
    if rule.Some? {
      var w := ScalarNumber(field, rule.value);
      forall prop ensures AllHold(ws + [w], prop) <==> AllHold(ws, prop) && Holds(w, prop) {
        AllHoldPush(ws, w, prop);
      }
      r := ws + [w];
    }
  }

  method Push(ws: seq<PropertyWhere>, guarded: bool, w: PropertyWhere) returns (r: seq<PropertyWhere>)
    ensures forall prop :: AllHold(r, prop) <==> AllHold(ws, prop) && (guarded ==> Holds(w, prop))
  {
    r := ws;
    if guarded {
      forall prop ensures AllHold(ws + [w], prop) <==> AllHold(ws, prop) && Holds(w, prop) {
        AllHoldPush(ws, w, prop);
      }
      r := ws + [w];
    }
  }

  /** The area, tag and type groups of the evaluator, read off the account's rows. */
  predicate GroupsMatch(p: CollectionPredicate, row: PredicateRow) {
    && (p.areaSlugs == [] || exists v :: v in p.areaSlugs && v in row.areaSlugs)
    && (p.tagsAny == [] || exists v :: v in p.tagsAny && v in row.tags)
    && (forall v :: v in p.tagsAll ==> v in row.tags)
    && (forall v :: v in p.tagsExclude ==> v !in row.tags)
    && (p.propertyTypes == [] || (row.propertyType.Some? && row.propertyType.value in p.propertyTypes))
  }

  lemma ClassifiedIsTagged(prop: Property, accountId: string, tags: seq<string>)
    ensures Classified(prop, accountId, Positive, tags) <==>
      exists v :: v in tags && v in RowOf(prop, accountId, None).tags
  {
    var row := RowOf(prop, accountId, None);
    if Classified(prop, accountId, Positive, tags) {
      var c :| c in prop.classifications && c.accountId == accountId && c.decision == Positive && c.tagSlug in tags;
      assert c.tagSlug in tags && c.tagSlug in row.tags;
    }
  }

  lemma InAreaIsListed(prop: Property, accountId: string, slugs: seq<string>)
    ensures Holds(SomeArea(accountId, Positive, slugs), prop) <==>
      exists v :: v in slugs && v in RowOf(prop, accountId, None).areaSlugs
  {
    var row := RowOf(prop, accountId, None);
    if Holds(SomeArea(accountId, Positive, slugs), prop) {
      var m :| m in prop.areas && m.accountId == accountId && m.decision == Positive && m.slug in slugs;
      assert m.slug in slugs && m.slug in row.areaSlugs;
    }
  }

  method CompileGroups(p: CollectionPredicate, accountId: string) returns (ws: seq<PropertyWhere>)
    ensures forall prop :: AllHold(ws, prop) <==> GroupsMatch(p, RowOf(prop, accountId, None))
  {
    forall prop: Property, tags: seq<string>
      ensures Classified(prop, accountId, Positive, tags) <==>
        exists v :: v in tags && v in RowOf(prop, accountId, None).tags
    {
      ClassifiedIsTagged(prop, accountId, tags);
    }
    forall prop ensures Holds(SomeArea(accountId, Positive, p.areaSlugs), prop) <==>
      exists v :: v in p.areaSlugs && v in RowOf(prop, accountId, None).areaSlugs
    {
      InAreaIsListed(prop, accountId, p.areaSlugs);
    }
    ws := [];
    assert forall prop :: AllHold(ws, prop);
    ws := Push(ws, p.areaSlugs != [], SomeArea(accountId, Positive, p.areaSlugs));
    ws := Push(ws, p.tagsAny != [], SomeClassification(accountId, Positive, p.tagsAny));
    ghost var before := ws;
    for k := 0 to |p.tagsAll|
      invariant forall prop :: AllHold(ws, prop) <==>
        AllHold(before, prop) && forall j :: 0 <= j < k ==> p.tagsAll[j] in RowOf(prop, accountId, None).tags
    {
      ws := Push(ws, true, SomeClassification(accountId, Positive, [p.tagsAll[k]]));
    }
    ws := Push(ws, p.tagsExclude != [], NoClassification(accountId, Positive, p.tagsExclude));
    ws := Push(ws, p.propertyTypes != [], TypeIn(p.propertyTypes));
  }

  lemma EvaluateSplits(p: CollectionPredicate, prop: Property, accountId: string, price: Option<real>)
    ensures EvaluateCollectionPredicate(p, RowOf(prop, accountId, price)) <==>
      MatchesNumeric(price, p.price) && NonPriceMatch(p, accountId, prop)
    ensures NonPriceMatch(p, accountId, prop) <==>
      && GroupsMatch(p, RowOf(prop, accountId, None))
      && MatchesNumeric(prop.bedrooms, p.beds) && MatchesNumeric(prop.bathrooms, p.baths)
      && MatchesNumeric(prop.squareFeet, p.sqft) && MatchesNumeric(prop.lotSize, p.lotSize)
      && MatchesNumeric(prop.yearBuilt, p.yearBuilt)
  {
  }

  method CompileNonPrice(p: CollectionPredicate, accountId: string) returns (ws: seq<PropertyWhere>)
    ensures forall prop :: AllHold(ws, prop) <==> NonPriceMatch(Relaxed(p), accountId, prop)
  {
    ws := CompileGroups(p, accountId);
    ws := PushScalar(ws, Bedrooms, p.beds);
    ws := PushScalar(ws, Bathrooms, p.baths);
    ws := PushScalar(ws, SquareFeet, p.sqft);
    ws := PushScalar(ws, LotSize, p.lotSize);
    ws := PushScalar(ws, YearBuilt, p.yearBuilt);
    forall prop ensures AllHold(ws, prop) <==> NonPriceMatch(Relaxed(p), accountId, prop) {
      EvaluateSplits(Relaxed(p), prop, accountId, None);
    }
  }

  function BaseListing(scope: CollectionScope, additional: ListingKeys): (w: ListingWhere)
    requires additional == NO_KEYS.(listPrice := additional.listPrice)
    ensures forall l :: ListingMatches(w, l) <==>
      EligibleListing(scope, l)
      && (additional.listPrice.Some? ==> NumberMatches(additional.listPrice.value, l.listPrice))
  {
    var board := NO_KEYS.(boardIn := if scope.boardIds != [] then Some(scope.boardIds) else None);
    var source := NO_KEYS.(sourceNot := if scope.excludeMls then Some(Mls) else None);
    var keys := Spread(Spread(board, source), additional);
    if scope.publicVisibility then BuildPublicListingWhere(Some(keys), scope.mlsDisplay)
    else Keys(Spread(NO_KEYS.(status := Some(Active), idxDisplayable := Some(true)), keys))
  }

  /** The price rule sits inside listing eligibility, so it is never subject to an INCLUDE override. */
  method CompileEligibility(p: CollectionPredicate, scope: CollectionScope) returns (w: PropertyWhere)
    ensures forall prop :: Holds(w, prop) <==>
      exists l :: l in prop.listings && EligibleListing(scope, l) && MatchesNumeric(l.listPrice, Drop(p.price))
  {
    var priceWhere := NO_KEYS;
    if p.price.Some? && p.price.value.nulls == Only {
      priceWhere := NO_KEYS.(listPrice := Some(IsNull));
    } else if p.price.Some? && p.price.value.nulls == Exclude {
      priceWhere := NO_KEYS.(listPrice := Some(RangeOf(p.price.value)));
    }
    if p.price.Some? && p.price.value.nulls == Include {
      var nullBranch := SomeListing(BaseListing(scope, NO_KEYS.(listPrice := Some(IsNull))));
      var rangeBranch := SomeListing(BaseListing(scope, NO_KEYS.(listPrice := Some(RangeOf(p.price.value)))));
      var branches := [nullBranch, rangeBranch];
      w := Any(branches);
      assert forall prop :: Holds(w, prop) <==> Holds(branches[0], prop) || Holds(branches[1], prop);
    } else {
      w := SomeListing(BaseListing(scope, priceWhere));
    }
  }

  lemma AllOfTwo(a: PropertyWhere, b: PropertyWhere, prop: Property)
    ensures Holds(All([a, b]), prop) <==> Holds(a, prop) && Holds(b, prop)
  {
    AllHoldPush([a], b, prop);
    AllHoldPush([], a, prop);
    assert [] + [a] == [a] && [a] + [b] == [a, b];
  }

  /** The query selects exactly the properties `Admits` names. */
  ghost predicate Selects(w: PropertyWhere, p: CollectionPredicate, scope: CollectionScope) {
    forall prop :: Holds(w, prop) <==> Admits(p, scope, prop)
  }

  /** For every predicate and scope, and all three shapes of the query. */
  method CompileCollectionPredicate(p: CollectionPredicate, scope: CollectionScope) returns (w: PropertyWhere)
    ensures Selects(w, p, scope)
  {
    var predicateAnd := CompileNonPrice(p, scope.accountId);
    var eligibility := CompileEligibility(p, scope);
    if !HasCollection(scope) {
      w := All([eligibility] + predicateAnd);
      forall prop ensures Holds(w, prop) <==> Admits(p, scope, prop) {
        AllHoldPrepend(eligibility, predicateAnd, prop);
        AdmitsUnscoped(p, scope, prop);
      }
      return;
    }
    var id := scope.collectionId.value;
    var excluded := NoOverride(id, ExcludeIt);
    if |predicateAnd| == 0 {
      w := All([eligibility, excluded]);
      forall prop ensures Holds(w, prop) <==> Admits(p, scope, prop) {
        AllOfTwo(eligibility, excluded, prop);
        assert AllHold(predicateAnd, prop);
      }
      return;
    }
    var included := SomeOverride(id, IncludeIt);
    var either := Any([included, All(predicateAnd)]);
    w := All([eligibility, excluded, either]);
    forall prop ensures Holds(w, prop) <==> Admits(p, scope, prop) {
      AllOfTwo(eligibility, excluded, prop);
      AllHoldPush([eligibility, excluded], either, prop);
      assert [eligibility, excluded] + [either] == [eligibility, excluded, either];
      assert Holds(either, prop) <==> Holds(either.disjuncts[0], prop) || Holds(either.disjuncts[1], prop);
    }
  }

  lemma AllHoldPrepend(w: PropertyWhere, ws: seq<PropertyWhere>, prop: Property)
    ensures AllHold([w] + ws, prop) <==> Holds(w, prop) && AllHold(ws, prop)
  {
    var all := [w] + ws;
    assert all[0] == w && forall i :: 0 <= i < |ws| ==> all[i + 1] == ws[i];
    if AllHold(all, prop) {
      forall i | 0 <= i < |ws| ensures Holds(ws[i], prop) { assert Holds(all[i + 1], prop); }
    }
  }

  lemma AdmitsUnscoped(p: CollectionPredicate, scope: CollectionScope, prop: Property)
    requires !HasCollection(scope)
    ensures Admits(p, scope, prop) <==>
      && (exists l :: l in prop.listings && EligibleListing(scope, l) && MatchesNumeric(l.listPrice, Drop(p.price)))
      && NonPriceMatch(Relaxed(p), scope.accountId, prop)
  {
    forall l: Listing ensures EvaluateCollectionPredicate(Relaxed(p), RowOf(prop, scope.accountId, l.listPrice)) <==>
      MatchesNumeric(l.listPrice, Drop(p.price)) && NonPriceMatch(Relaxed(p), scope.accountId, prop)
    {
      EvaluateSplits(Relaxed(p), prop, scope.accountId, l.listPrice);
    }
  }
}
