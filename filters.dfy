/** The search filter: what the optional query parameters turn into, and what
    it means for a document to match it. */
module Filters {
  import opened Wrappers
  import opened TextMatch
  import opened Products

  /** The two text fields a free-text query looks at. */
  datatype TextField = ItemName | Tags

  /** A regular-expression clause on one field; `ignoreCase` is the "i" option. */
  datatype RegexClause = RegexClause(field: TextField, pattern: string, ignoreCase: bool)

  /** The `$gte` / `$lte` bounds on the price, each present or not. */
  datatype PriceRange = PriceRange(gte: Option<real>, lte: Option<real>)

  /** A conjunctive filter. `anyOf` is an or-group of clauses; the other parts
      are equality tests and a price range. An absent part constrains nothing. */
  datatype Filter = Filter(
    anyOf: Option<seq<RegexClause>>,
    mainCategory: Option<string>,
    brand: Option<string>,
    price: Option<PriceRange>)

  const EmptyFilter := Filter(None, None, None, None)

  /** The filter parameters of a search request. */
  datatype FilterParams = FilterParams(
    q: Option<string>,
    category: Option<string>,
    brand: Option<string>,
    minPrice: Option<real>,
    maxPrice: Option<real>)

  /** A text parameter that counts as given: present and non-empty. */
  predicate Given(s: Option<string>) {
    s.Some? && s.value != ""
  }

  predicate NoneGiven(p: FilterParams) {
    !Given(p.q) && !Given(p.category) && !Given(p.brand) && p.minPrice.None? && p.maxPrice.None?
  }

  /** A clause on an array field matches when some element matches. Patterns
      are read literally (no metacharacters). */
  predicate ClauseMatches(c: RegexClause, d: Document) {
    match c.field
    case ItemName => Contains(d.itemName, c.pattern, c.ignoreCase)
    case Tags => exists t :: t in d.descriptiveMetadata.tags && Contains(t, c.pattern, c.ignoreCase)
  }

  predicate InRange(r: PriceRange, price: real) {
    (r.gte.Some? ==> r.gte.value <= price) && (r.lte.Some? ==> price <= r.lte.value)
  }

  predicate Matches(f: Filter, d: Document) {
    && (f.anyOf.Some? ==> exists c :: c in f.anyOf.value && ClauseMatches(c, d))
    && (f.mainCategory.Some? ==> d.basicMetadata.category.mainCategory == f.mainCategory.value)
    && (f.brand.Some? ==> d.basicMetadata.brand == f.brand.value)
    && (f.price.Some? ==> InRange(f.price.value, d.basicMetadata.price))
  }

  /** What a search is meant to find, stated on the parameters directly: every
      given parameter constrains the product, the others do not. */
  predicate Wanted(p: FilterParams, d: Document) {
    && (Given(p.q) ==>
          Contains(d.itemName, p.q.value, true) ||
          exists t :: t in d.descriptiveMetadata.tags && Contains(t, p.q.value, true))
    && (Given(p.category) ==> d.basicMetadata.category.mainCategory == p.category.value)
    && (Given(p.brand) ==> d.basicMetadata.brand == p.brand.value)
    && (p.minPrice.Some? ==> p.minPrice.value <= d.basicMetadata.price)
    && (p.maxPrice.Some? ==> d.basicMetadata.price <= p.maxPrice.value)
  }

  /** Builds the filter the way the handler fills its dictionary: start empty
      and add one entry per given parameter. */
  method BuildFilter(p: FilterParams) returns (f: Filter)
    ensures f.anyOf.Some? <==> Given(p.q)
    ensures Given(p.q) ==> f.anyOf == Some([RegexClause(ItemName, p.q.value, true), RegexClause(Tags, p.q.value, true)])
    ensures f.mainCategory.Some? <==> Given(p.category)
    ensures Given(p.category) ==> f.mainCategory == p.category
    ensures f.brand.Some? <==> Given(p.brand)
    ensures Given(p.brand) ==> f.brand == p.brand
    ensures f.price.Some? <==> p.minPrice.Some? || p.maxPrice.Some?
    ensures f.price.Some? ==> f.price.value.gte == p.minPrice && f.price.value.lte == p.maxPrice
    ensures NoneGiven(p) ==> f == EmptyFilter
    ensures forall d :: Matches(f, d) <==> Wanted(p, d)
  {
    f := EmptyFilter;
    if Given(p.q) {
      f := f.(anyOf := Some([RegexClause(ItemName, p.q.value, true), RegexClause(Tags, p.q.value, true)]));
    }
    if Given(p.category) {
      f := f.(mainCategory := p.category);
    }
    if Given(p.brand) {
      f := f.(brand := p.brand);
    }
    if p.minPrice.Some? || p.maxPrice.Some? {
      var range := PriceRange(None, None);
      if p.minPrice.Some? {
        range := range.(gte := p.minPrice);
      }
      if p.maxPrice.Some? {
        range := range.(lte := p.maxPrice);
      }
      f := f.(price := Some(range));
    }
    forall d ensures Matches(f, d) <==> Wanted(p, d) {
      if Given(p.q) {
        var clauses := f.anyOf.value;
        assert ClauseMatches(clauses[0], d) <==> Contains(d.itemName, p.q.value, true);
        assert (exists c :: c in clauses && ClauseMatches(c, d)) <==>
               ClauseMatches(clauses[0], d) || ClauseMatches(clauses[1], d);
      }
    }
  }

  /** The empty filter matches every document. */
  lemma EmptyFilterMatchesAll(d: Document)
    ensures Matches(EmptyFilter, d)
  {
  }

  /** An inverted price range is accepted and simply matches nothing. */
  lemma InvertedRangeMatchesNothing(p: FilterParams, d: Document)
    requires p.minPrice.Some? && p.maxPrice.Some? && p.maxPrice.value < p.minPrice.value
    ensures !Wanted(p, d)
  {
  }
}
