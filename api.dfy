/** The two product endpoints: the paginated search and the lookup by id. */
module Api {
  import opened Wrappers
  import opened Ascii
  import opened ObjectIds
  import opened Products
  import opened Filters
  import opened Ordering
  import opened Seqs
  import opened Paging
  import opened Store

  /** The query parameters of a search, after their defaults are applied
      (`sort_by` "item_name", `sort_order` 1, `page` 1, `limit` 10). */
  datatype SearchRequest = SearchRequest(
    filter: FilterParams,
    sortBy: string,
    sortOrder: int,
    page: int,
    limit: int)

  datatype SearchResponse = SearchResponse(
    total: nat,
    page: int,
    limit: int,
    products: seq<Product>)

  /** 400, 404, 422 (parameter validation) and 500 (the store failed). */
  datatype HttpError =
    | BadRequest(detail: string)
    | NotFound(detail: string)
    | Unprocessable
    | ServerError

  const InvalidIdDetail := "Invalid product ID format"
  const NotFoundDetail := "Product not found"
  const MaxLimit := 100

  /** The constraints declared on the query parameters; a request that breaks
      one is refused before the handler runs. */
  predicate ValidQuery(req: SearchRequest) {
    && (req.sortBy == "item_name" || req.sortBy == "price")
    && -1 <= req.sortOrder <= 1
    && req.page >= 1
    && 1 <= req.limit <= MaxLimit
  }

  /** The products a search is meant to count and page through, in collection
      order. */
  function Matching(store: seq<Document>, p: FilterParams): (r: seq<Document>) {
    Keep(store, d => Wanted(p, d))
  }

  /** `page` is the window `[skip, skip + limit)` of some ordering of the
      matching documents by the sort key, rendered for the response. */
  ghost predicate IsPageOf(page: seq<Product>, matching: seq<Document>, field: SortField, dir: SortDirection, skip: nat, limit: nat) {
    exists ordered :: Ordered(ordered, field, dir) && multiset(ordered) == multiset(matching)
                      && page == RenderAll(Window(ordered, skip, limit))
  }

  /** `GET /products`. */
  method GetProducts(store: seq<Document>, req: SearchRequest) returns (r: Result<SearchResponse, HttpError>)
    ensures r == Err(Unprocessable) <==> !ValidQuery(req)
    ensures r == Err(ServerError) <==> ValidQuery(req) && req.sortOrder == 0
    ensures r.Ok? <==> ValidQuery(req) && req.sortOrder != 0
    ensures r.Ok? ==> r.value.total == |Matching(store, req.filter)|
    ensures r.Ok? ==> r.value.page == req.page && r.value.limit == req.limit
    ensures r.Ok? ==> (
      && ValidQuery(req)
      && IsPageOf(r.value.products, Matching(store, req.filter), SortFieldFor(req.sortBy),
                  if req.sortOrder == 1 then Ascending else Descending,
                  Skip(req.page, req.limit), req.limit))
  {
    if !ValidQuery(req) {
      return Err(Unprocessable);
    }
    var skip := Skip(req.page, req.limit);
    var f := BuildFilter(req.filter);
    var field := SortFieldFor(req.sortBy);
    var total := CountDocuments(store, f);
    var direction := DirectionFor(req.sortOrder);
    if direction.None? {
      // The store refuses a sort direction other than 1 and -1.
      return Err(ServerError);
    }
    var cursor := Find(store, f, field, direction.value, skip, req.limit);
    var products: seq<Product> := [];
    var i := 0;
    while i < |cursor|
      invariant 0 <= i <= |cursor|
      invariant products == RenderAll(cursor[..i])
    {
      products := products + [Render(cursor[i])];
      i := i + 1;
    }
    assert cursor[..i] == cursor;
    KeepSameCondition(store, d => Matches(f, d), d => Wanted(req.filter, d));
    r := Ok(SearchResponse(total, req.page, req.limit, products));
  }

  /** A page holds at most `limit` products, all of them matching; a page
      that starts past the last match is empty. */
  lemma PageShape(page: seq<Product>, matching: seq<Document>, field: SortField, dir: SortDirection, skip: nat, limit: nat)
    requires IsPageOf(page, matching, field, dir, skip, limit)
    ensures |page| == if skip >= |matching| then 0 else Min(limit, |matching| - skip)
    ensures forall k :: 0 <= k < |page| ==> page[k] in RenderAll(matching)
  {
    var ordered :| Ordered(ordered, field, dir) && multiset(ordered) == multiset(matching)
                   && page == RenderAll(Window(ordered, skip, limit));
    assert |ordered| == |multiset(ordered)| == |matching|;
    var w := Window(ordered, skip, limit);
    forall k | 0 <= k < |page| ensures page[k] in RenderAll(matching) {
      var doc := w[k];
      assert doc == ordered[skip + k] && page[k] == Render(doc);
      assert doc in multiset(ordered);
      assert doc in multiset(matching);
      var j :| 0 <= j < |matching| && matching[j] == doc;
      assert RenderAll(matching)[j] == page[k];
    }
  }

  /** A product is matching exactly when it is in the store and wanted, and it
      is kept as often as the store holds it. */
  lemma MatchingIsBruteForce(store: seq<Document>, p: FilterParams, d: Document)
    ensures d in Matching(store, p) <==> d in store && Wanted(p, d)
    ensures multiset(Matching(store, p))[d] == if Wanted(p, d) then multiset(store)[d] else 0
  {
    KeepMultiplicity(store, x => Wanted(p, x), d);
  }

  /** With no filter parameter given, every product matches. */
  lemma NothingGivenMatchesAll(store: seq<Document>, p: FilterParams)
    requires NoneGiven(p)
    ensures Matching(store, p) == store
  {
    KeepEverything(store, d => Wanted(p, d));
  }

  /** `GET /products/{product_id}`: the id's syntax is checked before the
      store is consulted, then found and not found are told apart. */
  function GetProductById(store: seq<Document>, productId: string): (r: Result<Product, HttpError>)
    ensures !IsValid(productId) ==> r == Err(BadRequest(InvalidIdDetail))
    ensures IsValid(productId) ==>
      (r == Err(NotFound(NotFoundDetail)) <==> forall d :: d in store ==> d.id != Parse(productId))
    ensures IsValid(productId) && (exists d :: d in store && d.id == Parse(productId)) ==> r.Ok?
    ensures r.Ok? ==> IsValid(productId) && r.value.id == Lower(productId)
    ensures r.Ok? ==> exists d :: d in store && d.id == Parse(productId) && r.value == Render(d)
  {
    if !IsValid(productId) then Err(BadRequest(InvalidIdDetail))
    else
      match FindOne(store, Parse(productId))
      case None => Err(NotFound(NotFoundDetail))
      case Some(d) => StrOfParse(productId); Ok(Render(d))
  }

  /** With unique ids, a lookup by the text form of a stored id, in any letter
      case, returns that document. */
  lemma LookupFindsStored(store: seq<Document>, k: nat, productId: string)
    requires UniqueIds(store) && k < |store|
    requires IsValid(productId) && Parse(productId) == store[k].id
    ensures GetProductById(store, productId) == Ok(Render(store[k]))
  {
    FindOneUnique(store, k);
  }
}
