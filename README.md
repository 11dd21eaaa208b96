# Product search API: a Dafny model

This project models the product search service in `main.py`. The service
answers two HTTP requests against a collection of product documents:

- `GET /products` takes the optional filters `q`, `category`, `brand`,
  `min_price` and `max_price`, plus a sort field, a sort direction, a page and
  a page size. It builds one conjunctive store filter from them. It counts the
  matching documents, fetches one sorted page of them, and returns
  `{total, page, limit, products}`.
- `GET /products/{product_id}` checks the id's syntax, looks the document up,
  and returns it, or answers 400 (malformed id) or 404 (no such document).

The document store is a sequence of `Document`s. The store operations the
handlers call are functions in module `Store`:

- `count_documents` is `CountDocuments`.
- `find(...).sort(...).skip(...).limit(...)` is `Find`.
- `find_one` is `FindOne`.

`Find` promises only that its result is the `[skip, skip + limit)` window of
some ordering of the matching documents. That ordering is sorted by the key
and is a permutation of the matches. So nothing proved about the handler
depends on how the store orders documents with equal keys. The model's own
implementation of that sort is a stable insertion sort.

Modules:

- `Filters` holds the filter datatype, its meaning (`Matches`), an independent
  statement of what a search should find (`Wanted`), and `BuildFilter`.
  `BuildFilter` is a method that fills the filter one entry at a time, as the
  handler fills its dictionary.
- `Ordering` holds sort fields, directions, lexicographic string order and
  the store's sort.
- `Paging` holds the skip arithmetic and windows.
- `ObjectIds` holds 12-byte identifiers and their hexadecimal text form.
- `Products` holds the record shape and how a stored document is rendered in
  a response (its id becomes text).
- `Api` holds the two handlers. `GetProducts` is a method: it builds the
  filter, counts, fetches the page, and copies the page into the response in a
  loop, as the handler's `async for` does. `GetProductById` is a function.

Modelling choices worth knowing:

- A text parameter counts as given only when it is present and non-empty. The
  handler uses truthiness tests for `q`, `category` and `brand`. The price
  bounds use `is not None`, so a bound of `0` still constrains.
- An inverted price range is accepted and matches nothing.
- `sort_order` is validated as `-1 <= sort_order <= 1`, so `0` passes
  validation. The store accepts only `1` and `-1` as sort directions. The
  model therefore answers a valid request with `sort_order == 0` with a server
  error (500) from the store, not with a page.
- Parameter validation failures are the 422 answer of the web framework
  (`Unprocessable`).
- A rendered id is the small-letter hexadecimal text of the stored id. A
  lookup with capital hex digits succeeds and returns the id in small letters.

## Model

| member | source | states |
|---|---|---|
| `Filters.BuildFilter` | main.py:84-108 | Builds an or-group of exactly two case-insensitive clauses, one on the item name and one on the tags, exactly when `q` is non-empty. Adds a category or brand equality exactly when that parameter is non-empty. Adds a price range exactly when some bound is given; `$gte` is the minimum and `$lte` the maximum, each present exactly when given. No given parameter gives the empty filter. The filter matches exactly the documents `Wanted` describes. |
| `Filters.EmptyFilterMatchesAll` | main.py:84 | The empty filter matches every document. |
| `Filters.InvertedRangeMatchesNothing` | main.py:102-108 | A minimum above the maximum is not rejected; no product satisfies it. |
| `TextMatch.ContainsIgnoringCase` | main.py:89-90 | The "i" option means: the lowered pattern occurs in the lowered text. |
| `Ordering.SortFieldFor` | main.py:111 | The sort path is `item_name` exactly when `sort_by` is `"item_name"`; every other value sorts on `basic_metadata.price`. |
| `Ordering.DirectionFor` | main.py:77 | Direction 1 is ascending and -1 is descending; any other value, in particular 0, is no direction the store accepts. |
| `Ordering.SortDocsCorrect` | main.py:114 | The store's sort returns every document it is given, as often as given, in key order for the requested direction. |
| `Paging.Skip` | main.py:81 | The skip is a non-negative multiple of `limit`, equal to `page - 1` whole pages, and it is 0 exactly on page 1. |
| `Paging.Window` | main.py:114 | Skip-then-limit returns at most `limit` results, the ones at positions `skip`, `skip + 1`, …; it is empty when `skip` is at or past the end. |
| `Paging.PagesCover` | main.py:78-81 | For one fixed ordering of the results, pages 1 to n read in turn are its first n·limit results, with no gap and no repeat. |
| `Paging.PageOfPosition` | main.py:81 | The result at position k is on page k / limit + 1, at position k mod limit. |
| `Store.CountDocuments` | main.py:113 | The count is at most the collection size, and it is zero exactly when no document matches. |
| `Store.Find` | main.py:114 | The cursor is the `[skip, skip + limit)` window of an ordering of the matching documents that is sorted by the key and holds each match as often as the collection does. |
| `Store.FindOne` | main.py:63 | The lookup returns a stored document with the requested id, or nothing exactly when no stored document has that id. |
| `Store.FindOneUnique` | main.py:63-66 | When ids are unique, the lookup of a stored id returns that very document. |
| `Seqs.KeepMultiplicity` | main.py:113 | Filtering keeps each matching document as often as the collection holds it, and drops the others. |
| `Api.GetProducts` | main.py:69-126 | A request breaking a declared constraint is refused with 422. Sort direction 0 fails in the store (500). Otherwise the answer is a page. `total` is the number of matching products and depends on the filters only, not on page or limit. `page` and `limit` are echoed. `products` is the rendered `[(page-1)·limit, page·limit)` window of the matches sorted by the chosen field and direction. |
| `Api.PageShape` | main.py:113-126 | A page has min(limit, total - skip) products, none past the last page, and each is a rendered matching product. |
| `Api.MatchingIsBruteForce` | main.py:113 | A product is counted exactly when it is in the store and satisfies every given filter, once per occurrence in the store. |
| `Api.NothingGivenMatchesAll` | main.py:84-108 | With no filter given, the search pages through the whole collection. |
| `Api.GetProductById` | main.py:58-67 | A malformed id gives 400 "Invalid product ID format", whatever the store holds. A well-formed id that no document has gives 404 "Product not found". A well-formed id that some document has always gives an answer, and that answer is a stored document with that id, rendered, with its id the requested text in small letters. |
| `Api.LookupFindsStored` | main.py:60-66 | With unique ids, looking up the text of a stored id (in any letter case) returns that document. |
| `Products.Render` | main.py:117-119 | Rendering changes only the id. The rendered id is small-letter text that parses back to the stored id. |
| `Products.RenderAll` | main.py:116-119 | The response list has one rendered product per fetched document, in cursor order. |
| `ObjectIds.StrOfParse` | main.py:63-65 | The text of the identifier named by a valid id text is that text in small letters. |
| `ObjectIds.ParseOfStr` | main.py:65 | The text form of a 12-byte identifier is valid and names that identifier. |
| `ObjectIds.ParseInjective` | main.py:60-63 | Two valid id texts name the same document id exactly when they agree up to letter case. |

## Left out

- Application set-up, CORS middleware, the root greeting and server start-up (main.py:12-21, 54-56, 128-130): server glue.
- The database client, environment loading and collection handles (main.py:4, 10, 24-27): the store is a sequence parameter.
- The asynchronous cursor (main.py:116-119) is a plain sequence. Connection failures and timeouts are not modelled; the only store failure modelled is the refused sort direction 0.
- The pydantic models (main.py:29-52) are kept only as record shapes. The output key name `_id`, response-model filtering and free-form attribute values are not modelled; attribute values are text.
- Regular expressions: `q` is matched as a literal substring. This agrees with the code only for patterns without metacharacters. Case-insensitivity folds ASCII letters only.
- `ObjectId.is_valid` is modelled as exactly 24 hexadecimal digits. Its tolerance of whitespace inside the 24 characters is not modelled.
- Stored `_id` values that are not object ids are not modelled.
- The order of documents with equal sort keys: the store decides it, and the model's contracts do not fix it.
- Count and page are two separate reads of the collection. The model takes both from one unchanged store, so `total` and the page agree only when no write happens between them.
- Consistency across page requests: each request sorts afresh, so successive pages fit together without gaps or repeats only when sort keys do not tie. `Paging.PagesCover` is about one fixed ordering, not about separate requests.
- Prices are reals and are only compared. NaN and infinite floats are not modelled.
- Skips beyond the store's 64-bit range are not modelled.
- Parsing of query strings into integers and floats is not modelled; the request holds typed values after defaults are applied. `sort_by` is validated as exactly `"item_name"` or `"price"`.
- `my_agent/agent.py` configures a third-party agent and has no logic of its own. It is not part of this model.
- Facet counts, `total_pages` and a second search endpoint do not appear in `main.py` and are not modelled.
