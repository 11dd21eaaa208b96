/** The document store, seen through the operations the handlers use:
    counting and finding documents that match a filter, sorting and windowing
    the result, and finding one document by id. The collection is a sequence
    of documents. */
module Store {
  import opened Wrappers
  import opened ObjectIds
  import opened Products
  import opened Filters
  import opened Ordering
  import opened Seqs
  import opened Paging

  /** The documents that match `f`, in collection order. */
  function Selected(docs: seq<Document>, f: Filter): (r: seq<Document>) {
    Keep(docs, d => Matches(f, d))
  }

  /** `count_documents(f)`. */
  function CountDocuments(docs: seq<Document>, f: Filter): (n: nat)
    ensures n <= |docs|
    ensures n == 0 <==> forall d :: d in docs ==> !Matches(f, d)
  {
    var s := Selected(docs, f);
    assert s != [] ==> s[0] in s;
    |s|
  }

  /** `find(f).sort(field, dir).skip(skip).limit(limit)`: the window of some
      ordering of the matching documents. Which ordering is used among equal
      keys is the store's business; the contract only says it is sorted and
      holds each matching document as often as the collection does. */
  function Find(docs: seq<Document>, f: Filter, field: SortField, dir: SortDirection, skip: nat, limit: nat): (cursor: seq<Document>)
    requires limit >= 1
    ensures exists ordered :: Ordered(ordered, field, dir) && multiset(ordered) == multiset(Selected(docs, f))
                              && cursor == Window(ordered, skip, limit)
  {
    var ordered := SortDocs(Selected(docs, f), field, dir);
    SortDocsCorrect(Selected(docs, f), field, dir);
    Window(ordered, skip, limit)
  }

  /** `find_one({"_id": id})`: the first document with that id, if any. */
  function FindOne(docs: seq<Document>, id: ObjectId): (r: Option<Document>)
    ensures r.Some? ==> r.value in docs && r.value.id == id
    ensures r.None? <==> forall d :: d in docs ==> d.id != id
  {
    if docs == [] then None
    else if docs[0].id == id then Some(docs[0])
    else FindOne(docs[1..], id)
  }

  /** Ids are unique in a collection. */
  predicate UniqueIds(docs: seq<Document>) {
    forall i, j :: 0 <= i < j < |docs| ==> docs[i].id != docs[j].id
  }

  /** With unique ids, the lookup returns the one document that has the id. */
  lemma {:induction false} FindOneUnique(docs: seq<Document>, k: nat)
    requires UniqueIds(docs) && k < |docs|
    ensures FindOne(docs, docs[k].id) == Some(docs[k])
  {
    if k > 0 {
      assert docs[0].id != docs[k].id;
      assert UniqueIds(docs[1..]) by {
        forall i, j | 0 <= i < j < |docs| - 1 ensures docs[1..][i].id != docs[1..][j].id {
          assert docs[1..][i] == docs[i + 1] && docs[1..][j] == docs[j + 1];
        }
      }
      FindOneUnique(docs[1..], k - 1);
      assert docs[1..][k - 1] == docs[k];
    }
  }
}
