/** Sort specifications: the field a search sorts on, the direction, and the
    order they put documents in. */
module Ordering {
  import opened Wrappers
  import opened Products

  datatype SortField = ByItemName | ByPrice {
    /** The document path the store sorts on. */
    function Path(): (path: string) {
      match this
      case ByItemName => "item_name"
      case ByPrice => "basic_metadata.price"
    }
  }

  datatype SortDirection = Ascending | Descending

  /** `sort_by` names the item name, or anything else sorts by price. */
  function SortFieldFor(sortBy: string): (f: SortField)
    ensures f == ByItemName <==> sortBy == "item_name"
    ensures f.Path() == "item_name" <==> sortBy == "item_name"
  {
    if sortBy == "item_name" then ByItemName else ByPrice
  }

  /** The store accepts 1 (ascending) and -1 (descending) as directions and
      nothing else. */
  function DirectionFor(order: int): (d: Option<SortDirection>)
    ensures d == Some(Ascending) <==> order == 1
    ensures d == Some(Descending) <==> order == -1
    ensures d.None? <==> order != 1 && order != -1
  {
    if order == 1 then Some(Ascending) else if order == -1 then Some(Descending) else None
  }

  /** Lexicographic order on strings by code point, a prefix first. */
  predicate StrLe(a: string, b: string)
    decreases |a|
  {
    if a == [] then true
    else if b == [] then false
    else if a[0] != b[0] then a[0] < b[0]
    else StrLe(a[1..], b[1..])
  }

  lemma {:induction false} StrLeTotal(a: string, b: string)
    ensures StrLe(a, b) || StrLe(b, a)
    decreases |a|
  {
    if a != [] && b != [] && a[0] == b[0] {
      StrLeTotal(a[1..], b[1..]);
    }
  }

  lemma {:induction false} StrLeTransitive(a: string, b: string, c: string)
    requires StrLe(a, b) && StrLe(b, c)
    ensures StrLe(a, c)
    decreases |a|
  {
    if a != [] && b != [] && c != [] && a[0] == b[0] && b[0] == c[0] {
      StrLeTransitive(a[1..], b[1..], c[1..]);
    }
  }

  predicate KeyLe(field: SortField, x: Document, y: Document) {
    match field
    case ByItemName => StrLe(x.itemName, y.itemName)
    case ByPrice => x.basicMetadata.price <= y.basicMetadata.price
  }

  /** `x` may come before `y` in a sort on `field` in direction `dir`. */
  predicate InOrder(field: SortField, dir: SortDirection, x: Document, y: Document) {
    match dir
    case Ascending => KeyLe(field, x, y)
    case Descending => KeyLe(field, y, x)
  }

  lemma InOrderTotal(field: SortField, dir: SortDirection, x: Document, y: Document)
    ensures InOrder(field, dir, x, y) || InOrder(field, dir, y, x)
  {
    if field == ByItemName {
      StrLeTotal(x.itemName, y.itemName);
    }
  }

  lemma InOrderTransitive(field: SortField, dir: SortDirection, x: Document, y: Document, z: Document)
    requires InOrder(field, dir, x, y) && InOrder(field, dir, y, z)
    ensures InOrder(field, dir, x, z)
  {
    if field == ByItemName {
      if dir == Ascending {
        StrLeTransitive(x.itemName, y.itemName, z.itemName);
      } else {
        StrLeTransitive(z.itemName, y.itemName, x.itemName);
      }
    }
  }

  /** Every document is in order with every later one. */
  predicate Ordered(s: seq<Document>, field: SortField, dir: SortDirection) {
    forall i, j :: 0 <= i < j < |s| ==> InOrder(field, dir, s[i], s[j])
  }

  /** Inserts `x` before the first element it may precede. */
  function Insert(x: Document, s: seq<Document>, field: SortField, dir: SortDirection): (r: seq<Document>)
    ensures multiset(r) == multiset(s) + multiset{x}
  {
    if s == [] then [x]
    else if InOrder(field, dir, x, s[0]) then [x] + s
    else
      assert s == [s[0]] + s[1..];
      [s[0]] + Insert(x, s[1..], field, dir)
  }

  /** The store's sort, taken to be a stable insertion sort. The order of
      documents with equal keys is not something the handler relies on. */
  function SortDocs(s: seq<Document>, field: SortField, dir: SortDirection): (r: seq<Document>) {
    if s == [] then [] else Insert(s[0], SortDocs(s[1..], field, dir), field, dir)
  }

  lemma OrderedTail(s: seq<Document>, field: SortField, dir: SortDirection)
    requires s != [] && Ordered(s, field, dir)
    ensures Ordered(s[1..], field, dir)
  {
    forall i, j | 0 <= i < j < |s| - 1 ensures InOrder(field, dir, s[1..][i], s[1..][j]) {
      assert s[1..][i] == s[i + 1] && s[1..][j] == s[j + 1];
    }
  }

  /** A document in order with everything in `s` and with `x` is in order with
      everything in `Insert(x, s)`. */
  lemma BeforeAllInserted(y: Document, x: Document, s: seq<Document>, field: SortField, dir: SortDirection)
    requires InOrder(field, dir, y, x)
    requires forall k :: 0 <= k < |s| ==> InOrder(field, dir, y, s[k])
    ensures forall k :: 0 <= k < |Insert(x, s, field, dir)| ==> InOrder(field, dir, y, Insert(x, s, field, dir)[k])
  {
    var r := Insert(x, s, field, dir);
    forall k | 0 <= k < |r| ensures InOrder(field, dir, y, r[k]) {
      assert r[k] in multiset(s) + multiset{x};
      if r[k] != x {
        assert r[k] in s;
      }
    }
  }

  lemma {:induction false} InsertOrdered(x: Document, s: seq<Document>, field: SortField, dir: SortDirection)
    requires Ordered(s, field, dir)
    ensures Ordered(Insert(x, s, field, dir), field, dir)
  {
    if s == [] {
    } else if InOrder(field, dir, x, s[0]) {
      var r := [x] + s;
      forall i, j | 0 <= i < j < |r| ensures InOrder(field, dir, r[i], r[j]) {
        if i == 0 && j > 1 {
          InOrderTransitive(field, dir, x, s[0], s[j - 1]);
        }
      }
    } else {
      InOrderTotal(field, dir, x, s[0]);
      OrderedTail(s, field, dir);
      InsertOrdered(x, s[1..], field, dir);
      var rest := Insert(x, s[1..], field, dir);
      BeforeAllInserted(s[0], x, s[1..], field, dir);
      var r := [s[0]] + rest;
      assert r == Insert(x, s, field, dir);
      forall i, j | 0 <= i < j < |r| ensures InOrder(field, dir, r[i], r[j]) {
        if i == 0 {
          assert r[j] == rest[j - 1];
        } else {
          assert r[i] == rest[i - 1] && r[j] == rest[j - 1];
        }
      }
    }
  }

  /** The store's sort puts the documents in order and keeps exactly the
      documents it was given. */
  lemma {:induction false} SortDocsCorrect(s: seq<Document>, field: SortField, dir: SortDirection)
    ensures Ordered(SortDocs(s, field, dir), field, dir)
    ensures multiset(SortDocs(s, field, dir)) == multiset(s)
  {
    if s != [] {
      SortDocsCorrect(s[1..], field, dir);
      InsertOrdered(s[0], SortDocs(s[1..], field, dir), field, dir);
      assert s == [s[0]] + s[1..];
    }
  }
}
