/** Skip/limit pagination. */
module Paging {
  function Min(a: int, b: int): (m: int) {
    if a <= b then a else b
  }

  /** The number of results before page `page` when each page holds `limit`:
      whole pages only, none before the first. */
  function Skip(page: int, limit: int): (skip: nat)
    requires page >= 1 && limit >= 1
    ensures skip % limit == 0 && skip / limit == page - 1
    ensures skip == 0 <==> page == 1
  {
    DivModUnique((page - 1) * limit, limit, page - 1, 0);
    (page - 1) * limit
  }

  lemma {:induction false} MulAtLeast(l: int, d: int)
    requires l >= 1 && d >= 1
    ensures l * d >= l
  {
    if d > 1 {
      MulAtLeast(l, d - 1);
      assert l * d == l * (d - 1) + l;
    }
  }

  /** Quotient and remainder are the only ones with the remainder in range. */
  lemma DivModUnique(x: int, l: int, q: int, r: int)
    requires l >= 1 && x == l * q + r && 0 <= r < l
    ensures x / l == q && x % l == r
  {
    var q', r' := x / l, x % l;
    var d := q - q';
    assert l * d == r' - r;
    if d >= 1 {
      MulAtLeast(l, d);
    }
    if d <= -1 {
      MulAtLeast(l, -d);
    }
  }

  /** The results `[skip, skip + limit)` of `s`, as far as `s` reaches. */
  function Window<T>(s: seq<T>, skip: nat, limit: nat): (w: seq<T>)
    ensures |w| <= limit
    ensures |w| == if skip >= |s| then 0 else Min(limit, |s| - skip)
    ensures forall k :: 0 <= k < |w| ==> w[k] == s[skip + k]
  {
    if skip >= |s| then [] else s[skip..skip + Min(limit, |s| - skip)]
  }

  /** Pages 1 to `n`, one after the other. */
  function PagesUpTo<T>(s: seq<T>, limit: int, n: nat): (r: seq<T>)
    requires limit >= 1
  {
    if n == 0 then [] else PagesUpTo(s, limit, n - 1) + Window(s, Skip(n, limit), limit)
  }

  /** Reading the pages in turn yields the results in order, without gaps or
      repeats: the first `n` pages are the first `n * limit` results. */
  lemma {:induction false} PagesCover<T>(s: seq<T>, limit: int, n: nat)
    requires limit >= 1
    ensures PagesUpTo(s, limit, n) == s[..Min(n * limit, |s|)]
  {
    if n > 0 {
      PagesCover(s, limit, n - 1);
      var before := Min((n - 1) * limit, |s|);
      assert n * limit == (n - 1) * limit + limit;
      var w := Window(s, Skip(n, limit), limit);
      assert s[..Min(n * limit, |s|)] == s[..before] + w;
    }
  }

  /** The result at position `k` is on page `k / limit + 1`, at position
      `k % limit` of that page. */
  lemma PageOfPosition<T>(s: seq<T>, limit: int, k: nat)
    requires limit >= 1 && k < |s|
    ensures k % limit < |Window(s, Skip(k / limit + 1, limit), limit)|
    ensures Window(s, Skip(k / limit + 1, limit), limit)[k % limit] == s[k]
  {
    var skip := Skip(k / limit + 1, limit);
    assert skip == (k / limit) * limit;
    assert k == (k / limit) * limit + k % limit;
  }
}
