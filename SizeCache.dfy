/**
 * The size filter both service workers run over the image groups: every
 * non-empty URL is judged by the size of the image it points to, each URL
 * is fetched at most once, and a `checked` map shared by all groups keeps
 * the verdicts so that a URL is judged alike wherever it recurs.
 */
module SizeCache {
  import opened Wrappers
  import opened Lists

  datatype Size = Size(w: int, h: int)

  /**
   * `Math.max(1, parseInt(msg.minSize || 500, 10))`, for a request that
   * carries no size or a whole number.
   */
  function MinSizeOf(requested: Option<int>): (m: int)
    ensures m >= 1
    ensures requested.None? || requested == Some(0) ==> m == 500
    ensures requested.Some? && requested.value != 0 ==> m == if requested.value < 1 then 1 else requested.value
  {
    var v := if requested.None? || requested.value == 0 then 500 else requested.value;
    if v < 1 then 1 else v
  }

  /** `!!(sz && sz.w >= minSize && sz.h >= minSize)`. */
  predicate BigEnough(sz: Option<Size>, minSize: int) {
    sz.Some? && sz.value.w >= minSize && sz.value.h >= minSize
  }

  /**
   * `fetchImageSize`, as an oracle: `fetch(u, n)` is what fetching `u`
   * yields as the n-th fetch of the run (from 0), `None` for a failed
   * request, an undecodable image or a timeout.
   */
  type Fetch = (string, nat) -> Option<Size>

  /** The `checked` map and, in order, the URLs whose size was fetched. */
  datatype Cache = Cache(checked: map<string, bool>, fetched: seq<string>)

  const EmptyCache := Cache(map[], [])

  /**
   * No URL was fetched twice, the map holds exactly the fetched URLs, and
   * each verdict is the one its single fetch gave.
   */
  ghost predicate Consistent(c: Cache, fetch: Fetch, minSize: int) {
    NoDuplicates(c.fetched)
    && (forall u :: u in c.checked <==> u in c.fetched)
    && (forall i :: 0 <= i < |c.fetched| ==>
          c.fetched[i] in c.checked && c.checked[c.fetched[i]] == BigEnough(fetch(c.fetched[i], i), minSize))
  }

  /** `b` grew from `a`: the old verdicts are unchanged and the old fetches come first. */
  ghost predicate Extends(a: Cache, b: Cache) {
    (forall u :: u in a.checked ==> u in b.checked && b.checked[u] == a.checked[u])
    && |a.fetched| <= |b.fetched| && b.fetched[..|a.fetched|] == a.fetched
  }

  /** The items a pass kept, and the cache after it. */
  datatype Pass<T> = Pass(kept: seq<T>, cache: Cache)

  /**
   * One filter loop over `items`, whose URL `url` gives: an empty URL is
   * skipped, a cached URL reuses its verdict, any other is fetched and its
   * verdict stored.
   */
  function FilterSpec<T>(c: Cache, items: seq<T>, url: T -> string, fetch: Fetch, minSize: int): Pass<T>
    decreases |items|
  {
    if items == [] then Pass([], c)
    else
      var prev := FilterSpec(c, items[..|items| - 1], url, fetch, minSize);
      var it := items[|items| - 1];
      var u := url(it);
      var m := prev.cache.checked;
      if u == "" then prev
      else if u in m then Pass(if m[u] then prev.kept + [it] else prev.kept, prev.cache)
      else
        var ok := BigEnough(fetch(u, |prev.cache.fetched|), minSize);
        Pass(if ok then prev.kept + [it] else prev.kept, Cache(m[u := ok], prev.cache.fetched + [u]))
  }

  /** The loop over one group, pushing onto the filtered list and updating `checked`. */
  method FilterBySize<T>(cache: Cache, items: seq<T>, url: T -> string, fetch: Fetch, minSize: int)
    returns (kept: seq<T>, cache': Cache)
    ensures Pass(kept, cache') == FilterSpec(cache, items, url, fetch, minSize)
  {
    kept := [];
    var checked := cache.checked;
    var fetched := cache.fetched;
    for i := 0 to |items|
      invariant Pass(kept, Cache(checked, fetched)) == FilterSpec(cache, items[..i], url, fetch, minSize)
    {
      assert items[..i + 1][..i] == items[..i];
      var u := url(items[i]);
      if u == "" {
        continue;
      }
      if u in checked {
        if checked[u] {
          kept := kept + [items[i]];
        }
        continue;
      }
      var sz := fetch(u, |fetched|);
      var ok := BigEnough(sz, minSize);
      checked := checked[u := ok];
      fetched := fetched + [u];
      if ok {
        kept := kept + [items[i]];
      }
    }
    assert items[..|items|] == items;
    cache' := Cache(checked, fetched);
  }

  /** A URL list's items are their own URLs. */
  function OwnUrl(u: string): string {
    u
  }

  /** Some item has URL `u`. */
  predicate HasUrl<T>(items: seq<T>, url: T -> string, u: string) {
    exists k :: 0 <= k < |items| && url(items[k]) == u
  }

  /**
   * After a pass the cache judges exactly what it judged before plus every
   * non-empty URL of the items.
   */
  lemma {:induction false} FilterSpecJudges<T>(c: Cache, items: seq<T>, url: T -> string, fetch: Fetch, minSize: int)
    ensures forall u :: u in FilterSpec(c, items, url, fetch, minSize).cache.checked <==>
      u in c.checked || (u != "" && HasUrl(items, url, u))
    decreases |items|
  {
    if items != [] {
      var init := items[..|items| - 1];
      FilterSpecJudges(c, init, url, fetch, minSize);
      HasUrlSnoc(items, url);
    }
  }

  /** A URL occurs in a list when it occurs before the last item or is the last item's. */
  lemma HasUrlSnoc<T>(items: seq<T>, url: T -> string)
    requires items != []
    ensures forall u :: HasUrl(items, url, u) <==> HasUrl(items[..|items| - 1], url, u) || url(items[|items| - 1]) == u
  {
    var init := items[..|items| - 1];
    forall u ensures HasUrl(items, url, u) <==> HasUrl(init, url, u) || url(items[|items| - 1]) == u {
      if HasUrl(items, url, u) {
        var k :| 0 <= k < |items| && url(items[k]) == u;
        if k < |init| {
          assert init[k] == items[k];
        }
      }
      if HasUrl(init, url, u) {
        var k :| 0 <= k < |init| && url(init[k]) == u;
        assert items[k] == init[k];
      }
    }
  }

  /** What a cache says about an item: a non-empty URL with a positive verdict. */
  function KeptBy<T>(url: T -> string, checked: map<string, bool>): T -> bool {
    it => url(it) != "" && url(it) in checked && checked[url(it)]
  }

  /** Every non-empty URL of `items` has a verdict in `checked`. */
  ghost predicate AllJudged<T>(items: seq<T>, url: T -> string, checked: map<string, bool>) {
    forall k :: 0 <= k < |items| ==> url(items[k]) != "" ==> url(items[k]) in checked
  }

  /**
   * A pass keeps the cache consistent (so no URL is fetched twice), only
   * adds to it, judges every non-empty URL it meets, and keeps exactly the
   * items whose URL the resulting cache approves, in their order.
   */
  lemma {:induction false} FilterSpecProperties<T>(c: Cache, items: seq<T>, url: T -> string, fetch: Fetch, minSize: int)
    requires Consistent(c, fetch, minSize)
    ensures var r := FilterSpec(c, items, url, fetch, minSize);
      Consistent(r.cache, fetch, minSize) && Extends(c, r.cache)
      && AllJudged(items, url, r.cache.checked)
      && r.kept == Filter(items, KeptBy(url, r.cache.checked))
    decreases |items|
  {
    if items != [] {
      var init := items[..|items| - 1];
      var it := items[|items| - 1];
      FilterSpecProperties(c, init, url, fetch, minSize);
      var prev := FilterSpec(c, init, url, fetch, minSize);
      var r := FilterSpec(c, items, url, fetch, minSize);
      assert items == init + [it];
      FilterSnoc(init, it, KeptBy(url, r.cache.checked));
      if url(it) != "" && url(it) !in prev.cache.checked {
        NewFetch(prev.cache, url(it), fetch, minSize);
        ExtendsTrans(c, prev.cache, r.cache);
      }
      SameVerdicts(init, url, prev.cache.checked, r.cache.checked);
    }
  }

  /** Fetching a URL the cache does not hold keeps it consistent and extends it. */
  lemma NewFetch(c: Cache, u: string, fetch: Fetch, minSize: int)
    requires Consistent(c, fetch, minSize) && u !in c.checked
    ensures var ok := BigEnough(fetch(u, |c.fetched|), minSize);
      var c' := Cache(c.checked[u := ok], c.fetched + [u]);
      Consistent(c', fetch, minSize) && Extends(c, c')
  {
    var ok := BigEnough(fetch(u, |c.fetched|), minSize);
    var c' := Cache(c.checked[u := ok], c.fetched + [u]);
    assert u !in c.fetched;
    forall i | 0 <= i < |c'.fetched|
      ensures c'.fetched[i] in c'.checked && c'.checked[c'.fetched[i]] == BigEnough(fetch(c'.fetched[i], i), minSize)
    {
      if i < |c.fetched| {
        assert c'.fetched[i] == c.fetched[i];
      }
    }
    assert c'.fetched[..|c.fetched|] == c.fetched;
  }

  lemma ExtendsTrans(a: Cache, b: Cache, c: Cache)
    requires Extends(a, b) && Extends(b, c)
    ensures Extends(a, c)
  {
    assert c.fetched[..|a.fetched|] == c.fetched[..|b.fetched|][..|a.fetched|];
  }

  /** A grown cache approves the same items among those the smaller one judged. */
  lemma SameVerdicts<T>(items: seq<T>, url: T -> string, m: map<string, bool>, m': map<string, bool>)
    requires AllJudged(items, url, m)
    requires forall u :: u in m ==> u in m' && m'[u] == m[u]
    ensures Filter(items, KeptBy(url, m')) == Filter(items, KeptBy(url, m))
  {
    FilterAgree(items, KeptBy(url, m'), KeptBy(url, m));
  }

  /** What a pass keeps is a subsequence of its items, each with a non-empty URL. */
  lemma FilterKeepsOrder<T>(c: Cache, items: seq<T>, url: T -> string, fetch: Fetch, minSize: int)
    requires Consistent(c, fetch, minSize)
    ensures var r := FilterSpec(c, items, url, fetch, minSize);
      IsSubsequence(r.kept, items) && forall x :: x in r.kept ==> url(x) != ""
  {
    FilterSpecProperties(c, items, url, fetch, minSize);
    var r := FilterSpec(c, items, url, fetch, minSize);
    FilterIsSelection(items, KeptBy(url, r.cache.checked));
  }

  /**
   * Once a later cache extends the one after a pass, that later cache
   * still decides what the pass kept: so a URL kept by one group is kept
   * by every group in which it occurs.
   */
  lemma LaterCacheDecides<T>(c: Cache, items: seq<T>, url: T -> string, fetch: Fetch, minSize: int, later: Cache)
    requires Consistent(c, fetch, minSize)
    requires Extends(FilterSpec(c, items, url, fetch, minSize).cache, later)
    ensures FilterSpec(c, items, url, fetch, minSize).kept == Filter(items, KeptBy(url, later.checked))
    ensures AllJudged(items, url, later.checked)
  {
    FilterSpecProperties(c, items, url, fetch, minSize);
    var r := FilterSpec(c, items, url, fetch, minSize);
    SameVerdicts(items, url, r.cache.checked, later.checked);
  }
}
