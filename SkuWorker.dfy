/**
 * The `SCRAPE_DOWNLOAD` handler of the 1688 image scraper's service worker.
 * Beyond what the root extension's handler does, it de-duplicates the
 * named SKU items by `url||name`, filters them by size with the same
 * `checked` map, removes every SKU URL from the main group, and saves the
 * SKU images under their SKU names, numbered `01`, `02`, ... with an `_n`
 * suffix on the n-th file of a repeated name.
 */
module SkuWorker {
  import opened Wrappers
  import opened Strings
  import opened Lists
  import opened Naming
  import opened SizeCache
  import opened Downloads
  import opened ScrapeWorker

  // ---- de-duplication of `resp.skuItems` ----

  /** An entry of `resp.skuItems`; `""` stands for a missing url or name, `None` for a null entry. */
  datatype RawSkuItem = RawSkuItem(url: string, name: string)

  /** `{name, url}` as pushed onto `skuItemList`, the name sanitized. */
  datatype SkuItem = SkuItem(name: string, url: string)

  /** `url + '||' + name`. */
  function SkuKey(it: SkuItem): string {
    it.url + "||" + it.name
  }

  /**
   * The entries that have a URL, with their names put through `sanitize`
   * (`sanitizeSkuFile` in the handler), in order.
   */
  function Cleaned(raw: seq<Option<RawSkuItem>>, sanitize: string -> string): (r: seq<SkuItem>)
    ensures forall it :: it in r ==> it.url != ""
    decreases |raw|
  {
    if raw == [] then []
    else
      var x := raw[|raw| - 1];
      Cleaned(raw[..|raw| - 1], sanitize) + (if x.Some? && x.value.url != "" then [SkuItem(sanitize(x.value.name), x.value.url)] else [])
  }

  /** The sanitizer never produces a `|`. */
  ghost predicate NoBars(sanitize: string -> string) {
    forall s :: '|' !in sanitize(s)
  }

  lemma SanitizedHaveNoBars()
    ensures NoBars(SanitizeSkuFile)
  {
    forall s ensures '|' !in SanitizeSkuFile(s) {
      NoBar(SanitizeSkuFile(s));
    }
  }

  lemma {:induction false} CleanedNoBars(raw: seq<Option<RawSkuItem>>, sanitize: string -> string)
    requires NoBars(sanitize)
    ensures forall it :: it in Cleaned(raw, sanitize) ==> '|' !in it.name
    decreases |raw|
  {
    if raw != [] {
      CleanedNoBars(raw[..|raw| - 1], sanitize);
    }
  }

  /** The skuItem loop: a `Set` of keys and the output list (`sanitize` is `SanitizeSkuFile` in the handler). */
  method DedupSkuItems(raw: seq<Option<RawSkuItem>>, sanitize: string -> string) returns (list: seq<SkuItem>)
    requires NoBars(sanitize)
    ensures list == Dedup(Cleaned(raw, sanitize))
  {
    var seen: set<string> := {};
    list := [];
    for i := 0 to |raw|
      invariant list == Dedup(Cleaned(raw[..i], sanitize))
      invariant seen == Keys(list)
      invariant forall it :: it in list ==> '|' !in it.name
    {
      CleanedSnoc(raw, i, sanitize);
      var x := raw[i];
      if x.None? || x.value.url == "" {
        continue;
      }
      var url := x.value.url;
      var name := sanitize(x.value.name);
      var key := url + "||" + name;
      var item := SkuItem(name, url);
      assert '|' !in name;
      DedupSnoc(Cleaned(raw[..i], sanitize), item);
      SeenKeys(list, item);
      if key in seen {
        continue;
      }
      seen := seen + {key};
      list := list + [item];
    }
    assert raw[..|raw|] == raw;
  }

  function Keys(list: seq<SkuItem>): set<string> {
    set it | it in list :: SkuKey(it)
  }

  lemma CleanedSnoc(raw: seq<Option<RawSkuItem>>, i: nat, sanitize: string -> string)
    requires i < |raw|
    ensures raw[i].None? || raw[i].value.url == "" ==> Cleaned(raw[..i + 1], sanitize) == Cleaned(raw[..i], sanitize)
    ensures raw[i].Some? && raw[i].value.url != "" ==>
      Cleaned(raw[..i + 1], sanitize) == Cleaned(raw[..i], sanitize) + [SkuItem(sanitize(raw[i].value.name), raw[i].value.url)]
  {
    assert raw[..i + 1][..i] == raw[..i];
  }

  /** With no `|` in the names, an item's key is seen exactly when the item is listed. */
  lemma SeenKeys(list: seq<SkuItem>, item: SkuItem)
    requires forall it :: it in list ==> '|' !in it.name
    requires '|' !in item.name
    ensures SkuKey(item) in Keys(list) <==> item in list
    ensures Keys(list + [item]) == Keys(list) + {SkuKey(item)}
  {
    if SkuKey(item) in Keys(list) {
      var other :| other in list && SkuKey(other) == SkuKey(item);
      KeyInjective(other, item);
    }
  }

  lemma NoBar(s: string)
    requires NoForbidden(s)
    ensures '|' !in s
  {
    assert IsForbidden('|');
  }

  /** Sanitized names hold no `|`, so the key determines the item. */
  lemma KeyInjective(a: SkuItem, b: SkuItem)
    requires '|' !in a.name && '|' !in b.name && SkuKey(a) == SkuKey(b)
    ensures a == b
  {
    var s := SkuKey(a);
    var L := |s|;
    assert forall j :: L - |a.name| <= j < L ==> s[j] != '|' by {
      forall j | L - |a.name| <= j < L ensures s[j] != '|' {
        assert s[j] == a.name[j - (L - |a.name|)];
      }
    }
    assert forall j :: L - |b.name| <= j < L ==> s[j] != '|' by {
      forall j | L - |b.name| <= j < L ensures s[j] != '|' {
        assert s[j] == SkuKey(b)[j] == b.name[j - (L - |b.name|)];
      }
    }
    assert s[L - |a.name| - 1] == '|';
    assert SkuKey(b)[L - |b.name| - 1] == '|';
    assert |a.name| == |b.name|;
    assert a.name == s[L - |a.name|..] == SkuKey(b)[L - |b.name|..] == b.name;
    assert a.url == s[..|a.url|] == SkuKey(b)[..|b.url|] == b.url;
  }

  /**
   * The list holds each item with a URL once, at its first occurrence, so
   * no two entries share a key.
   */
  lemma SkuDedupSpec(raw: seq<Option<RawSkuItem>>, sanitize: string -> string)
    requires NoBars(sanitize)
    ensures var cleaned := Cleaned(raw, sanitize);
      var list := Dedup(cleaned);
      (forall it :: it in list <==> it in cleaned)
      && (forall a, b :: 0 <= a < b < |list| ==> SkuKey(list[a]) != SkuKey(list[b]))
      && (forall a, b :: 0 <= a < b < |list| ==> Position(cleaned, list[a]) < Position(cleaned, list[b]))
  {
    var list := Dedup(Cleaned(raw, sanitize));
    DedupIsFirstOccurrences(Cleaned(raw, sanitize));
    CleanedNoBars(raw, sanitize);
    forall a, b | 0 <= a < b < |list| ensures SkuKey(list[a]) != SkuKey(list[b]) {
      assert list[a] in list && list[b] in list;
      if SkuKey(list[a]) == SkuKey(list[b]) {
        KeyInjective(list[a], list[b]);
      }
    }
  }

  /** The raw entry `x` has a URL and gives `it`. */
  predicate Gives(x: Option<RawSkuItem>, sanitize: string -> string, it: SkuItem) {
    x.Some? && x.value.url != "" && it == SkuItem(sanitize(x.value.name), x.value.url)
  }

  /** An entry is cleaned exactly when some raw entry with a URL gives it. */
  lemma {:induction false} CleanedMembers(raw: seq<Option<RawSkuItem>>, sanitize: string -> string, it: SkuItem)
    ensures it in Cleaned(raw, sanitize) <==> exists k :: 0 <= k < |raw| && Gives(raw[k], sanitize, it)
    decreases |raw|
  {
    if raw != [] {
      var n := |raw| - 1;
      var init := raw[..n];
      CleanedMembers(init, sanitize, it);
      assert it in Cleaned(raw, sanitize) <==> it in Cleaned(init, sanitize) || Gives(raw[n], sanitize, it);
      if exists k :: 0 <= k < |raw| && Gives(raw[k], sanitize, it) {
        var k :| 0 <= k < |raw| && Gives(raw[k], sanitize, it);
        if k < n {
          assert init[k] == raw[k];
        }
      }
      if exists k :: 0 <= k < |init| && Gives(init[k], sanitize, it) {
        var k :| 0 <= k < |init| && Gives(init[k], sanitize, it);
        assert raw[k] == init[k];
      }
    }
  }

  // ---- the SKU URL set and the main group without it ----

  /** `skuUrlSet`: the sku group's URLs and the items' URLs. */
  function SkuUrlSet(sku: seq<string>, items: seq<SkuItem>): set<string> {
    (set u | u in sku) + (set it | it in items :: it.url)
  }

  /** The two loops adding to `skuUrlSet`. */
  method BuildSkuUrlSet(sku: seq<string>, items: seq<SkuItem>) returns (urls: set<string>)
    ensures urls == SkuUrlSet(sku, items)
  {
    urls := {};
    for i := 0 to |sku|
      invariant urls == set u | u in sku[..i]
    {
      assert sku[..i + 1] == sku[..i] + [sku[i]];
      urls := urls + {sku[i]};
    }
    assert sku[..|sku|] == sku;
    ghost var base := urls;
    for i := 0 to |items|
      invariant urls == base + set it | it in items[..i] :: it.url
    {
      assert items[..i + 1] == items[..i] + [items[i]];
      urls := urls + {items[i].url};
    }
    assert items[..|items|] == items;
  }

  function NotIn(urls: set<string>): string -> bool {
    u => u !in urls
  }

  /** `filtered.main.filter(u => !skuUrlSet.has(u))`. */
  function WithoutSkuUrls(main: seq<string>, urls: set<string>): seq<string> {
    Filter(main, NotIn(urls))
  }

  /** No SKU URL is left in main, main keeps its order, and nothing else leaves it. */
  lemma WithoutSkuUrlsSpec(main: seq<string>, urls: set<string>)
    ensures var r := WithoutSkuUrls(main, urls);
      IsSubsequence(r, main) && forall u :: u in r <==> u in main && u !in urls
  {
    FilterIsSelection(main, NotIn(urls));
  }

  /** The URL of an item, for the size filter over the items. */
  function ItemUrl(it: SkuItem): string {
    it.url
  }

  // ---- named SKU downloads ----

  /** One SKU file: its URL, its `baseName` and the `n` that `nameSeen` gave it. */
  datatype NamedEntry = NamedEntry(url: string, base: string, n: nat)

  /** The named loop's state: the files so far, `skuDownloadedUrls` and `nameSeen`. */
  datatype NamedState = NamedState(entries: seq<NamedEntry>, seen: set<string>, nameSeen: map<string, nat>)

  /** `sanitizeSkuFile(it.name || 'sku')`, the sanitizer given as `sanitize`. */
  function BaseName(sanitize: string -> string, name: string): string {
    sanitize(if name == "" then "sku" else name)
  }

  /**
   * The named loop over `items`: an item without a URL or with a URL
   * downloaded before is skipped; any other becomes the next file, with its
   * base name (`sanitize` is `SanitizeSkuFile` in the handler) and one more
   * than the count `nameSeen` held for that name.
   */
  function NamedSpec(items: seq<SkuItem>, sanitize: string -> string): NamedState
    decreases |items|
  {
    if items == [] then NamedState([], {}, map[])
    else
      var prev := NamedSpec(items[..|items| - 1], sanitize);
      var it := items[|items| - 1];
      if it.url == "" || it.url in prev.seen then prev
      else AddFile(prev, it.url, BaseName(sanitize, it.name))
  }

  /** The next file, of URL `url` and base name `b`, `n` counted on from `nameSeen`. */
  function AddFile(st: NamedState, url: string, b: string): NamedState {
    var n := NextCount(st.nameSeen, b);
    NamedState(st.entries + [NamedEntry(url, b, n)], st.seen + {url}, st.nameSeen[b := n])
  }

  /** `(nameSeen.get(baseName) || 0) + 1`. */
  function NextCount(nameSeen: map<string, nat>, b: string): nat {
    (if b in nameSeen then nameSeen[b] else 0) + 1
  }

  /** Entry k is saved as `productName/sku/<pad2(k + 1)>_<base><_n>.<ext>`, the extension `ext(url)`. */
  function NamedDownload(productName: string, ext: string -> string): (nat, NamedEntry) -> Download {
    (k: nat, e: NamedEntry) => Download(e.url, SkuPath(productName, k + 1, e.base, e.n, ext(e.url)))
  }

  function NamedRequestsWith(productName: string, es: seq<NamedEntry>, ext: string -> string): seq<Download> {
    MapIndexed(es, NamedDownload(productName, ext))
  }

  /** The named SKU downloads, the extensions guessed by `guessExt`. */
  function NamedRequests(productName: string, es: seq<NamedEntry>): seq<Download> {
    NamedRequestsWith(productName, es, GuessExt)
  }

  lemma NamedRequestsSnoc(productName: string, es: seq<NamedEntry>, e: NamedEntry)
    ensures NamedRequests(productName, es + [e])
      == NamedRequests(productName, es) + [Download(e.url, SkuFile(productName, |es| + 1, e.base, e.n, e.url))]
  {
    MapIndexedSnoc(es, e, NamedDownload(productName, GuessExt));
  }

  /** One more item either leaves the named state alone or adds its file. */
  lemma NamedSpecStep(items: seq<SkuItem>, i: nat, sanitize: string -> string)
    requires i < |items|
    ensures var prev := NamedSpec(items[..i], sanitize);
      var it := items[i];
      NamedSpec(items[..i + 1], sanitize)
        == if it.url == "" || it.url in prev.seen then prev else AddFile(prev, it.url, BaseName(sanitize, it.name))
  {
    assert items[..i + 1][..i] == items[..i];
  }

  /** The loop over `filteredSkuItems` with `skuDownloadedUrls`, `nameSeen` and `seq`. */
  method DownloadNamed(productName: string, items: seq<SkuItem>, sanitize: string -> string, downloaded: nat)
    returns (requests: seq<Download>, downloaded': nat)
    ensures requests == NamedRequests(productName, NamedSpec(items, sanitize).entries)
    ensures downloaded' == downloaded + |NamedSpec(items, sanitize).entries|
  {
    var skuDownloadedUrls: set<string> := {};
    var nameSeen: map<string, nat> := map[];
    var seqNo := 1;
    requests := [];
    downloaded' := downloaded;
    ghost var es: seq<NamedEntry> := [];
    for i := 0 to |items|
      invariant NamedState(es, skuDownloadedUrls, nameSeen) == NamedSpec(items[..i], sanitize)
      invariant seqNo == |es| + 1
      invariant requests == NamedRequests(productName, es)
      invariant downloaded' == downloaded + |es|
    {
      NamedSpecStep(items, i, sanitize);
      var url := items[i].url;
      if url == "" {
        continue;
      }
      if url in skuDownloadedUrls {
        continue;
      }
      skuDownloadedUrls := skuDownloadedUrls + {url};
      var baseName := BaseName(sanitize, items[i].name);
      var n := (if baseName in nameSeen then nameSeen[baseName] else 0) + 1;
      nameSeen := nameSeen[baseName := n];
      NamedRequestsSnoc(productName, es, NamedEntry(url, baseName, n));
      es := es + [NamedEntry(url, baseName, n)];
      requests := requests + [Download(url, SkuFile(productName, seqNo, baseName, n, url))];
      seqNo := seqNo + 1;
      downloaded' := downloaded' + 1;
    }
    assert items[..|items|] == items;
  }

  function EntryUrls(es: seq<NamedEntry>): set<string> {
    set e | e in es :: e.url
  }

  /**
   * Each URL is downloaded once, exactly the non-empty item URLs are, and
   * `skuDownloadedUrls` holds the downloaded ones.
   */
  lemma {:induction false} NamedSpecUrls(items: seq<SkuItem>, sanitize: string -> string)
    ensures var r := NamedSpec(items, sanitize);
      |r.entries| <= |items| && UrlsOnce(r)
      && forall u :: u in r.seen <==> u != "" && HasUrl(items, ItemUrl, u)
    decreases |items|
  {
    if items != [] {
      var init := items[..|items| - 1];
      var it := items[|items| - 1];
      NamedSpecUrls(init, sanitize);
      var prev := NamedSpec(init, sanitize);
      var r := NamedSpec(items, sanitize);
      HasUrlSnoc(items, ItemUrl);
      assert ItemUrl(it) == it.url;
      if !(it.url == "" || it.url in prev.seen) {
        AddFileUrls(prev, it.url, BaseName(sanitize, it.name));
      }
    }
  }

  /** Each URL downloaded once so far, and `skuDownloadedUrls` holding them. */
  ghost predicate UrlsOnce(r: NamedState) {
    (forall a, b :: 0 <= a < b < |r.entries| ==> r.entries[a].url != r.entries[b].url)
    && r.seen == EntryUrls(r.entries)
  }

  lemma AddFileUrls(st: NamedState, url: string, b: string)
    requires UrlsOnce(st) && url !in st.seen
    ensures UrlsOnce(AddFile(st, url, b)) && AddFile(st, url, b).seen == st.seen + {url}
    ensures |AddFile(st, url, b).entries| == |st.entries| + 1
  {
    var r := AddFile(st, url, b);
    var e := r.entries[|st.entries|];
    assert r.entries == st.entries + [e];
    forall a | 0 <= a < |st.entries| ensures r.entries[a].url != url {
      assert r.entries[a] == st.entries[a] && st.entries[a] in st.entries;
    }
    assert EntryUrls(r.entries) == EntryUrls(st.entries) + {url};
  }

  /** `nameSeen` counts the files of each base name: no file's `n` exceeds it, and a name is in it once it has a file. */
  ghost predicate CountsFiles(r: NamedState) {
    (forall k :: 0 <= k < |r.entries| ==> r.entries[k].base in r.nameSeen && 1 <= r.entries[k].n <= r.nameSeen[r.entries[k].base])
    && forall b :: b in r.nameSeen ==> exists k :: 0 <= k < |r.entries| && r.entries[k].base == b
  }

  /** Adding the next file keeps the files of each name numbered in order. */
  lemma AddFileInOrder(st: NamedState, url: string, b: string)
    requires NumberedInOrder(st.entries) && AboveEarlier(st.entries, b, NextCount(st.nameSeen, b))
    ensures NumberedInOrder(AddFile(st, url, b).entries)
  {
    var n := NextCount(st.nameSeen, b);
    assert AddFile(st, url, b).entries == st.entries + [NamedEntry(url, b, n)];
    InOrderStep(st.entries, url, b, n);
  }

  /** `n` lies above the `n` of every file of name `b` in `es`, and is 1 exactly when there is none. */
  ghost predicate AboveEarlier(es: seq<NamedEntry>, b: string, n: nat) {
    (forall j :: 0 <= j < |es| && es[j].base == b ==> es[j].n < n)
    && (n == 1 <==> forall j :: 0 <= j < |es| ==> es[j].base != b)
  }

  /** The count `nameSeen` gives the next file lies above every earlier one of its name, and is 1 for the first. */
  lemma NewCountAbove(st: NamedState, b: string)
    requires CountsFiles(st)
    ensures AboveEarlier(st.entries, b, NextCount(st.nameSeen, b))
  {
    if b in st.nameSeen {
      var k :| 0 <= k < |st.entries| && st.entries[k].base == b;
    }
  }

  /** Adding the next file keeps `nameSeen` counting the files of each name. */
  lemma CountsKept(st: NamedState, url: string, b: string)
    requires CountsFiles(st)
    ensures CountsFiles(AddFile(st, url, b))
  {
    var n := NextCount(st.nameSeen, b);
    var es := st.entries;
    var es' := es + [NamedEntry(url, b, n)];
    var m := st.nameSeen[b := n];
    assert AddFile(st, url, b) == NamedState(es', st.seen + {url}, m);
    forall k | 0 <= k < |es'| ensures es'[k].base in m && 1 <= es'[k].n <= m[es'[k].base] {
      if k < |es| {
        assert es'[k] == es[k];
      }
    }
    forall c | c in m ensures exists k :: 0 <= k < |es'| && es'[k].base == c {
      if c == b {
        assert es'[|es|].base == c;
      } else {
        var k :| 0 <= k < |es| && es[k].base == c;
        assert es'[k].base == c;
      }
    }
  }

  /**
   * The files of one base name are numbered 1, 2, 3, ... in order, and
   * `nameSeen` keeps count of them.
   */
  lemma {:induction false} NamedSpecRepeats(items: seq<SkuItem>, sanitize: string -> string)
    ensures CountsFiles(NamedSpec(items, sanitize)) && NumberedInOrder(NamedSpec(items, sanitize).entries)
    decreases |items|
  {
    if items != [] {
      var init := items[..|items| - 1];
      var it := items[|items| - 1];
      NamedSpecRepeats(init, sanitize);
      var prev := NamedSpec(init, sanitize);
      if !(it.url == "" || it.url in prev.seen) {
        NewCountAbove(prev, BaseName(sanitize, it.name));
        CountsKept(prev, it.url, BaseName(sanitize, it.name));
        AddFileInOrder(prev, it.url, BaseName(sanitize, it.name));
      }
    }
  }

  /** The number of files in `es` whose base name is `b`. */
  function CountBase(es: seq<NamedEntry>, b: string): nat
    decreases |es|
  {
    if es == [] then 0 else CountBase(es[..|es| - 1], b) + (if es[|es| - 1].base == b then 1 else 0)
  }

  /**
   * The j-th file of a base name carries `n == j` (so its suffix is `_j`
   * from the second on), and `nameSeen` maps each base name to the number
   * of its files, holding no name without a file.
   */
  ghost predicate CountedExactly(r: NamedState) {
    (forall k :: 0 <= k < |r.entries| ==> r.entries[k].n == CountBase(r.entries[..k], r.entries[k].base) + 1)
    && (forall b :: b in r.nameSeen ==> r.nameSeen[b] == CountBase(r.entries, b))
    && (forall b :: b !in r.nameSeen ==> CountBase(r.entries, b) == 0)
  }

  /** `nameSeen[baseName] = (nameSeen[baseName] || 0) + 1` numbers each name's files 1, 2, 3, ... exactly. */
  lemma {:induction false} NamedSpecCounts(items: seq<SkuItem>, sanitize: string -> string)
    ensures CountedExactly(NamedSpec(items, sanitize))
    decreases |items|
  {
    if items != [] {
      var init := items[..|items| - 1];
      var it := items[|items| - 1];
      NamedSpecCounts(init, sanitize);
      var prev := NamedSpec(init, sanitize);
      if !(it.url == "" || it.url in prev.seen) {
        CountsExactlyKept(prev, it.url, BaseName(sanitize, it.name));
      }
    }
  }

  /** Adding the next file of name `b` keeps the counts exact. */
  lemma CountsExactlyKept(st: NamedState, url: string, b: string)
    requires CountedExactly(st)
    ensures CountedExactly(AddFile(st, url, b))
  {
    var es := st.entries;
    var n := NextCount(st.nameSeen, b);
    var es' := es + [NamedEntry(url, b, n)];
    var m := st.nameSeen[b := n];
    assert AddFile(st, url, b) == NamedState(es', st.seen + {url}, m);
    assert es'[..|es'| - 1] == es;
    assert n == CountBase(es, b) + 1;
    forall k | 0 <= k < |es'| ensures es'[k].n == CountBase(es'[..k], es'[k].base) + 1 {
      if k < |es| {
        assert es'[..k] == es[..k];
        assert es'[k] == es[k];
      }
    }
    forall c | c in m ensures m[c] == CountBase(es', c) {
      if c != b {
        assert c in st.nameSeen;
      }
    }
    forall c | c !in m ensures CountBase(es', c) == 0 {
      assert c !in st.nameSeen;
    }
  }

  /**
   * A later file of the same name has a larger `n`, and `n` is 1 exactly
   * for the first file of its name.
   */
  ghost predicate NumberedInOrder(es: seq<NamedEntry>) {
    (forall a, b :: 0 <= a < b < |es| && es[a].base == es[b].base ==> es[a].n < es[b].n)
    && forall k :: 0 <= k < |es| ==> (es[k].n == 1 <==> forall j :: 0 <= j < k ==> es[j].base != es[k].base)
  }

  lemma InOrderStep(es: seq<NamedEntry>, url: string, b: string, n: nat)
    requires NumberedInOrder(es) && AboveEarlier(es, b, n)
    ensures NumberedInOrder(es + [NamedEntry(url, b, n)])
  {
    var es' := es + [NamedEntry(url, b, n)];
    forall a, c | 0 <= a < c < |es'| && es'[a].base == es'[c].base ensures es'[a].n < es'[c].n {
      assert es'[a] == es[a];
      if c < |es| {
        assert es'[c] == es[c];
      }
    }
    forall k | 0 <= k < |es'| ensures es'[k].n == 1 <==> forall j :: 0 <= j < k ==> es'[j].base != es'[k].base {
      assert forall j :: 0 <= j < k ==> es'[j] == es[j];
      if k < |es| {
        assert es'[k] == es[k];
      }
    }
  }


  /** The `_n` suffix is empty exactly for the first file of its name. */
  lemma NamedSuffixes(items: seq<SkuItem>, sanitize: string -> string)
    ensures var es := NamedSpec(items, sanitize).entries;
      forall k :: 0 <= k < |es| ==> (RepeatSuffix(es[k].n) == "" <==> forall j :: 0 <= j < k ==> es[j].base != es[k].base)
  {
    var es := NamedSpec(items, sanitize).entries;
    NamedSpecRepeats(items, sanitize);
    forall k | 0 <= k < |es| ensures RepeatSuffix(es[k].n) == "" <==> es[k].n == 1 {
      RepeatSuffixEmpty(es[k].n);
    }
  }

  lemma RepeatSuffixEmpty(n: nat)
    requires n >= 1
    ensures RepeatSuffix(n) == "" <==> n == 1
  {
    if n > 1 {
      assert RepeatSuffix(n)[0] == '_';
    }
  }

  /**
   * No two SKU files share a name: file k carries the sequence number
   * k + 1, whatever the base names and the repeat numbers.
   */
  lemma NamedDistinct(productName: string, es: seq<NamedEntry>, ext: string -> string)
    ensures DistinctFilenames(NamedRequestsWith(productName, es, ext))
  {
    var rs := NamedRequestsWith(productName, es, ext);
    forall a, b | 0 <= a < b < |es| ensures rs[a].filename != rs[b].filename {
      SkuFilesDistinct(productName, a + 1, b + 1, es[a].base, es[b].base, es[a].n, es[b].n, ext(es[a].url), ext(es[b].url));
    }
  }

  /** A SKU file is no numbered file of another sub-folder. */
  lemma SkuFileApart(productName: string, s: nat, b: string, n: nat, x: string, sub: string, i: nat, y: string)
    requires sub != "sku" && '/' !in sub
    ensures SkuPath(productName, s, b, n, x) != NumberedPath(productName, sub, i, y)
  {
    SkuPathShape(productName, s, b, n, x);
    NumberedPathShape(productName, sub, i, y);
    FolderApart(productName + "/", "sku", sub, Pad2(s) + "_" + (b + RepeatSuffix(n) + "." + x), Pad3(i) + "." + y);
  }

  /** A video file whose extension holds no `/` is no SKU file. */
  lemma VideoIsNotSkuFile(productName: string, x: string, s: nat, b: string, n: nat, y: string)
    requires '/' !in x
    ensures VideoPath(productName, x) != SkuPath(productName, s, b, n, y)
  {
    VideoNameHasNoSlash(x);
    VideoPathShape(productName, x);
    SkuPathShape(productName, s, b, n, y);
    SlashApart(productName + "/", "video." + x, "sku", Pad2(s) + "_" + (b + RepeatSuffix(n) + "." + y));
  }

  // ---- the handler ----

  datatype SkuCounts = SkuCounts(main: nat, sku: nat, details: nat, skuNamed: nat)

  datatype SkuOutcome = SkuOutcome(counts: SkuCounts, downloaded: nat, note: string, requests: seq<Download>)

  /** The SKU downloads: named when some item passed the filter, numbered otherwise. */
  function SkuRequests(productName: string, named: seq<SkuItem>, sku: seq<string>, sanitize: string -> string, ext: string -> string): seq<Download> {
    if named != [] then NamedRequestsWith(productName, NamedSpec(named, sanitize).entries, ext) else NumberedWith(productName, "sku", sku, ext)
  }

  /**
   * What the handler answers and downloads once the product folder is
   * named, `sanitize` standing for `sanitizeSkuFile`.
   */
  function SkuRun(productName: string, groups: Groups, raw: seq<Option<RawSkuItem>>, videoUrl: Option<string>, fetch: Fetch, minSize: int, sanitize: string -> string): SkuOutcome {
    var sku := UniqSpec(groups.sku);
    var items := Dedup(Cleaned(raw, sanitize));
    var f := FilterGroups(UniqSpec(groups.details), UniqSpec(groups.main), sku, fetch, minSize);
    var named := FilterSpec(f.cache, items, ItemUrl, fetch, minSize).kept;
    var main := WithoutSkuUrls(f.main, SkuUrlSet(sku, items));
    SkuAnswer(productName, videoUrl, f.details, main, f.sku, named, sanitize)
  }

  /** The counts, the downloads and the note, from the filtered lists. */
  function SkuAnswer(productName: string, videoUrl: Option<string>, details: seq<string>, main: seq<string>, sku: seq<string>, named: seq<SkuItem>, sanitize: string -> string): SkuOutcome {
    var images := Numbered(productName, "details", details) + Numbered(productName, "main", main);
    var skuRequests := SkuRequests(productName, named, sku, sanitize, GuessExt);
    var downloaded := |images| + |skuRequests|;
    SkuOutcome(SkuCounts(|main|, |sku|, |details|, |named|), downloaded, Note(downloaded),
      VideoRequests(productName, videoUrl) + (images + skuRequests))
  }

  /** What the handler answers and downloads. */
  function SkuScrape(name: string, groups: Groups, raw: seq<Option<RawSkuItem>>, videoUrl: Option<string>, fetch: Fetch, minSize: int): SkuOutcome {
    SkuRun(SanitizeName(name), groups, raw, videoUrl, fetch, minSize, SanitizeSkuFile)
  }

  /**
   * The handler: `minSize` from the request's value (`Math.max(1, parseInt(msg.minSize || 500))`),
   * then the body after the scrape answer arrived.
   */
  method HandleSkuScrape(name: string, groups: Groups, raw: seq<Option<RawSkuItem>>, videoUrl: Option<string>, fetch: Fetch, requested: Option<int>)
    returns (out: SkuOutcome)
    ensures out == SkuScrape(name, groups, raw, videoUrl, fetch, MinSizeOf(requested))
  {
    var minSize := MinSizeOf(requested);
    var productName := SanitizeName(name);
    SanitizedHaveNoBars();
    out := RunSkuScrape(productName, groups, raw, videoUrl, fetch, minSize, SanitizeSkuFile);
  }

  /** The handler from `uniq` on, with the product folder's name. */
  method RunSkuScrape(productName: string, groups: Groups, raw: seq<Option<RawSkuItem>>, videoUrl: Option<string>, fetch: Fetch, minSize: int, sanitize: string -> string)
    returns (out: SkuOutcome)
    requires NoBars(sanitize)
    ensures out == SkuRun(productName, groups, raw, videoUrl, fetch, minSize, sanitize)
  {
    var main := Uniq(groups.main);
    var sku := Uniq(groups.sku);
    var details := Uniq(groups.details);
    var items := DedupSkuItems(raw, sanitize);
    var skuUrls := BuildSkuUrlSet(sku, items);

    var fd, c1 := FilterBySize(EmptyCache, details, OwnUrl, fetch, minSize);
    var fm, c2 := FilterBySize(c1, main, OwnUrl, fetch, minSize);
    var fs, c3 := FilterBySize(c2, sku, OwnUrl, fetch, minSize);
    ghost var f := Filtered(fd, fm, fs, c3);
    assert f == FilterGroups(details, main, sku, fetch, minSize);
    var named, c4 := FilterBySize(c3, items, ItemUrl, fetch, minSize);
    fm := WithoutSkuUrls(fm, skuUrls);
    out := SaveSkuFiles(productName, videoUrl, fd, fm, fs, named, sanitize);
  }

  /** The counts, the video, the numbered details and main files, the SKU files and the note. */
  method SaveSkuFiles(productName: string, videoUrl: Option<string>, fd: seq<string>, fm: seq<string>, fs: seq<string>, named: seq<SkuItem>, sanitize: string -> string)
    returns (out: SkuOutcome)
    ensures out == SkuAnswer(productName, videoUrl, fd, fm, fs, named, sanitize)
  {
    var counts := SkuCounts(|fm|, |fs|, |fd|, |named|);
    var downloaded := 0;
    var video: seq<Download> := [];
    if videoUrl.Some? && videoUrl.value != "" {
      video := [Download(videoUrl.value, VideoFile(productName, videoUrl.value))];
    }
    var rd, rm, rs;
    rd, downloaded := DownloadNumbered(productName, "details", fd, downloaded);
    rm, downloaded := DownloadNumbered(productName, "main", fm, downloaded);
    if |named| > 0 {
      rs, downloaded := DownloadNamed(productName, named, sanitize, downloaded);
    } else {
      rs, downloaded := DownloadNumbered(productName, "sku", fs, downloaded);
    }
    var note := "";
    if downloaded == 0 {
      note := NoImagesNote;
    }
    out := SkuOutcome(counts, downloaded, note, video + (rd + rm + rs));
  }

  // ---- properties of the handler ----

  /**
   * No URL left in main is a SKU URL, and main keeps, in order, every
   * other URL it had.
   */
  lemma MainWithoutSku(main: seq<string>, sku: seq<string>, items: seq<SkuItem>)
    ensures var r := WithoutSkuUrls(main, SkuUrlSet(sku, items));
      (forall u :: u in r ==> u !in sku && forall it :: it in items ==> it.url != u)
      && (forall u :: u in main && u !in sku && (forall it :: it in items ==> it.url != u) ==> u in r)
      && IsSubsequence(r, main)
  {
    var urls := SkuUrlSet(sku, items);
    WithoutSkuUrlsSpec(main, urls);
    forall u ensures u in urls <==> u in sku || exists it :: it in items && it.url == u {
    }
  }

  /**
   * Main holds no SKU URL, and every other main URL that passed the
   * filter; `downloaded` counts the requests other than the video, the
   * named SKU files being at most as many as the named items.
   */
  lemma SkuScrapeShape(productName: string, groups: Groups, raw: seq<Option<RawSkuItem>>, videoUrl: Option<string>, fetch: Fetch, minSize: int, sanitize: string -> string)
    ensures var out := SkuRun(productName, groups, raw, videoUrl, fetch, minSize, sanitize);
      var sku := UniqSpec(groups.sku);
      var items := Dedup(Cleaned(raw, sanitize));
      var f := FilterGroups(UniqSpec(groups.details), UniqSpec(groups.main), sku, fetch, minSize);
      var main := WithoutSkuUrls(f.main, SkuUrlSet(sku, items));
      var files := |NamedSpec(FilterSpec(f.cache, items, ItemUrl, fetch, minSize).kept, sanitize).entries|;
      (forall u :: u in main ==> u !in sku && forall it :: it in items ==> it.url != u)
      && (forall u :: u in f.main && u !in sku && (forall it :: it in items ==> it.url != u) ==> u in main)
      && IsSubsequence(main, f.main)
      && |out.requests| == out.downloaded + (if Truthy(videoUrl) then 1 else 0)
      && out.downloaded == out.counts.details + out.counts.main + (if out.counts.skuNamed > 0 then files else out.counts.sku)
      && (out.counts.skuNamed > 0 ==> files <= out.counts.skuNamed)
  {
    var sku := UniqSpec(groups.sku);
    var items := Dedup(Cleaned(raw, sanitize));
    var f := FilterGroups(UniqSpec(groups.details), UniqSpec(groups.main), sku, fetch, minSize);
    var named := FilterSpec(f.cache, items, ItemUrl, fetch, minSize).kept;
    MainWithoutSku(f.main, sku, items);
    NamedSpecUrls(named, sanitize);
  }

  /**
   * Over the groups and the items the size of each URL is fetched at most
   * once, and the final cache still decides every filtered list: a URL kept
   * anywhere is approved, and is kept in every group and for every item
   * where it occurs.
   */
  lemma SkuFetchesOnce(details: seq<string>, main: seq<string>, sku: seq<string>, items: seq<SkuItem>, fetch: Fetch, minSize: int)
    ensures var f := FilterGroups(details, main, sku, fetch, minSize);
      var p := FilterSpec(f.cache, items, ItemUrl, fetch, minSize);
      var ok := KeptBy(OwnUrl, p.cache.checked);
      NoDuplicates(p.cache.fetched)
      && f.details == Filter(details, ok) && f.main == Filter(main, ok) && f.sku == Filter(sku, ok)
      && p.kept == Filter(items, KeptBy(ItemUrl, p.cache.checked))
  {
    var pd := FilterSpec(EmptyCache, details, OwnUrl, fetch, minSize);
    var pm := FilterSpec(pd.cache, main, OwnUrl, fetch, minSize);
    var f := FilterGroups(details, main, sku, fetch, minSize);
    var p := FilterSpec(f.cache, items, ItemUrl, fetch, minSize);
    FilterGroupsCache(details, main, sku, fetch, minSize);
    FilterSpecProperties(f.cache, items, ItemUrl, fetch, minSize);
    ExtendsTrans(pd.cache, f.cache, p.cache);
    ExtendsTrans(pm.cache, f.cache, p.cache);
    FilterSpecProperties(EmptyCache, details, OwnUrl, fetch, minSize);
    FilterSpecProperties(pd.cache, main, OwnUrl, fetch, minSize);
    LaterCacheDecides(EmptyCache, details, OwnUrl, fetch, minSize, p.cache);
    LaterCacheDecides(pd.cache, main, OwnUrl, fetch, minSize, p.cache);
    LaterCacheDecides(pm.cache, sku, OwnUrl, fetch, minSize, p.cache);
  }

  /** No file of `xs` has the name of a file of `ys`. */
  ghost predicate Apart(xs: seq<Download>, ys: seq<Download>) {
    forall a, b :: 0 <= a < |xs| && 0 <= b < |ys| ==> xs[a].filename != ys[b].filename
  }

  lemma ApartConcat(xs: seq<Download>, ys: seq<Download>, zs: seq<Download>)
    requires Apart(xs, zs) && Apart(ys, zs)
    ensures Apart(xs + ys, zs)
  {
    forall a, b | 0 <= a < |xs + ys| && 0 <= b < |zs| ensures (xs + ys)[a].filename != zs[b].filename {
      if a < |xs| {
        assert (xs + ys)[a] == xs[a];
      } else {
        assert (xs + ys)[a] == ys[a - |xs|];
      }
    }
  }

  /** The SKU files are no numbered files of another sub-folder. */
  lemma NamedApartFromNumbered(productName: string, sub: string, us: seq<string>, es: seq<NamedEntry>, ext: string -> string)
    requires sub != "sku" && '/' !in sub
    ensures Apart(NumberedWith(productName, sub, us, ext), NamedRequestsWith(productName, es, ext))
  {
    var d := NumberedWith(productName, sub, us, ext);
    var s := NamedRequestsWith(productName, es, ext);
    forall a, b | 0 <= a < |d| && 0 <= b < |s| ensures d[a].filename != s[b].filename {
      SkuFileApart(productName, b + 1, es[b].base, es[b].n, ext(es[b].url), sub, a + 1, ext(us[a]));
    }
  }

  /** The details and main files and the SKU files are pairwise distinct, whatever the extensions. */
  lemma SkuImagesDistinct(productName: string, ds: seq<string>, ms: seq<string>, named: seq<SkuItem>, ss: seq<string>, sanitize: string -> string, ext: string -> string)
    ensures DistinctFilenames(NumberedWith(productName, "details", ds, ext) + NumberedWith(productName, "main", ms, ext)
      + SkuRequests(productName, named, ss, sanitize, ext))
  {
    var d := NumberedWith(productName, "details", ds, ext);
    var m := NumberedWith(productName, "main", ms, ext);
    var s := SkuRequests(productName, named, ss, sanitize, ext);
    NumberedNames(productName, "details", ds, ext);
    NumberedNames(productName, "main", ms, ext);
    SeparateGroups(productName, "details", "main", ds, ms, ext);
    DistinctConcat(d, m);
    if named != [] {
      var es := NamedSpec(named, sanitize).entries;
      NamedDistinct(productName, es, ext);
      NamedApartFromNumbered(productName, "details", ds, es, ext);
      NamedApartFromNumbered(productName, "main", ms, es, ext);
    } else {
      NumberedNames(productName, "sku", ss, ext);
      SeparateGroups(productName, "details", "sku", ds, ss, ext);
      SeparateGroups(productName, "main", "sku", ms, ss, ext);
      assert Apart(d, s) && Apart(m, s);
    }
    ApartConcat(d, m, s);
    DistinctConcat(d + m, s);
  }

  lemma ApartRight(xs: seq<Download>, ys: seq<Download>, zs: seq<Download>)
    requires Apart(xs, ys) && Apart(xs, zs)
    ensures Apart(xs, ys + zs)
  {
    forall a, b | 0 <= a < |xs| && 0 <= b < |ys + zs| ensures xs[a].filename != (ys + zs)[b].filename {
      if b < |ys| {
        assert (ys + zs)[b] == ys[b];
      } else {
        assert (ys + zs)[b] == zs[b - |ys|];
      }
    }
  }

  /** A video file whose extension holds no `/` is no SKU file. */
  lemma VideoApartFromNamed(productName: string, v: string, x: string, es: seq<NamedEntry>, ext: string -> string)
    requires '/' !in x
    ensures Apart([Download(v, VideoPath(productName, x))], NamedRequestsWith(productName, es, ext))
  {
    var s := NamedRequestsWith(productName, es, ext);
    forall b | 0 <= b < |s| ensures VideoPath(productName, x) != s[b].filename {
      VideoIsNotSkuFile(productName, x, b + 1, es[b].base, es[b].n, ext(es[b].url));
    }
  }

  /** A video file whose extension holds no `/` is none of the image files. */
  lemma SkuVideoApart(productName: string, v: string, x: string, ds: seq<string>, ms: seq<string>, named: seq<SkuItem>, ss: seq<string>, sanitize: string -> string, ext: string -> string)
    requires '/' !in x
    ensures Apart([Download(v, VideoPath(productName, x))],
      NumberedWith(productName, "details", ds, ext) + NumberedWith(productName, "main", ms, ext) + SkuRequests(productName, named, ss, sanitize, ext))
  {
    var video := [Download(v, VideoPath(productName, x))];
    var d := NumberedWith(productName, "details", ds, ext);
    var m := NumberedWith(productName, "main", ms, ext);
    var s := SkuRequests(productName, named, ss, sanitize, ext);
    VideoApart(productName, x, "details", ds, ext);
    VideoApart(productName, x, "main", ms, ext);
    assert Apart(video, d) && Apart(video, m);
    if named == [] {
      VideoApart(productName, x, "sku", ss, ext);
      assert Apart(video, s);
    } else {
      VideoApartFromNamed(productName, v, x, NamedSpec(named, sanitize).entries, ext);
    }
    ApartRight(video, d, m);
    ApartRight(video, d + m, s);
  }

  /** The video and the image files are pairwise distinct. */
  lemma SkuRequestsDistinct(productName: string, videoUrl: Option<string>, ds: seq<string>, ms: seq<string>, named: seq<SkuItem>, ss: seq<string>, sanitize: string -> string)
    ensures DistinctFilenames(VideoRequests(productName, videoUrl)
      + (Numbered(productName, "details", ds) + Numbered(productName, "main", ms) + SkuRequests(productName, named, ss, sanitize, GuessExt)))
  {
    var video := VideoRequests(productName, videoUrl);
    var images := Numbered(productName, "details", ds) + Numbered(productName, "main", ms) + SkuRequests(productName, named, ss, sanitize, GuessExt);
    SkuImagesDistinct(productName, ds, ms, named, ss, sanitize, GuessExt);
    if video != [] {
      var v := videoUrl.value;
      VideoExtHasNoSlash(v);
      SkuVideoApart(productName, v, GuessVideoExt(v), ds, ms, named, ss, sanitize, GuessExt);
    }
    DistinctConcat(video, images);
  }

  /** No two requests of one run save to the same file. */
  lemma SkuFilenamesDistinct(productName: string, groups: Groups, raw: seq<Option<RawSkuItem>>, videoUrl: Option<string>, fetch: Fetch, minSize: int, sanitize: string -> string)
    ensures DistinctFilenames(SkuRun(productName, groups, raw, videoUrl, fetch, minSize, sanitize).requests)
  {
    var sku := UniqSpec(groups.sku);
    var items := Dedup(Cleaned(raw, sanitize));
    var f := FilterGroups(UniqSpec(groups.details), UniqSpec(groups.main), sku, fetch, minSize);
    var named := FilterSpec(f.cache, items, ItemUrl, fetch, minSize).kept;
    var main := WithoutSkuUrls(f.main, SkuUrlSet(sku, items));
    SkuRequestsDistinct(productName, videoUrl, f.details, main, named, f.sku, sanitize);
  }
}
