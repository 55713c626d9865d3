/**
 * The `SCRAPE_DOWNLOAD` handler of the root extension's service worker,
 * from the content script's answer to the list of downloads: the product
 * folder name, `uniq` of each group, the size filter over details, main
 * and sku with one shared `checked` map, the optional video, the numbered
 * downloads, the counts and the note.
 */
module ScrapeWorker {
  import opened Wrappers
  import opened Lists
  import opened Naming
  import opened SizeCache
  import opened Downloads

  /** `resp.groups`: the URL lists the content script collected; entries may be null or empty. */
  datatype Groups = Groups(main: seq<Option<string>>, sku: seq<Option<string>>, details: seq<Option<string>>)

  datatype Counts = Counts(main: nat, sku: nat, details: nat)

  /** The `{ok:true, counts, downloaded, note}` response, with the download requests made, in order. */
  datatype Outcome = Outcome(counts: Counts, downloaded: nat, note: string, requests: seq<Download>)

  const NoImagesNote := "No images >= min size. If the page uses lazy/JS data, try scrolling to the details section and click the 详情/图文详情 tab once, then run again."

  /** The `filtered` lists and the `checked` map after the three passes, details first. */
  datatype Filtered = Filtered(details: seq<string>, main: seq<string>, sku: seq<string>, cache: Cache)

  function FilterGroups(details: seq<string>, main: seq<string>, sku: seq<string>, fetch: Fetch, minSize: int): Filtered {
    var pd := FilterSpec(EmptyCache, details, OwnUrl, fetch, minSize);
    var pm := FilterSpec(pd.cache, main, OwnUrl, fetch, minSize);
    var ps := FilterSpec(pm.cache, sku, OwnUrl, fetch, minSize);
    Filtered(pd.kept, pm.kept, ps.kept, ps.cache)
  }

  /** `if (videoUrl) downloadVideoBase(productName, videoUrl)`. */
  function VideoRequests(productName: string, videoUrl: Option<string>): seq<Download> {
    if Truthy(videoUrl) then [Download(videoUrl.value, VideoFile(productName, videoUrl.value))] else []
  }

  /** The numbered image downloads, details, then main, then sku. */
  function ImageRequests(productName: string, f: Filtered): seq<Download> {
    Numbered(productName, "details", f.details) + Numbered(productName, "main", f.main) + Numbered(productName, "sku", f.sku)
  }

  function Note(downloaded: nat): string {
    if downloaded == 0 then NoImagesNote else ""
  }

  /** What the handler answers and downloads, for the product name `name` (`""` when missing). */
  function Scrape(name: string, groups: Groups, videoUrl: Option<string>, fetch: Fetch, minSize: int): Outcome {
    var productName := SanitizeName(name);
    var f := FilterGroups(UniqSpec(groups.details), UniqSpec(groups.main), UniqSpec(groups.sku), fetch, minSize);
    var images := ImageRequests(productName, f);
    Outcome(Counts(|f.main|, |f.sku|, |f.details|), |images|, Note(|images|), VideoRequests(productName, videoUrl) + images)
  }

  /**
   * The handler: `minSize` from the request's value (`Math.max(1, parseInt(msg.minSize || 500))`),
   * then the body after the scrape answer arrived.
   */
  method HandleScrape(name: string, groups: Groups, videoUrl: Option<string>, fetch: Fetch, requested: Option<int>)
    returns (out: Outcome)
    ensures out == Scrape(name, groups, videoUrl, fetch, MinSizeOf(requested))
  {
    var minSize := MinSizeOf(requested);
    var productName := SanitizeName(name);
    var main := Uniq(groups.main);
    var sku := Uniq(groups.sku);
    var details := Uniq(groups.details);

    var fd, c1 := FilterBySize(EmptyCache, details, OwnUrl, fetch, minSize);
    var fm, c2 := FilterBySize(c1, main, OwnUrl, fetch, minSize);
    var fs, c3 := FilterBySize(c2, sku, OwnUrl, fetch, minSize);
    ghost var f := Filtered(fd, fm, fs, c3);
    assert f == FilterGroups(details, main, sku, fetch, minSize);
    var counts := Counts(|fm|, |fs|, |fd|);

    var downloaded := 0;
    var video: seq<Download> := [];
    if videoUrl.Some? && videoUrl.value != "" {
      video := [Download(videoUrl.value, VideoFile(productName, videoUrl.value))];
    }
    var rd, rm, rs;
    rd, downloaded := DownloadNumbered(productName, "details", fd, downloaded);
    rm, downloaded := DownloadNumbered(productName, "main", fm, downloaded);
    rs, downloaded := DownloadNumbered(productName, "sku", fs, downloaded);
    assert |ImageRequests(productName, f)| == downloaded;
    var note := "";
    if downloaded == 0 {
      note := NoImagesNote;
    }
    out := Outcome(counts, downloaded, note, video + (rd + rm + rs));
  }

  // ---- properties ----

  /** `downloaded` is the total length of the filtered groups; one request per image, plus the video. */
  lemma ScrapeTotals(name: string, groups: Groups, videoUrl: Option<string>, fetch: Fetch, minSize: int)
    ensures var out := Scrape(name, groups, videoUrl, fetch, minSize);
      out.downloaded == out.counts.main + out.counts.sku + out.counts.details
      && |out.requests| == out.downloaded + (if Truthy(videoUrl) then 1 else 0)
      && (out.note == "" <==> out.downloaded > 0)
  {
  }

  /** The three passes leave a consistent cache that extends each pass's own cache. */
  lemma FilterGroupsCache(details: seq<string>, main: seq<string>, sku: seq<string>, fetch: Fetch, minSize: int)
    ensures var pd := FilterSpec(EmptyCache, details, OwnUrl, fetch, minSize);
      var pm := FilterSpec(pd.cache, main, OwnUrl, fetch, minSize);
      var f := FilterGroups(details, main, sku, fetch, minSize);
      Consistent(f.cache, fetch, minSize) && Extends(pd.cache, f.cache) && Extends(pm.cache, f.cache)
  {
    var pd := FilterSpec(EmptyCache, details, OwnUrl, fetch, minSize);
    var pm := FilterSpec(pd.cache, main, OwnUrl, fetch, minSize);
    var ps := FilterSpec(pm.cache, sku, OwnUrl, fetch, minSize);
    FilterSpecProperties(EmptyCache, details, OwnUrl, fetch, minSize);
    FilterSpecProperties(pd.cache, main, OwnUrl, fetch, minSize);
    FilterSpecProperties(pm.cache, sku, OwnUrl, fetch, minSize);
    ExtendsTrans(pd.cache, pm.cache, ps.cache);
  }

  /**
   * Each filtered group holds exactly the URLs of its group that the final
   * `checked` map approves, in order.
   */
  lemma FilterGroupsDecided(details: seq<string>, main: seq<string>, sku: seq<string>, fetch: Fetch, minSize: int)
    ensures var f := FilterGroups(details, main, sku, fetch, minSize);
      var ok := KeptBy(OwnUrl, f.cache.checked);
      f.details == Filter(details, ok) && f.main == Filter(main, ok) && f.sku == Filter(sku, ok)
  {
    var pd := FilterSpec(EmptyCache, details, OwnUrl, fetch, minSize);
    var pm := FilterSpec(pd.cache, main, OwnUrl, fetch, minSize);
    var f := FilterGroups(details, main, sku, fetch, minSize);
    FilterGroupsCache(details, main, sku, fetch, minSize);
    FilterSpecProperties(EmptyCache, details, OwnUrl, fetch, minSize);
    FilterSpecProperties(pd.cache, main, OwnUrl, fetch, minSize);
    LaterCacheDecides(EmptyCache, details, OwnUrl, fetch, minSize, f.cache);
    LaterCacheDecides(pd.cache, main, OwnUrl, fetch, minSize, f.cache);
    FilterSpecProperties(pm.cache, sku, OwnUrl, fetch, minSize);
  }

  /**
   * The size of each URL is fetched at most once over all three groups, and
   * exactly the non-empty URLs of the groups are judged.
   */
  lemma ScrapeFetchesOnce(details: seq<string>, main: seq<string>, sku: seq<string>, fetch: Fetch, minSize: int)
    ensures var f := FilterGroups(details, main, sku, fetch, minSize);
      NoDuplicates(f.cache.fetched)
      && forall u :: u in f.cache.fetched <==> u != "" && (u in details || u in main || u in sku)
  {
    var pd := FilterSpec(EmptyCache, details, OwnUrl, fetch, minSize);
    var pm := FilterSpec(pd.cache, main, OwnUrl, fetch, minSize);
    var f := FilterGroups(details, main, sku, fetch, minSize);
    FilterGroupsCache(details, main, sku, fetch, minSize);
    FilterSpecJudges(EmptyCache, details, OwnUrl, fetch, minSize);
    FilterSpecJudges(pd.cache, main, OwnUrl, fetch, minSize);
    FilterSpecJudges(pm.cache, sku, OwnUrl, fetch, minSize);
    forall u ensures u in f.cache.checked <==> u != "" && (u in details || u in main || u in sku) {
      OwnUrls(details, u);
      OwnUrls(main, u);
      OwnUrls(sku, u);
    }
  }

  lemma OwnUrls(us: seq<string>, u: string)
    ensures HasUrl(us, OwnUrl, u) <==> u in us
  {
    if u in us {
      var k :| 0 <= k < |us| && us[k] == u;
      assert OwnUrl(us[k]) == u;
    }
  }

  /** The final verdict on `u`: a non-empty URL judged big enough. */
  predicate Approved(checked: map<string, bool>, u: string) {
    u != "" && u in checked && checked[u]
  }

  /**
   * Each filtered group holds exactly the URLs of its group that the final
   * cache approves, so a URL kept in one group is kept in every group it
   * occurs in; and each filtered group is a subsequence of its group.
   */
  lemma ScrapeUniform(details: seq<string>, main: seq<string>, sku: seq<string>, fetch: Fetch, minSize: int)
    ensures var f := FilterGroups(details, main, sku, fetch, minSize);
      (forall u :: u in f.details <==> u in details && Approved(f.cache.checked, u))
      && (forall u :: u in f.main <==> u in main && Approved(f.cache.checked, u))
      && (forall u :: u in f.sku <==> u in sku && Approved(f.cache.checked, u))
      && IsSubsequence(f.details, details) && IsSubsequence(f.main, main) && IsSubsequence(f.sku, sku)
  {
    var f := FilterGroups(details, main, sku, fetch, minSize);
    var ok := KeptBy(OwnUrl, f.cache.checked);
    FilterGroupsDecided(details, main, sku, fetch, minSize);
    Selected(details, f.cache.checked);
    Selected(main, f.cache.checked);
    Selected(sku, f.cache.checked);
  }

  lemma Selected(us: seq<string>, checked: map<string, bool>)
    ensures var kept := Filter(us, KeptBy(OwnUrl, checked));
      IsSubsequence(kept, us) && forall u :: u in kept <==> u in us && Approved(checked, u)
  {
    FilterIsSelection(us, KeptBy(OwnUrl, checked));
    forall u ensures KeptBy(OwnUrl, checked)(u) == Approved(checked, u) {
      assert OwnUrl(u) == u;
    }
  }

  /** The numbered files of the three groups are pairwise distinct, whatever the extensions. */
  lemma ImagesDistinct(productName: string, ds: seq<string>, ms: seq<string>, ss: seq<string>, ext: string -> string)
    ensures DistinctFilenames(NumberedWith(productName, "details", ds, ext) + NumberedWith(productName, "main", ms, ext)
      + NumberedWith(productName, "sku", ss, ext))
  {
    var d := NumberedWith(productName, "details", ds, ext);
    var m := NumberedWith(productName, "main", ms, ext);
    var s := NumberedWith(productName, "sku", ss, ext);
    NumberedNames(productName, "details", ds, ext);
    NumberedNames(productName, "main", ms, ext);
    NumberedNames(productName, "sku", ss, ext);
    SeparateGroups(productName, "details", "main", ds, ms, ext);
    DistinctConcat(d, m);
    SeparateGroups(productName, "details", "sku", ds, ss, ext);
    SeparateGroups(productName, "main", "sku", ms, ss, ext);
    forall a, b | 0 <= a < |d + m| && 0 <= b < |s| ensures (d + m)[a].filename != s[b].filename {
      if a < |d| {
        assert (d + m)[a] == d[a];
      } else {
        assert (d + m)[a] == m[a - |d|];
      }
    }
    DistinctConcat(d + m, s);
  }

  /** A video file whose extension holds no `/` is none of the numbered files. */
  lemma VideoApartFromImages(productName: string, x: string, ds: seq<string>, ms: seq<string>, ss: seq<string>, ext: string -> string)
    requires '/' !in x
    ensures var images := NumberedWith(productName, "details", ds, ext) + NumberedWith(productName, "main", ms, ext)
        + NumberedWith(productName, "sku", ss, ext);
      forall b :: 0 <= b < |images| ==> VideoPath(productName, x) != images[b].filename
  {
    var d := NumberedWith(productName, "details", ds, ext);
    var m := NumberedWith(productName, "main", ms, ext);
    var s := NumberedWith(productName, "sku", ss, ext);
    var images := d + m + s;
    VideoApart(productName, x, "details", ds, ext);
    VideoApart(productName, x, "main", ms, ext);
    VideoApart(productName, x, "sku", ss, ext);
    forall b | 0 <= b < |images| ensures VideoPath(productName, x) != images[b].filename {
      if b < |d| {
        assert images[b] == d[b];
      } else if b < |d| + |m| {
        assert images[b] == m[b - |d|];
      } else {
        assert images[b] == s[b - |d| - |m|];
      }
    }
  }

  /** No two requests of one run save to the same file. */
  lemma ScrapeFilenamesDistinct(name: string, groups: Groups, videoUrl: Option<string>, fetch: Fetch, minSize: int)
    ensures DistinctFilenames(Scrape(name, groups, videoUrl, fetch, minSize).requests)
  {
    var productName := SanitizeName(name);
    var f := FilterGroups(UniqSpec(groups.details), UniqSpec(groups.main), UniqSpec(groups.sku), fetch, minSize);
    var video := VideoRequests(productName, videoUrl);
    var x := if video != [] then GuessVideoExt(videoUrl.value) else "mp4";
    if video != [] {
      VideoExtHasNoSlash(videoUrl.value);
    }
    VideoThenImagesDistinct(productName, video, x, f.details, f.main, f.sku, GuessExt);
  }

  /** At most one video file, whose extension holds no `/`, followed by the numbered files: all distinct. */
  lemma VideoThenImagesDistinct(productName: string, video: seq<Download>, x: string,
                                ds: seq<string>, ms: seq<string>, ss: seq<string>, ext: string -> string)
    requires video == [] || (|video| == 1 && video[0].filename == VideoPath(productName, x) && '/' !in x)
    ensures DistinctFilenames(video + (NumberedWith(productName, "details", ds, ext) + NumberedWith(productName, "main", ms, ext)
      + NumberedWith(productName, "sku", ss, ext)))
  {
    ImagesDistinct(productName, ds, ms, ss, ext);
    if video != [] {
      VideoApartFromImages(productName, x, ds, ms, ss, ext);
    }
    DistinctConcat(video, NumberedWith(productName, "details", ds, ext) + NumberedWith(productName, "main", ms, ext)
      + NumberedWith(productName, "sku", ss, ext));
  }
}
