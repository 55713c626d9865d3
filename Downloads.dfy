/**
 * The downloads the service workers ask the browser for, as a list of
 * `(url, filename)` requests: the numbered files of one image group
 * (`downloadOne` called with `i++` from 1) and the product video.
 */
module Downloads {
  import opened Strings
  import opened Naming

  /** One `chrome.downloads.download` request. */
  datatype Download = Download(url: string, filename: string)

  /** The k-th URL of a group (from 0) saved as file number k + 1 of `folder/sub`, with extension `ext(url)`. */
  function NumberedWith(folder: string, sub: string, urls: seq<string>, ext: string -> string): seq<Download> {
    seq(|urls|, k requires 0 <= k < |urls| => Download(urls[k], NumberedPath(folder, sub, k + 1, ext(urls[k]))))
  }

  /** The numbered downloads of a group, the extensions guessed by `guessExt`. */
  function Numbered(folder: string, sub: string, urls: seq<string>): seq<Download> {
    NumberedWith(folder, sub, urls, GuessExt)
  }

  /** `let i=1; for (const u of urls) { await downloadOne(folder, sub, i++, u); downloaded++; }`. */
  method DownloadNumbered(folder: string, sub: string, urls: seq<string>, downloaded: nat)
    returns (requests: seq<Download>, downloaded': nat)
    ensures requests == Numbered(folder, sub, urls)
    ensures downloaded' == downloaded + |urls|
  {
    requests := [];
    downloaded' := downloaded;
    var i := 1;
    for j := 0 to |urls|
      invariant i == j + 1 && downloaded' == downloaded + j
      invariant requests == Numbered(folder, sub, urls[..j])
    {
      requests := requests + [Download(urls[j], NumberedFile(folder, sub, i, urls[j]))];
      i := i + 1;
      downloaded' := downloaded' + 1;
    }
    assert urls[..|urls|] == urls;
  }

  /** No two requests save to the same file name. */
  predicate DistinctFilenames(ds: seq<Download>) {
    forall a, b :: 0 <= a < b < |ds| ==> ds[a].filename != ds[b].filename
  }

  /**
   * The files of a group are numbered `001`, `002`, ... in the order of the
   * URLs (three digits at least, read back as k + 1), so no two collide.
   */
  lemma NumberedNames(folder: string, sub: string, urls: seq<string>, ext: string -> string)
    ensures forall k :: 0 <= k < |urls| ==>
      NumberedWith(folder, sub, urls, ext)[k].filename == folder + "/" + sub + "/" + Pad3(k + 1) + "." + ext(urls[k])
      && |Pad3(k + 1)| >= 3 && AllDigits(Pad3(k + 1)) && ParseDecimal(Pad3(k + 1)) == k + 1
    ensures DistinctFilenames(NumberedWith(folder, sub, urls, ext))
  {
    forall k | 0 <= k < |urls|
      ensures NumberedWith(folder, sub, urls, ext)[k].filename == folder + "/" + sub + "/" + Pad3(k + 1) + "." + ext(urls[k])
      ensures |Pad3(k + 1)| >= 3 && AllDigits(Pad3(k + 1)) && ParseDecimal(Pad3(k + 1)) == k + 1
    {
      Pad3Value(k + 1);
    }
    forall a, b | 0 <= a < b < |urls|
      ensures NumberedWith(folder, sub, urls, ext)[a].filename != NumberedWith(folder, sub, urls, ext)[b].filename
    {
      NumberedFilesDistinct(folder, sub, a + 1, b + 1, ext(urls[a]), ext(urls[b]));
    }
  }

  /** Groups saved under different sub-folders never share a file name. */
  lemma SeparateGroups(folder: string, sub: string, sub': string, us: seq<string>, vs: seq<string>, ext: string -> string)
    requires sub != sub' && '/' !in sub && '/' !in sub'
    ensures forall a, b :: 0 <= a < |us| && 0 <= b < |vs| ==>
      NumberedWith(folder, sub, us, ext)[a].filename != NumberedWith(folder, sub', vs, ext)[b].filename
  {
    forall a, b | 0 <= a < |us| && 0 <= b < |vs|
      ensures NumberedWith(folder, sub, us, ext)[a].filename != NumberedWith(folder, sub', vs, ext)[b].filename
    {
      SubFoldersSeparate(folder, sub, sub', a + 1, b + 1, ext(us[a]), ext(vs[b]));
    }
  }

  /** Two lists of requests without a common file name, each without repeats, have none together. */
  lemma DistinctConcat(xs: seq<Download>, ys: seq<Download>)
    requires DistinctFilenames(xs) && DistinctFilenames(ys)
    requires forall a, b :: 0 <= a < |xs| && 0 <= b < |ys| ==> xs[a].filename != ys[b].filename
    ensures DistinctFilenames(xs + ys)
  {
    var zs := xs + ys;
    forall a, b | 0 <= a < b < |zs| ensures zs[a].filename != zs[b].filename {
      if b < |xs| {
        assert zs[a] == xs[a] && zs[b] == xs[b];
      } else if a < |xs| {
        assert zs[a] == xs[a] && zs[b] == ys[b - |xs|];
      } else {
        assert zs[a] == ys[a - |xs|] && zs[b] == ys[b - |xs|];
      }
    }
  }

  /** A tail without `/` differs from one with a `/` at the end of `sub`. */
  lemma SlashApart(h: string, x: string, sub: string, y: string)
    requires '/' !in x && '/' !in sub
    ensures h + x != h + (sub + ['/'] + y)
  {
    if |x| > |sub| {
      assert (h + x)[|h| + |sub|] == x[|sub|];
      assert (h + (sub + ['/'] + y))[|h| + |sub|] == '/';
    }
  }

  /** The guessed video extension holds no `/`. */
  lemma VideoExtHasNoSlash(v: string)
    ensures '/' !in GuessVideoExt(v)
  {
    GuessVideoExtRange(v);
    VideoAlternativeHasNoSlash(GuessVideoExt(v));
  }

  lemma VideoAlternativeHasNoSlash(ext: string)
    requires ext in ["mp4", "m3u8", "webm", "mov"]
    ensures '/' !in ext
  {
  }

  lemma VideoNameHasNoSlash(x: string)
    requires '/' !in x
    ensures '/' !in "video." + x
  {
    assert forall k :: 6 <= k < 6 + |x| ==> ("video." + x)[k] == x[k - 6];
  }

  /** The video file name has no `/` after the folder's, so it is no numbered file. */
  lemma VideoIsNotNumbered(folder: string, x: string, sub: string, i: nat, y: string)
    requires '/' !in x && '/' !in sub
    ensures VideoPath(folder, x) != NumberedPath(folder, sub, i, y)
  {
    VideoNameHasNoSlash(x);
    VideoPathShape(folder, x);
    NumberedPathShape(folder, sub, i, y);
    SlashApart(folder + "/", "video." + x, sub, Pad3(i) + "." + y);
  }

  /** The video request clashes with no numbered request. */
  lemma VideoApart(folder: string, x: string, sub: string, us: seq<string>, ext: string -> string)
    requires '/' !in x && '/' !in sub
    ensures forall b :: 0 <= b < |us| ==> VideoPath(folder, x) != NumberedWith(folder, sub, us, ext)[b].filename
  {
    forall b | 0 <= b < |us| ensures VideoPath(folder, x) != NumberedWith(folder, sub, us, ext)[b].filename {
      VideoIsNotNumbered(folder, x, sub, b + 1, ext(us[b]));
    }
  }
}
