/**
 * Download naming in the two service workers: `sanitizeName` and
 * `sanitizeSkuFile`, the zero padding `pad2` and `pad3`, the extension
 * guessers `guessExt` and `guessVideoExt`, and the file names handed to
 * `chrome.downloads.download`.
 *
 * Names are strings; an empty string stands for a missing (falsy) name.
 */
module Naming {
  import opened Wrappers
  import opened Strings

  // ---- sanitizeName / sanitizeSkuFile ----

  /** The characters of `/[\\/:*?"<>|]/`, which file names may not hold. */
  predicate IsForbidden(c: char) {
    c in "\\/:*?\"<>|"
  }

  predicate NoForbidden(s: string) {
    forall k :: 0 <= k < |s| ==> !IsForbidden(s[k])
  }

  /** `replace(/[\\/:*?"<>|]/g, '_')`. */
  function ReplaceForbidden(s: string): (r: string)
    ensures |r| == |s| && NoForbidden(r)
    ensures forall k :: 0 <= k < |s| ==> (IsForbidden(s[k]) ==> r[k] == '_') && (!IsForbidden(s[k]) ==> r[k] == s[k])
  {
    if s == [] then [] else [if IsForbidden(s[0]) then '_' else s[0]] + ReplaceForbidden(s[1..])
  }

  /** The body shared by `sanitizeName` and `sanitizeSkuFile`, which differ only in the default and the length bound. */
  function Sanitize(name: string, default: string, maxLen: nat): string {
    var n := Trim(if name == [] then default else name);
    var t := CleanedName(n);
    var t' := if t == [] then default else t;
    if |t'| > maxLen then t'[..maxLen] else t'
  }

  /** A default that `Sanitize` can return as it is. */
  predicate CleanDefault(default: string, maxLen: nat) {
    1 <= |default| <= maxLen && NoForbidden(default) && NoWhitespace(default)
  }

  /** What every sanitized name looks like. */
  predicate SafeName(r: string, maxLen: nat) {
    1 <= |r| <= maxLen && NoForbidden(r) && !IsWhitespace(r[0])
    && NoDoubleWhitespace(r) && OnlyPlainSpaces(r)
  }

  /** Collapsing white space brings in no forbidden character. */
  lemma {:induction false} CollapseNoForbidden(s: string)
    requires NoForbidden(s)
    ensures NoForbidden(CollapseWhitespace(s))
    decreases |s|
  {
    if s != [] {
      var t := if IsWhitespace(s[0]) then TrimStart(s) else s[1..];
      NoForbiddenSuffix(s, |s| - |t|);
      CollapseNoForbidden(t);
      var h := if IsWhitespace(s[0]) then ' ' else s[0];
      assert CollapseWhitespace(s) == [h] + CollapseWhitespace(t);
      NoForbiddenCons(h, CollapseWhitespace(t));
    }
  }

  lemma NoForbiddenSuffix(s: string, i: nat)
    requires NoForbidden(s) && i <= |s|
    ensures NoForbidden(s[i..])
  {
    assert forall k :: 0 <= k < |s| - i ==> s[i..][k] == s[i + k];
  }

  lemma NoForbiddenCons(h: char, c: string)
    requires !IsForbidden(h) && NoForbidden(c)
    ensures NoForbidden([h] + c)
  {
    assert forall k :: 1 <= k < 1 + |c| ==> ([h] + c)[k] == c[k - 1];
  }

  /**
   * The name after replacing forbidden characters, collapsing white space
   * and trimming: trimmed, single plain spaces, no forbidden character.
   */
  function CleanedName(n: string): (t: string)
    ensures IsTrimmed(t) && NoForbidden(t) && NoDoubleWhitespace(t) && OnlyPlainSpaces(t)
  {
    var r := ReplaceForbidden(n);
    CollapseSpacing(r);
    CollapseNoForbidden(r);
    TrimKeepsClean(CollapseWhitespace(r));
    Trim(CollapseWhitespace(r))
  }

  /** Trimming keeps a string free of forbidden characters and of runs of white space. */
  lemma TrimKeepsClean(c: string)
    requires NoForbidden(c) && NoDoubleWhitespace(c) && OnlyPlainSpaces(c)
    ensures var t := Trim(c);
      IsTrimmed(t) && NoForbidden(t) && NoDoubleWhitespace(t) && OnlyPlainSpaces(t)
  {
    TrimKeepsSpacing(c);
    var a := TrimSlice(c);
    NoForbiddenSlice(c, a, a + |Trim(c)|);
  }

  lemma NoForbiddenSlice(s: string, a: nat, b: nat)
    requires a <= b <= |s| && NoForbidden(s)
    ensures NoForbidden(s[a..b])
  {
    assert forall k :: 0 <= k < b - a ==> s[a..b][k] == s[a + k];
  }

  /**
   * A sanitized name is non-empty, at most `maxLen` long, free of the
   * forbidden characters, starts with a non-white-space character and holds
   * white space only as single plain spaces.
   */
  lemma SanitizeShape(name: string, default: string, maxLen: nat)
    requires CleanDefault(default, maxLen)
    ensures SafeName(Sanitize(name, default, maxLen), maxLen)
  {
    var t := CleanedName(Trim(if name == [] then default else name));
    CutShape(if t == [] then default else t, maxLen);
  }

  /** Cutting a clean, non-empty name that starts with a visible character keeps it safe. */
  lemma CutShape(t: string, maxLen: nat)
    requires t != [] && !IsWhitespace(t[0]) && 1 <= maxLen
    requires NoForbidden(t) && NoDoubleWhitespace(t) && OnlyPlainSpaces(t)
    ensures SafeName(if |t| > maxLen then t[..maxLen] else t, maxLen)
  {
    if |t| > maxLen {
      SliceKeepsSpacing(t, 0, maxLen);
      NoForbiddenSlice(t, 0, maxLen);
    }
  }

  /** A name that is already clean and short enough comes back unchanged. */
  lemma SanitizeKeepsClean(name: string, default: string, maxLen: nat)
    requires name != [] && |name| <= maxLen && IsTrimmed(name) && NoForbidden(name)
    requires NoDoubleWhitespace(name) && OnlyPlainSpaces(name)
    ensures Sanitize(name, default, maxLen) == name
  {
    TrimOfTrimmed(name);
    assert ReplaceForbidden(name) == name;
    CollapseOfClean(name);
    TrimOfTrimmed(name);
  }

  /**
   * Sanitizing twice is sanitizing once, unless the length cut left a space
   * at the end (which the second pass trims).
   */
  lemma SanitizeIdempotent(name: string, default: string, maxLen: nat)
    requires CleanDefault(default, maxLen)
    requires IsTrimmed(Sanitize(name, default, maxLen))
    ensures Sanitize(Sanitize(name, default, maxLen), default, maxLen) == Sanitize(name, default, maxLen)
  {
    SanitizeShape(name, default, maxLen);
    SanitizeKeepsClean(Sanitize(name, default, maxLen), default, maxLen);
  }

  lemma ReplaceOfClean(s: string)
    requires NoForbidden(s)
    ensures ReplaceForbidden(s) == s
  {
  }

  /**
   * The length cut can leave a trailing space: 79 letters, a space and a
   * letter give 79 letters and the space, whatever the default (so for
   * `sanitizeName` with its default `1688_product` too).
   */
  lemma SanitizeMayEndInSpace(letters: string, default: string)
    requires |letters| == 79 && forall k :: 0 <= k < 79 ==> letters[k] == 'a'
    ensures var r := Sanitize(letters + " b", default, 80);
      |r| == 80 && r[79] == ' ' && !IsTrimmed(r)
  {
    var name := letters + " b";
    LettersSpaceLetterClean(letters);
    assert |name| == 81 && name[79] == ' ';
    CutLeavesSpace(name, default);
  }

  /** A clean name of 81 characters with a space at index 79 is cut to a string ending in that space. */
  lemma CutLeavesSpace(name: string, default: string)
    requires name != [] && IsTrimmed(name) && NoForbidden(name)
    requires NoDoubleWhitespace(name) && OnlyPlainSpaces(name)
    requires |name| == 81 && name[79] == ' '
    ensures var r := Sanitize(name, default, 80);
      |r| == 80 && r[79] == ' ' && !IsTrimmed(r)
  {
    SanitizeCutsClean(name, default, 80);
    assert Sanitize(name, default, 80) == name[..80];
  }

  /** Letters `a`, a space and a `b` make a clean name. */
  lemma LettersSpaceLetterClean(letters: string)
    requires |letters| == 79 && forall k :: 0 <= k < 79 ==> letters[k] == 'a'
    ensures var name := letters + " b";
      name != [] && IsTrimmed(name) && NoForbidden(name)
      && NoDoubleWhitespace(name) && OnlyPlainSpaces(name)
  {
    var name := letters + " b";
    assert forall k :: 0 <= k < |name| ==> name[k] == 'a' || name[k] == ' ' || name[k] == 'b';
    assert name[0] == 'a' && name[80] == 'b';
  }

  /** A clean name is only cut to length. */
  lemma SanitizeCutsClean(name: string, default: string, maxLen: nat)
    requires name != [] && IsTrimmed(name) && NoForbidden(name)
    requires NoDoubleWhitespace(name) && OnlyPlainSpaces(name)
    ensures Sanitize(name, default, maxLen) == if |name| > maxLen then name[..maxLen] else name
  {
    TrimOfTrimmed(name);
    ReplaceOfClean(name);
    CollapseOfClean(name);
  }

  /** The two defaults are clean. */
  lemma DefaultsClean()
    ensures CleanDefault("1688_product", 80) && CleanDefault("sku", 120)
  {
  }

  /** `sanitizeName(name)`, the same in both service workers. */
  function SanitizeName(name: string): (r: string)
    ensures SafeName(r, 80)
  {
    DefaultsClean();
    SanitizeShape(name, "1688_product", 80);
    Sanitize(name, "1688_product", 80)
  }

  /** `sanitizeSkuFile(name)`. */
  function SanitizeSkuFile(name: string): (r: string)
    ensures SafeName(r, 120)
  {
    DefaultsClean();
    SanitizeShape(name, "sku", 120);
    Sanitize(name, "sku", 120)
  }

  /** A missing name gives the default. */
  lemma SanitizeMissing(default: string, maxLen: nat)
    requires CleanDefault(default, maxLen)
    ensures Sanitize([], default, maxLen) == default
  {
    TrimOfClean(default);
    ReplaceOfClean(default);
    CollapseOfClean(default);
  }

  /** A name of white space only gives the default. */
  lemma SanitizeBlank(name: string, default: string, maxLen: nat)
    requires name != [] && forall k :: 0 <= k < |name| ==> IsWhitespace(name[k])
    requires CleanDefault(default, maxLen)
    ensures Sanitize(name, default, maxLen) == default
  {
    assert Trim(name) == [];
    assert ReplaceForbidden([]) == [];
    assert CollapseWhitespace([]) == [];
    assert Trim([]) == [];
  }

  /** Missing and blank names give `'1688_product'` and `'sku'`. */
  lemma SanitizeDefaults(name: string)
    requires forall k :: 0 <= k < |name| ==> IsWhitespace(name[k])
    ensures SanitizeName(name) == "1688_product"
    ensures SanitizeSkuFile(name) == "sku"
  {
    DefaultsClean();
    if name == [] {
      SanitizeMissing("1688_product", 80);
      SanitizeMissing("sku", 120);
    } else {
      SanitizeBlank(name, "1688_product", 80);
      SanitizeBlank(name, "sku", 120);
    }
  }

  // ---- pad2 / pad3 ----

  function Zeros(k: nat): (z: string)
    ensures |z| == k && AllDigits(z)
  {
    if k == 0 then [] else ['0'] + Zeros(k - 1)
  }

  /** `pad2(n)`: `String(n)`, with one `'0'` in front when that is a single digit. */
  function Pad2(n: nat): string {
    var s := DecimalString(n);
    if |s| >= 2 then s else ['0'] + s
  }

  /** `pad3(n)`: `String(n).padStart(3, '0')`. */
  function Pad3(n: nat): string {
    var s := DecimalString(n);
    (if |s| < 3 then Zeros(3 - |s|) else []) + s
  }

  lemma {:induction false} ParseZeros(k: nat, s: string)
    requires AllDigits(s)
    ensures AllDigits(Zeros(k) + s) && ParseDecimal(Zeros(k) + s) == ParseDecimal(s)
    decreases k
  {
    if k > 0 {
      ParseZeros(k - 1, s);
      var rest := Zeros(k - 1) + s;
      assert Zeros(k) + s == ['0'] + rest;
      assert AllDigits(['0'] + rest);
      ParseLeadingZero(rest);
      assert ParseDecimal(['0'] + rest) == ParseDecimal(s);
    } else {
      assert Zeros(k) + s == s;
    }
  }

  /** `pad2` gives at least two digits, reads back as `n`, and leaves two or more digits alone. */
  lemma Pad2Value(n: nat)
    ensures |Pad2(n)| >= 2 && AllDigits(Pad2(n))
    ensures ParseDecimal(Pad2(n)) == n
    ensures n >= 10 ==> Pad2(n) == DecimalString(n)
    ensures n < 10 ==> Pad2(n) == ['0', DecimalString(n)[0]]
  {
    ParseDecimalString(n);
    var s := DecimalString(n);
    if n >= 10 {
      assert s == DecimalString(n / 10) + [DigitChar(n % 10)];
    } else {
      ParseLeadingZero(s);
    }
  }

  /** `pad3` gives at least three digits, exactly `String(n)` left-padded with zeros, and reads back as `n`. */
  lemma Pad3Value(n: nat)
    ensures |Pad3(n)| == (if |DecimalString(n)| < 3 then 3 else |DecimalString(n)|)
    ensures AllDigits(Pad3(n)) && ParseDecimal(Pad3(n)) == n
    ensures Pad3(n)[|Pad3(n)| - |DecimalString(n)|..] == DecimalString(n)
    ensures forall k :: 0 <= k < |Pad3(n)| - |DecimalString(n)| ==> Pad3(n)[k] == '0'
  {
    var s := DecimalString(n);
    ParseDecimalString(n);
    var z := if |s| < 3 then Zeros(3 - |s|) else [];
    assert z == Zeros(|z|) by {
      if |s| >= 3 {
        assert Zeros(0) == [];
      }
    }
    ParseZeros(|z|, s);
    ZerosAreZeros(|z|);
  }

  lemma {:induction false} ZerosAreZeros(k: nat)
    ensures forall j :: 0 <= j < k ==> Zeros(k)[j] == '0'
    decreases k
  {
    if k > 0 {
      ZerosAreZeros(k - 1);
    }
  }

  /** Different numbers get different `pad2` prefixes. */
  lemma Pad2Injective(m: nat, n: nat)
    requires Pad2(m) == Pad2(n)
    ensures m == n
  {
    Pad2Value(m);
    Pad2Value(n);
  }

  /** Different numbers get different `pad3` names. */
  lemma Pad3Injective(m: nat, n: nat)
    requires Pad3(m) == Pad3(n)
    ensures m == n
  {
    Pad3Value(m);
    Pad3Value(n);
  }

  // ---- guessExt / guessVideoExt ----

  /** The alternatives of `guessExt`'s pattern, in their order. */
  const ImageExts: seq<string> := ["jpg", "jpeg", "png", "webp", "gif"]

  /** The alternatives of `guessVideoExt`'s pattern. */
  const VideoExts: seq<string> := ["mp4", "m3u8", "webm", "mov"]

  /** `(\?|#|$)` holds at `e`. */
  predicate ExtEndsAt(url: string, e: nat) {
    e == |url| || (e < |url| && (url[e] == '?' || url[e] == '#'))
  }

  /** `\.ext(\?|#|$)` matches at `p`, ignoring ASCII case. */
  predicate ExtMatchesAt(url: string, p: nat, ext: string) {
    p + 1 + |ext| <= |url| && url[p] == '.'
    && EqualIgnoringCase(url[p + 1..p + 1 + |ext|], ext) && ExtEndsAt(url, p + 1 + |ext|)
  }

  /** Some alternative matches at `p`. */
  predicate AnyExtAt(url: string, p: nat, exts: seq<string>) {
    exists a :: a in exts && ExtMatchesAt(url, p, a)
  }

  /** The first alternative that matches at `p`, as the regular expression tries them. */
  function FirstAlt(url: string, p: nat, exts: seq<string>): (r: Option<string>)
    ensures r.Some? ==> r.value in exts && ExtMatchesAt(url, p, r.value)
  {
    if exts == [] then None
    else if ExtMatchesAt(url, p, exts[0]) then Some(exts[0])
    else FirstAlt(url, p, exts[1..])
  }

  /** No alternative is missed: the search fails only when none matches. */
  lemma {:induction false} FirstAltComplete(url: string, p: nat, exts: seq<string>)
    ensures FirstAlt(url, p, exts).None? <==> !AnyExtAt(url, p, exts)
  {
    if exts != [] && !ExtMatchesAt(url, p, exts[0]) {
      FirstAltComplete(url, p, exts[1..]);
      assert forall a :: a in exts ==> a == exts[0] || a in exts[1..];
    }
  }

  /** The leftmost position from `p` on where the pattern matches (`String.prototype.match` without `g`). */
  function FindExt(url: string, p: nat, exts: seq<string>): (r: int)
    ensures r == -1 || (p <= r < |url| && FirstAlt(url, r, exts).Some?)
    decreases |url| - p
  {
    if p >= |url| then -1
    else if FirstAlt(url, p, exts).Some? then p
    else FindExt(url, p + 1, exts)
  }

  /** The search is the leftmost match: nothing matches before it, and everything is tried when it fails. */
  lemma {:induction false} FindExtLeftmost(url: string, p: nat, exts: seq<string>)
    ensures var r := FindExt(url, p, exts);
      (r == -1 ==> forall q :: p <= q < |url| ==> !AnyExtAt(url, q, exts))
      && (r != -1 ==> AnyExtAt(url, r, exts) && forall q :: p <= q < r ==> !AnyExtAt(url, q, exts))
    decreases |url| - p
  {
    if p < |url| {
      FirstAltComplete(url, p, exts);
      if FirstAlt(url, p, exts).None? {
        FindExtLeftmost(url, p + 1, exts);
      }
    }
  }

  /** The lower-cased text matched by an alternative at `p` is that (lower-case) alternative. */
  lemma MatchedTextLowered(url: string, p: nat, a: string)
    requires ExtMatchesAt(url, p, a)
    requires forall k :: 0 <= k < |a| ==> !('A' <= a[k] <= 'Z')
    ensures LowerAsciiString(url[p + 1..p + 1 + |a|]) == a
  {
    assert LowerAsciiString(a) == a;
  }

  /** The file extension `m[1].toLowerCase()` of the match at `p`. */
  function MatchedExt(url: string, p: nat, exts: seq<string>): string
    requires p < |url| && FirstAlt(url, p, exts).Some?
  {
    LowerAsciiString(url[p + 1..p + 1 + |FirstAlt(url, p, exts).value|])
  }

  /** `guessExt(url)`. */
  function GuessExt(url: string): string {
    var p := FindExt(url, 0, ImageExts);
    if p == -1 then "jpg"
    else
      var ext := MatchedExt(url, p, ImageExts);
      if ext == "jpeg" then "jpg" else ext
  }

  /** `guessVideoExt(url)`. */
  function GuessVideoExt(url: string): string {
    var p := FindExt(url, 0, VideoExts);
    if p == -1 then "mp4" else MatchedExt(url, p, VideoExts)
  }

  /** The alternatives are written in lower case. */
  lemma AlternativeLower(a: string)
    requires a in ImageExts || a in VideoExts
    ensures forall k :: 0 <= k < |a| ==> !('A' <= a[k] <= 'Z')
  {
  }

  /** A match at `p` makes `guessExt` return its alternative, with `jpeg` written `jpg`. */
  lemma GuessExtMatched(url: string)
    ensures var p := FindExt(url, 0, ImageExts);
      p != -1 ==>
        var a := FirstAlt(url, p, ImageExts).value;
        GuessExt(url) == (if a == "jpeg" then "jpg" else a)
  {
    var p := FindExt(url, 0, ImageExts);
    if p != -1 {
      var a := FirstAlt(url, p, ImageExts).value;
      AlternativeLower(a);
      MatchedTextLowered(url, p, a);
      assert MatchedExt(url, p, ImageExts) == a;
    }
  }

  /**
   * `guessExt` gives one of `jpg`, `png`, `webp`, `gif`: the extension of the
   * leftmost match lower-cased, with `jpeg` written `jpg`, or `jpg` when
   * nothing matches.
   */
  lemma GuessExtRange(url: string)
    ensures GuessExt(url) in ["jpg", "png", "webp", "gif"]
    ensures (forall q :: 0 <= q < |url| ==> !AnyExtAt(url, q, ImageExts)) ==> GuessExt(url) == "jpg"
    ensures var p := FindExt(url, 0, ImageExts);
      p != -1 ==>
        var a := FirstAlt(url, p, ImageExts).value;
        GuessExt(url) == (if a == "jpeg" then "jpg" else a)
  {
    FindExtLeftmost(url, 0, ImageExts);
    GuessExtMatched(url);
    var p := FindExt(url, 0, ImageExts);
    if p != -1 {
      assert FirstAlt(url, p, ImageExts).value in ImageExts;
    }
  }

  /** A match at `p` makes `guessVideoExt` return its alternative. */
  lemma GuessVideoExtMatched(url: string)
    ensures var p := FindExt(url, 0, VideoExts);
      p != -1 ==> GuessVideoExt(url) == FirstAlt(url, p, VideoExts).value
  {
    var p := FindExt(url, 0, VideoExts);
    if p != -1 {
      var a := FirstAlt(url, p, VideoExts).value;
      AlternativeLower(a);
      MatchedTextLowered(url, p, a);
      assert MatchedExt(url, p, VideoExts) == a;
    }
  }

  /**
   * `guessVideoExt` gives one of `mp4`, `m3u8`, `webm`, `mov`: the alternative
   * matched at the leftmost match, or `mp4` when nothing matches.
   */
  lemma GuessVideoExtRange(url: string)
    ensures GuessVideoExt(url) in VideoExts
    ensures (forall q :: 0 <= q < |url| ==> !AnyExtAt(url, q, VideoExts)) ==> GuessVideoExt(url) == "mp4"
    ensures var p := FindExt(url, 0, VideoExts);
      p != -1 ==> GuessVideoExt(url) == FirstAlt(url, p, VideoExts).value
  {
    FindExtLeftmost(url, 0, VideoExts);
    GuessVideoExtMatched(url);
  }

  // ---- file names ----

  /** `${folder}/${sub}/${pad3(idx)}.${ext}`. */
  function NumberedPath(folder: string, sub: string, idx: nat, ext: string): string {
    folder + "/" + sub + "/" + Pad3(idx) + "." + ext
  }

  /** `downloadOne(folder, sub, idx, url)`, the extension guessed from the URL. */
  function NumberedFile(folder: string, sub: string, idx: nat, url: string): string {
    NumberedPath(folder, sub, idx, GuessExt(url))
  }

  /** `${folder}/video.${ext}`. */
  function VideoPath(folder: string, ext: string): string {
    folder + "/video." + ext
  }

  /** `downloadVideoBase(folder, url)`, the extension guessed from the URL. */
  function VideoFile(folder: string, url: string): string {
    VideoPath(folder, GuessVideoExt(url))
  }

  /** The video lies directly in the product folder. */
  lemma VideoPathShape(folder: string, ext: string)
    ensures VideoPath(folder, ext) == folder + "/" + ("video." + ext)
  { }

  /** The `_n` suffix of the n-th file with the same SKU name. */
  function RepeatSuffix(n: nat): string {
    if n > 1 then "_" + DecimalString(n) else ""
  }

  /** `${productName}/sku/${seqPrefix}_${baseName}${suffix}.${ext}`. */
  function SkuPath(productName: string, seqNo: nat, baseName: string, n: nat, ext: string): string {
    productName + "/sku/" + Pad2(seqNo) + "_" + (baseName + RepeatSuffix(n) + "." + ext)
  }

  /** The SKU file of URL `url`, the extension guessed from the URL. */
  function SkuFile(productName: string, seqNo: nat, baseName: string, n: nat, url: string): string {
    SkuPath(productName, seqNo, baseName, n, GuessExt(url))
  }

  /** A SKU file lies in the `sku` sub-folder of the product folder. */
  lemma SkuPathShape(productName: string, s: nat, b: string, n: nat, x: string)
    ensures SkuPath(productName, s, b, n, x)
      == productName + "/" + ("sku" + ['/'] + (Pad2(s) + "_" + (b + RepeatSuffix(n) + "." + x)))
  {
  }

  lemma DigitsHaveNoMark(s: string, c: char)
    requires AllDigits(s) && !IsDigit(c)
    ensures c !in s
  {
  }

  lemma CancelHead(h: string, x: string, y: string)
    requires h + x == h + y
    ensures x == y
  {
    assert x == (h + x)[|h|..];
    assert y == (h + y)[|h|..];
  }

  /** Names that put different digit strings between the same head and a non-digit mark differ. */
  lemma DigitFieldsDistinct(h: string, p: string, q: string, c: char, x: string, y: string)
    requires AllDigits(p) && AllDigits(q) && !IsDigit(c) && p != q
    ensures h + p + [c] + x != h + q + [c] + y
  {
    if h + p + [c] + x == h + q + [c] + y {
      assert h + p + [c] + x == h + (p + [c] + x);
      assert h + q + [c] + y == h + (q + [c] + y);
      CancelHead(h, p + [c] + x, q + [c] + y);
      DigitsHaveNoMark(p, c);
      DigitsHaveNoMark(q, c);
      SeparatorSplit(p, q, x, y, c);
    }
  }

  /** Within one folder, different numbers give different numbered files. */
  lemma NumberedFilesDistinct(folder: string, sub: string, i: nat, j: nat, x: string, y: string)
    requires i != j
    ensures NumberedPath(folder, sub, i, x) != NumberedPath(folder, sub, j, y)
  {
    Pad3Value(i);
    Pad3Value(j);
    if Pad3(i) == Pad3(j) {
      Pad3Injective(i, j);
    }
    DigitFieldsDistinct(folder + "/" + sub + "/", Pad3(i), Pad3(j), '.', x, y);
  }

  /** A numbered file lies in sub-folder `sub` of the folder. */
  lemma NumberedPathShape(folder: string, sub: string, i: nat, x: string)
    ensures NumberedPath(folder, sub, i, x) == folder + "/" + (sub + ['/'] + (Pad3(i) + "." + x))
  {
  }

  /** Paths that differ in a `/`-free sub-folder name differ. */
  lemma FolderApart(h: string, sub: string, sub': string, x: string, y: string)
    requires sub != sub' && '/' !in sub && '/' !in sub'
    ensures h + (sub + ['/'] + x) != h + (sub' + ['/'] + y)
  {
    if h + (sub + ['/'] + x) == h + (sub' + ['/'] + y) {
      CancelHead(h, sub + ['/'] + x, sub' + ['/'] + y);
      SeparatorSplit(sub, sub', x, y, '/');
    }
  }

  /** Numbered files in different sub-folders (names without `/`) are different. */
  lemma SubFoldersSeparate(folder: string, sub: string, sub': string, i: nat, j: nat, x: string, y: string)
    requires sub != sub' && '/' !in sub && '/' !in sub'
    ensures NumberedPath(folder, sub, i, x) != NumberedPath(folder, sub', j, y)
  {
    NumberedPathShape(folder, sub, i, x);
    NumberedPathShape(folder, sub', j, y);
    FolderApart(folder + "/", sub, sub', Pad3(i) + "." + x, Pad3(j) + "." + y);
  }

  /** Different sequence numbers give different SKU files, whatever the names. */
  lemma SkuFilesDistinct(productName: string, s: nat, t: nat, b: string, b': string, n: nat, n': nat, x: string, y: string)
    requires s != t
    ensures SkuPath(productName, s, b, n, x) != SkuPath(productName, t, b', n', y)
  {
    Pad2Value(s);
    Pad2Value(t);
    if Pad2(s) == Pad2(t) {
      Pad2Injective(s, t);
    }
    DigitFieldsDistinct(productName + "/sku/", Pad2(s), Pad2(t), '_', b + RepeatSuffix(n) + "." + x, b' + RepeatSuffix(n') + "." + y);
  }
}
