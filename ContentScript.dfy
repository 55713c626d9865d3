/**
 * The page-side helpers of the 1688 image scraper's content script: the
 * blank and protocol-relative cases of `normalizeUrl`, `cleanProductTitle`,
 * `isLikelySupplierName`, and the choice of the product name among the title
 * candidates `getProductName` gathers. (`uniq` is `Lists.Uniq`.)
 */
module ContentScript {
  import opened Wrappers
  import opened Strings

  // ---- normalizeUrl: the missing, blank and `//` cases ----

  /**
   * A missing or blank URL gives `null` (`None`); otherwise the trimmed URL,
   * with the page's `protocol` in front when it starts with `//`.
   */
  function NormalizeUrlHead(u: Option<string>, protocol: string): Option<string> {
    if u.None? || u.value == [] then None
    else
      var t := Trim(u.value);
      if t == [] then None
      else if StartsWith(t, "//") then Some(protocol + t)
      else Some(t)
  }

  /** A protocol such as `https:`: it starts with neither white space nor a slash. */
  predicate PlainProtocol(protocol: string) {
    protocol != [] && !IsWhitespace(protocol[0]) && protocol[0] != '/'
  }

  /**
   * The result is missing exactly for a missing or blank URL; otherwise it
   * ends with the trimmed URL, is trimmed itself, and no longer starts with
   * `//` once the protocol is a plain one.
   */
  lemma NormalizeUrlHeadShape(u: Option<string>, protocol: string)
    ensures NormalizeUrlHead(u, protocol).None? <==> (u.None? || IsBlank(u.value))
    ensures NormalizeUrlHead(u, protocol).Some? ==>
      (var r := NormalizeUrlHead(u, protocol).value;
       var t := Trim(u.value);
       t != [] && |t| <= |r| && r[|r| - |t|..] == t
       && (PlainProtocol(protocol) ==> IsTrimmed(r) && !StartsWith(r, "//")))
  {
    if u.Some? {
      TrimEmptyIffBlank(u.value);
      var t := Trim(u.value);
      if t != [] {
        ProtocolPrefixShape(t, protocol);
      }
    }
  }

  /** Putting the protocol in front of a trimmed `//` URL keeps the URL at the end. */
  lemma ProtocolPrefixShape(t: string, protocol: string)
    requires t != [] && IsTrimmed(t)
    ensures var r := if StartsWith(t, "//") then protocol + t else t;
      |t| <= |r| && r[|r| - |t|..] == t
      && (PlainProtocol(protocol) ==> IsTrimmed(r) && !StartsWith(r, "//"))
  {
    if StartsWith(t, "//") {
      var r := protocol + t;
      assert r[|r| - |t|..] == t;
      if PlainProtocol(protocol) {
        assert r[0] == protocol[0];
        assert r[|r| - 1] == t[|t| - 1];
      }
    }
  }

  /** With a plain protocol, normalizing a normalized URL changes nothing. */
  lemma NormalizeUrlHeadIdempotent(u: Option<string>, protocol: string)
    requires PlainProtocol(protocol)
    ensures NormalizeUrlHead(NormalizeUrlHead(u, protocol), protocol) == NormalizeUrlHead(u, protocol)
  {
    NormalizeUrlHeadShape(u, protocol);
    var r := NormalizeUrlHead(u, protocol);
    if r.Some? {
      NormalizedIsFixed(r.value, protocol);
    }
  }

  lemma NormalizedIsFixed(v: string, protocol: string)
    requires v != [] && IsTrimmed(v) && !StartsWith(v, "//")
    ensures NormalizeUrlHead(Some(v), protocol) == Some(v)
  {
    TrimOfTrimmed(v);
  }

  // ---- cleanProductTitle ----

  /** `w` at position `e` of `s`: exactly, or (`ignoreCase`) up to ASCII letter case. */
  predicate WordAt(s: string, e: int, w: string, ignoreCase: bool) {
    0 <= e && e + |w| <= |s|
    && (if ignoreCase then EqualIgnoringCase(s[e..e + |w|], w) else s[e..e + |w|] == w)
  }

  /** `s[p..]` matches `\s*-\s*w\s*$`: white space, a dash, white space, the word, white space to the end. */
  ghost predicate DashSuffixAt(s: string, p: int, w: string, ignoreCase: bool) {
    0 <= p <= |s| && exists d, e :: MatchParts(s, p, d, e, w, ignoreCase)
  }

  /** The match at `p` with its dash at `d` and its word at `e`. */
  predicate MatchParts(s: string, p: int, d: int, e: int, w: string, ignoreCase: bool) {
    0 <= p <= d < e <= |s| && IsBlank(s[p..d]) && s[d] == '-' && IsBlank(s[d + 1..e])
    && WordAt(s, e, w, ignoreCase) && IsBlank(s[e + |w|..])
  }

  /**
   * Where the match of `\s*-\s*w\s*$` starts, read from the end: past the
   * trailing white space, the word, the white space before it, the dash and
   * the white space before that; -1 when there is no match.
   */
  function DashSuffixStart(s: string, w: string, ignoreCase: bool): (p: int)
    ensures -1 <= p <= |s|
  {
    WordSuffixStart(s, |TrimEnd(s)|, w, ignoreCase)
  }

  /** Where the match starts when the trailing white space begins at `end`. */
  function WordSuffixStart(s: string, end: nat, w: string, ignoreCase: bool): (p: int)
    requires end <= |s|
    ensures -1 <= p <= |s|
  {
    if end < |w| || !WordAt(s, end - |w|, w, ignoreCase) then -1
    else DashStart(s, end - |w|)
  }

  /** Where `\s*-\s*` ending at `e` starts; -1 when no dash precedes the white space before `e`. */
  function DashStart(s: string, e: nat): (p: int)
    requires e <= |s|
    ensures -1 <= p < e
  {
    var dash := |TrimEnd(s[..e])|;
    if dash == 0 || s[dash - 1] != '-' then -1
    else |TrimEnd(s[..dash - 1])|
  }

  /** `s.replace(/\s*-\s*w\s*$/, '')`, with the `i` flag when `ignoreCase`. */
  function StripDashSuffix(s: string, w: string, ignoreCase: bool): string {
    var p := DashSuffixStart(s, w, ignoreCase);
    if p < 0 then s else s[..p]
  }

  /** ASCII lower-casing maps white space to white space and nothing else to it. */
  lemma LowerKeepsWhitespace(c: char)
    ensures IsWhitespace(LowerAscii(c)) <==> IsWhitespace(c)
  {
  }

  /** The text after `TrimEnd(s)` is blank. */
  lemma TrimEndRest(s: string)
    ensures IsBlank(s[|TrimEnd(s)|..])
  {
    var n := |TrimEnd(s)|;
    assert forall k :: 0 <= k < |s| - n ==> s[n..][k] == s[n + k];
  }

  /** A match of the pattern ends its word where the trailing white space of `s` begins. */
  lemma MatchedWordEnd(s: string, d: int, e: int, w: string, ignoreCase: bool)
    requires w != [] && !IsWhitespace(w[|w| - 1])
    requires WordAt(s, e, w, ignoreCase) && IsBlank(s[e + |w|..])
    ensures |TrimEnd(s)| == e + |w|
  {
    var m := e + |w|;
    var last := s[m - 1];
    assert last == s[e..m][|w| - 1];
    if ignoreCase {
      assert LowerAsciiString(s[e..m])[|w| - 1] == LowerAsciiString(w)[|w| - 1];
      LowerKeepsWhitespace(last);
      LowerKeepsWhitespace(w[|w| - 1]);
    }
    TrimEndUnique(s, m);
  }

  /** The computed start is a match. */
  lemma DashSuffixStartMatches(s: string, w: string, ignoreCase: bool)
    requires DashSuffixStart(s, w, ignoreCase) >= 0
    ensures DashSuffixAt(s, DashSuffixStart(s, w, ignoreCase), w, ignoreCase)
  {
    var end := |TrimEnd(s)|;
    var e := end - |w|;
    var dash := |TrimEnd(s[..e])|;
    var p := |TrimEnd(s[..dash - 1])|;
    var d := dash - 1;
    TrimEndRest(s);
    TrimEndRest(s[..e]);
    TrimEndRest(s[..d]);
    assert s[..e][dash..] == s[d + 1..e];
    assert s[..d][p..] == s[p..d];
    assert s[e + |w|..] == s[end..];
    assert MatchParts(s, p, d, e, w, ignoreCase);
  }

  /** No match starts before the computed one, and there is one whenever any position matches. */
  lemma DashSuffixStartLeftmost(s: string, q: int, w: string, ignoreCase: bool)
    requires w != [] && !IsWhitespace(w[|w| - 1])
    requires DashSuffixAt(s, q, w, ignoreCase)
    ensures 0 <= DashSuffixStart(s, w, ignoreCase) <= q
  {
    var d, e :| MatchParts(s, q, d, e, w, ignoreCase);
    MatchedWordEnd(s, d, e, w, ignoreCase);
    DashBeforeWord(s, d, e);
    BlankBeforeDash(s, q, d);
    DashSuffixStartValue(s, w, ignoreCase, d, e);
  }

  /** The computed start, once the word and the dash are located. */
  lemma DashSuffixStartValue(s: string, w: string, ignoreCase: bool, d: nat, e: nat)
    requires d < e && |TrimEnd(s)| == e + |w| && WordAt(s, e, w, ignoreCase)
    requires |TrimEnd(s[..e])| == d + 1 && s[d] == '-'
    ensures DashSuffixStart(s, w, ignoreCase) == |TrimEnd(s[..d])|
  {
    WordSuffixStartValue(s, w, ignoreCase, d, e);
  }

  lemma WordSuffixStartValue(s: string, w: string, ignoreCase: bool, d: nat, e: nat)
    requires d < e && e + |w| <= |s| && WordAt(s, e, w, ignoreCase)
    requires |TrimEnd(s[..e])| == d + 1 && s[d] == '-'
    ensures WordSuffixStart(s, e + |w|, w, ignoreCase) == |TrimEnd(s[..d])|
  {
    DashStartValue(s, e, d);
  }

  lemma DashStartValue(s: string, e: nat, d: nat)
    requires d < e <= |s| && |TrimEnd(s[..e])| == d + 1 && s[d] == '-'
    ensures DashStart(s, e) == |TrimEnd(s[..d])|
  {
  }

  /** The dash of a match is the last character before the white space that precedes the word. */
  lemma DashBeforeWord(s: string, d: nat, e: nat)
    requires d < e <= |s| && s[d] == '-' && IsBlank(s[d + 1..e])
    ensures |TrimEnd(s[..e])| == d + 1
  {
    assert s[..e][d + 1..] == s[d + 1..e];
    assert s[..e][d] == '-';
    TrimEndUnique(s[..e], d + 1);
  }

  /** White space from `q` up to `d` is all trimmed away from `s[..d]`. */
  lemma BlankBeforeDash(s: string, q: nat, d: nat)
    requires q <= d <= |s| && IsBlank(s[q..d])
    ensures |TrimEnd(s[..d])| <= q
  {
  }

  /**
   * The replacement removes the leftmost match of `\s*-\s*w\s*$` and all
   * that follows it, and changes nothing when there is no match (for a word
   * that does not end in white space).
   */
  lemma StripDashSuffixSpec(s: string, w: string, ignoreCase: bool)
    requires w != [] && !IsWhitespace(w[|w| - 1])
    ensures var r := StripDashSuffix(s, w, ignoreCase);
      |r| <= |s| && r == s[..|r|]
      && ((forall q :: !DashSuffixAt(s, q, w, ignoreCase)) ==> r == s)
      && (forall q :: DashSuffixAt(s, q, w, ignoreCase) ==> DashSuffixAt(s, |r|, w, ignoreCase) && |r| <= q)
  {
    var p := DashSuffixStart(s, w, ignoreCase);
    if p >= 0 {
      DashSuffixStartMatches(s, w, ignoreCase);
    }
    forall q | DashSuffixAt(s, q, w, ignoreCase)
      ensures DashSuffixAt(s, |StripDashSuffix(s, w, ignoreCase)|, w, ignoreCase)
      ensures |StripDashSuffix(s, w, ignoreCase)| <= q
    {
      DashSuffixStartLeftmost(s, q, w, ignoreCase);
    }
  }

  /** The suffix the marketplace puts on its page titles. */
  const MarketplaceSuffix := "阿里巴巴"
  /** The site suffix, matched without regard to ASCII case. */
  const SiteSuffix := "1688.com"

  /**
   * `cleanProductTitle`: every white-space run becomes one space, the
   * result is trimmed, then a trailing `-` + marketplace suffix and then a
   * trailing `-` + `1688.com` (any case) are removed, trimming after each.
   */
  function CleanProductTitle(s: string): string {
    if s == [] then []
    else StripAndTrim(StripAndTrim(Collapsed(s), MarketplaceSuffix, false), SiteSuffix, true)
  }

  /** The whitespace-collapsed, trimmed title. */
  function Collapsed(s: string): string {
    Trim(CollapseWhitespace(s))
  }

  /** One `replace(...)` followed by `trim()`. */
  function StripAndTrim(s: string, w: string, ignoreCase: bool): string {
    Trim(StripDashSuffix(s, w, ignoreCase))
  }

  /** Trimmed, single plain spaces only. */
  predicate TidyTitle(s: string) {
    IsTrimmed(s) && NoDoubleWhitespace(s) && OnlyPlainSpaces(s)
  }

  /** Trimming a prefix of a string that does not start with white space gives a prefix of it. */
  lemma TrimOfPrefix(a: string, m: nat)
    requires m <= |a| && (a == [] || !IsWhitespace(a[0]))
    ensures var t := Trim(a[..m]);
      |t| <= m && t == a[..|t|]
  {
    if m > 0 {
      assert a[..m][0] == a[0];
    }
    TrimNoLead(a[..m]);
    var t := TrimEnd(a[..m]);
    assert a[..m][..|t|] == a[..|t|];
  }

  /** A strip-and-trim step keeps a prefix of a string that does not start with white space. */
  lemma StripPrefix(a: string, w: string, ignoreCase: bool)
    requires a == [] || !IsWhitespace(a[0])
    ensures var t := StripAndTrim(a, w, ignoreCase);
      |t| <= |a| && t == a[..|t|] && IsTrimmed(t)
  {
    var p := DashSuffixStart(a, w, ignoreCase);
    var m := if p < 0 then |a| else p;
    assert StripDashSuffix(a, w, ignoreCase) == a[..m];
    TrimOfPrefix(a, m);
  }

  lemma PrefixOfPrefix(a: string, b: string, c: string)
    requires |b| <= |a| && b == a[..|b|] && |c| <= |b| && c == b[..|c|]
    ensures c == a[..|c|]
  {
    assert a[..|b|][..|c|] == a[..|c|];
  }

  /** A strip-and-trim step keeps a title tidy. */
  lemma StripTidy(a: string, w: string, ignoreCase: bool)
    requires TidyTitle(a)
    ensures TidyTitle(StripAndTrim(a, w, ignoreCase))
  {
    StripPrefix(a, w, ignoreCase);
    var t := StripAndTrim(a, w, ignoreCase);
    SliceKeepsSpacing(a, 0, |t|);
    assert a[0..|t|] == t;
  }

  lemma CollapsedIsTidy(s: string)
    ensures TidyTitle(Collapsed(s))
  {
    CollapseSpacing(s);
    TrimKeepsSpacing(CollapseWhitespace(s));
  }

  /**
   * The clean title is a tidy prefix of the collapsed, trimmed title:
   * trimmed, with single plain spaces only; empty input gives `''`.
   */
  lemma CleanProductTitleShape(s: string)
    ensures TidyTitle(CleanProductTitle(s))
    ensures var r := CleanProductTitle(s);
      |r| <= |Collapsed(s)| && r == Collapsed(s)[..|r|]
    ensures s == [] ==> CleanProductTitle(s) == []
  {
    if s != [] {
      CollapsedIsTidy(s);
      TwoStripsTidy(Collapsed(s), MarketplaceSuffix, false, SiteSuffix, true);
      TwoStripsPrefix(Collapsed(s), MarketplaceSuffix, false, SiteSuffix, true);
    }
  }

  lemma TwoStripsTidy(a: string, w: string, ic: bool, w': string, ic': bool)
    requires TidyTitle(a)
    ensures TidyTitle(StripAndTrim(StripAndTrim(a, w, ic), w', ic'))
  {
    StripTidy(a, w, ic);
    StripTidy(StripAndTrim(a, w, ic), w', ic');
  }

  /** Two strip-and-trim steps leave a prefix of a trimmed string. */
  lemma TwoStripsPrefix(a: string, w: string, ic: bool, w': string, ic': bool)
    requires IsTrimmed(a)
    ensures var c := StripAndTrim(StripAndTrim(a, w, ic), w', ic');
      |c| <= |a| && c == a[..|c|]
  {
    StripPrefix(a, w, ic);
    var b := StripAndTrim(a, w, ic);
    StripPrefix(b, w', ic');
    var c := StripAndTrim(b, w', ic');
    PrefixOfPrefix(a, b, c);
  }

  /** A title that ends in neither suffix comes back collapsed and trimmed, and nothing more. */
  lemma CleanProductTitleNoSuffix(s: string)
    requires s != []
    requires forall q :: !DashSuffixAt(Collapsed(s), q, MarketplaceSuffix, false)
    requires forall q :: !DashSuffixAt(Collapsed(s), q, SiteSuffix, true)
    ensures CleanProductTitle(s) == Collapsed(s)
  {
    var a := Collapsed(s);
    StripDashSuffixSpec(a, MarketplaceSuffix, false);
    StripDashSuffixSpec(a, SiteSuffix, true);
    TrimOfTrimmed(a);
  }

  /** A title ending in `- ` + the marketplace suffix loses it and everything from the match on. */
  lemma CleanProductTitleStripsMarketplace(s: string, q: int)
    requires s != [] && DashSuffixAt(Collapsed(s), q, MarketplaceSuffix, false)
    ensures |CleanProductTitle(s)| <= q
  {
    var a := Collapsed(s);
    StripDashSuffixSpec(a, MarketplaceSuffix, false);
    var b := StripAndTrim(a, MarketplaceSuffix, false);
    assert |b| <= |StripDashSuffix(a, MarketplaceSuffix, false)|;
    StripPrefix(b, SiteSuffix, true);
  }

  /** The last character before the trailing white space of a matching string is the word's last one. */
  lemma MatchLastChar(s: string, q: int, w: string, ignoreCase: bool)
    requires w != [] && !IsWhitespace(w[|w| - 1])
    requires DashSuffixAt(s, q, w, ignoreCase)
    ensures var n := |TrimEnd(s)|;
      n >= |w| && (if ignoreCase then LowerAscii(s[n - 1]) == LowerAscii(w[|w| - 1]) else s[n - 1] == w[|w| - 1])
  {
    var d, e :| MatchParts(s, q, d, e, w, ignoreCase);
    MatchedWordEnd(s, d, e, w, ignoreCase);
    WordLastChar(s, e, w, ignoreCase);
  }

  /** The last character of a word matched at `e` is the word's last one, up to case when case is ignored. */
  lemma WordLastChar(s: string, e: int, w: string, ignoreCase: bool)
    requires w != [] && WordAt(s, e, w, ignoreCase)
    ensures var n := e + |w|;
      if ignoreCase then LowerAscii(s[n - 1]) == LowerAscii(w[|w| - 1]) else s[n - 1] == w[|w| - 1]
  {
    var n := e + |w|;
    assert s[e..n][|w| - 1] == s[n - 1];
    if ignoreCase {
      assert LowerAsciiString(s[e..n])[|w| - 1] == LowerAsciiString(w)[|w| - 1];
    }
  }

  /** The two suffixes cannot both end a string: their last letters differ in every case. */
  lemma SuffixesExclusive(a: string, q: int, q': int)
    requires DashSuffixAt(a, q, SiteSuffix, true)
    ensures !DashSuffixAt(a, q', MarketplaceSuffix, false)
  {
    SuffixesEndPlain();
    MatchLastChar(a, q, SiteSuffix, true);
    if DashSuffixAt(a, q', MarketplaceSuffix, false) {
      MatchLastChar(a, q', MarketplaceSuffix, false);
      assert false;
    }
  }

  /** A title ending in `- 1688.com` (any case) loses it and everything from the match on. */
  lemma CleanProductTitleStripsSite(s: string, q: int)
    requires s != [] && DashSuffixAt(Collapsed(s), q, SiteSuffix, true)
    ensures |CleanProductTitle(s)| <= q
  {
    var a := Collapsed(s);
    CollapsedIsTidy(s);
    SiteStripOnly(a, q);
  }

  /** A tidy title ending in the site suffix at `q` has no marketplace suffix, and both steps cut at `q` or before. */
  lemma SiteStripOnly(a: string, q: int)
    requires TidyTitle(a) && DashSuffixAt(a, q, SiteSuffix, true)
    ensures |StripAndTrim(StripAndTrim(a, MarketplaceSuffix, false), SiteSuffix, true)| <= q
  {
    SuffixesEndPlain();
    forall q' ensures !DashSuffixAt(a, q', MarketplaceSuffix, false) {
      SuffixesExclusive(a, q, q');
    }
    SecondStripOnly(a, MarketplaceSuffix, false, SiteSuffix, true, q);
  }

  /** Both suffixes are non-empty and end in a character that is not white space. */
  lemma SuffixesEndPlain()
    ensures MarketplaceSuffix != [] && !IsWhitespace(MarketplaceSuffix[|MarketplaceSuffix| - 1])
    ensures SiteSuffix != [] && !IsWhitespace(SiteSuffix[|SiteSuffix| - 1])
  {
  }

  /** When the first word does not match and the second does at `q`, the two steps cut at `q` or before. */
  lemma SecondStripOnly(a: string, w: string, ic: bool, w': string, ic': bool, q: int)
    requires IsTrimmed(a) && w != [] && !IsWhitespace(w[|w| - 1]) && w' != [] && !IsWhitespace(w'[|w'| - 1])
    requires forall q' :: !DashSuffixAt(a, q', w, ic)
    requires DashSuffixAt(a, q, w', ic')
    ensures |StripAndTrim(StripAndTrim(a, w, ic), w', ic')| <= q
  {
    StripWithoutMatch(a, w, ic);
    StripWithMatch(a, w', ic', q);
  }

  /** A trimmed string without a match comes back unchanged. */
  lemma StripWithoutMatch(a: string, w: string, ic: bool)
    requires IsTrimmed(a) && w != [] && !IsWhitespace(w[|w| - 1])
    requires forall q' :: !DashSuffixAt(a, q', w, ic)
    ensures StripAndTrim(a, w, ic) == a
  {
    StripDashSuffixSpec(a, w, ic);
    TrimOfTrimmed(a);
  }

  /** A string with a match at `q` is cut at `q` or before. */
  lemma StripWithMatch(a: string, w: string, ic: bool, q: int)
    requires w != [] && !IsWhitespace(w[|w| - 1])
    requires DashSuffixAt(a, q, w, ic)
    ensures |StripAndTrim(a, w, ic)| <= q
  {
    StripDashSuffixSpec(a, w, ic);
    assert |StripAndTrim(a, w, ic)| <= |StripDashSuffix(a, w, ic)|;
  }

  // ---- isLikelySupplierName ----

  /** The words that mark a shop or supplier name rather than a product title. */
  const SupplierKeywords: seq<string> := [
    "选品中心", "供应商", "厂家", "工厂",
    "公司", "商行", "店", "旗舰店", "专营店",
    "官方", "国际", "中心", "集团", "企业",
    "批发", "市场", "仓", "仓库", "店铺"]

  /** Whether `w` occurs in `s` at position `p` or later. */
  function OccursFrom(s: string, w: string, p: nat): bool
    decreases |s| - p
  {
    if p + |w| > |s| then false
    else s[p..p + |w|] == w || OccursFrom(s, w, p + 1)
  }

  /** Whether one of `ws` occurs in `s` (the alternation's `test`). */
  function ContainsAny(s: string, ws: seq<string>): bool {
    ws != [] && (OccursFrom(s, ws[0], 0) || ContainsAny(s, ws[1..]))
  }

  /** `isLikelySupplierName`: false for `''`; true when a keyword occurs or the name is shorter than 8. */
  function IsLikelySupplierName(s: string): bool {
    s != [] && (ContainsAny(s, SupplierKeywords) || |s| < 8)
  }

  lemma {:induction false} OccursFromSpec(s: string, w: string, p: nat)
    ensures OccursFrom(s, w, p) <==> exists q :: p <= q && OccursAt(s, q, w)
    decreases |s| - p
  {
    if p + |w| <= |s| {
      OccursFromSpec(s, w, p + 1);
      if s[p..p + |w|] == w {
        assert OccursAt(s, p, w);
      }
      if !OccursFrom(s, w, p) {
        forall q | p <= q ensures !OccursAt(s, q, w) {
          if q > p {
            assert !OccursAt(s, q, w);
          }
        }
      }
    }
  }

  lemma {:induction false} ContainsAnySpec(s: string, ws: seq<string>)
    ensures ContainsAny(s, ws) <==> exists k, q :: 0 <= k < |ws| && OccursAt(s, q, ws[k])
  {
    if ws != [] {
      OccursFromSpec(s, ws[0], 0);
      ContainsAnySpec(s, ws[1..]);
      if ContainsAny(s, ws[1..]) {
        var k, q :| 0 <= k < |ws[1..]| && OccursAt(s, q, ws[1..][k]);
        assert OccursAt(s, q, ws[k + 1]);
      }
      if exists k, q :: 0 <= k < |ws| && OccursAt(s, q, ws[k]) {
        var k, q :| 0 <= k < |ws| && OccursAt(s, q, ws[k]);
        if k > 0 {
          assert OccursAt(s, q, ws[1..][k - 1]);
        }
      }
    }
  }

  /**
   * A name is likely a supplier's exactly when it is not empty and either is
   * shorter than 8 characters or has a supplier keyword somewhere in it.
   */
  lemma SupplierNameRule(s: string)
    ensures IsLikelySupplierName(s) <==>
      (s != [] && (|s| < 8 || exists k, q :: 0 <= k < |SupplierKeywords| && OccursAt(s, q, SupplierKeywords[k])))
  {
    ContainsAnySpec(s, SupplierKeywords);
  }

  // ---- the choice of the product name ----

  const DefaultProductName := "1688_product"

  /** A candidate to stop at: ten characters or more, and not supplier-like. */
  predicate IsGoodTitle(t: string) {
    |t| >= 10 && !IsLikelySupplierName(t)
  }

  /** Every candidate, trimmed. */
  function TrimAll(cs: seq<string>): (ts: seq<string>)
    ensures |ts| == |cs| && forall k :: 0 <= k < |cs| ==> ts[k] == Trim(cs[k])
  {
    seq(|cs|, k requires 0 <= k < |cs| => Trim(cs[k]))
  }

  /** The first candidate whose trim is a good title, trimmed. */
  function FirstGood(cs: seq<string>): Option<string> {
    FirstPassingFrom(TrimAll(cs), 0, IsGoodTitle)
  }

  /** The first string from position `i` on that satisfies `good`. */
  function FirstPassingFrom(ts: seq<string>, i: nat, good: string -> bool): Option<string>
    requires i <= |ts|
    decreases |ts| - i
  {
    if i == |ts| then None
    else if good(ts[i]) then Some(ts[i])
    else FirstPassingFrom(ts, i + 1, good)
  }

  /** The first of the longest strings: what a stable sort by decreasing length puts first. */
  function FirstLongest(cs: seq<string>): string
    requires cs != []
  {
    if |cs| == 1 then cs[0]
    else
      var r := FirstLongest(cs[1..]);
      if |r| > |cs[0]| then r else cs[0]
  }

  /** The name `getProductName` picks from its candidates. */
  function ChooseProductName(cs: seq<string>): string {
    match FirstGood(cs)
    case Some(t) => t
    case None =>
      var ne := NonEmpty(cs);
      if ne == [] then DefaultProductName else FirstLongest(ne)
  }

  /** The loop with its early return, then the longest non-empty candidate, then the default. */
  method SelectProductName(candidates: seq<string>) returns (name: string)
    ensures name == ChooseProductName(candidates)
  {
    var found := FindGoodTitle(candidates);
    if found.Some? {
      return found.value;
    }
    var nonEmpty := NonEmpty(candidates);
    if nonEmpty == [] {
      name := DefaultProductName;
    } else {
      name := FirstLongest(nonEmpty);
    }
  }

  /** The loop over the candidates: the first trimmed one that is a good title. */
  method FindGoodTitle(candidates: seq<string>) returns (found: Option<string>)
    ensures found == FirstGood(candidates)
  {
    var i := 0;
    while i < |candidates|
      invariant 0 <= i <= |candidates|
      invariant FirstGood(candidates) == FirstPassingFrom(TrimAll(candidates), i, IsGoodTitle)
    {
      GoodTitleStep(candidates, i);
      var t := Trim(candidates[i]);
      if t == [] {
        i := i + 1;
        continue;
      }
      if IsGoodTitle(t) {
        return Some(t);
      }
      i := i + 1;
    }
    found := None;
  }

  lemma GoodTitleStep(cs: seq<string>, i: nat)
    requires i < |cs|
    ensures FirstPassingFrom(TrimAll(cs), i, IsGoodTitle)
      == if IsGoodTitle(Trim(cs[i])) then Some(Trim(cs[i])) else FirstPassingFrom(TrimAll(cs), i + 1, IsGoodTitle)
  {
  }

  /** The first string from `i` on that passes: its position, and no string between passes. */
  lemma {:induction false} FirstPassingSpec(ts: seq<string>, i: nat, good: string -> bool)
    requires i <= |ts|
    ensures FirstPassingFrom(ts, i, good).Some? ==>
      exists k :: i <= k < |ts| && FirstPassingFrom(ts, i, good).value == ts[k] && good(ts[k])
                  && forall j :: i <= j < k ==> !good(ts[j])
    ensures FirstPassingFrom(ts, i, good).None? ==> forall k :: i <= k < |ts| ==> !good(ts[k])
    decreases |ts| - i
  {
    if i < |ts| && !good(ts[i]) {
      FirstPassingSpec(ts, i + 1, good);
    }
  }

  /** The first good candidate: its position, and no earlier candidate is good. */
  lemma FirstGoodSpec(cs: seq<string>)
    ensures FirstGood(cs).Some? ==>
      exists i :: 0 <= i < |cs| && FirstGood(cs).value == Trim(cs[i]) && IsGoodTitle(Trim(cs[i]))
                  && forall j :: 0 <= j < i ==> !IsGoodTitle(Trim(cs[j]))
    ensures FirstGood(cs).None? ==> forall i :: 0 <= i < |cs| ==> !IsGoodTitle(Trim(cs[i]))
  {
    FirstPassingSpec(TrimAll(cs), 0, IsGoodTitle);
  }

  /** The first longest string is one of them, no shorter than any, and longer than all before it. */
  lemma {:induction false} FirstLongestSpec(cs: seq<string>)
    requires cs != []
    ensures exists i :: 0 <= i < |cs| && FirstLongest(cs) == cs[i]
                        && forall j :: 0 <= j < i ==> |cs[j]| < |cs[i]|
    ensures forall j :: 0 <= j < |cs| ==> |cs[j]| <= |FirstLongest(cs)|
  {
    if |cs| > 1 {
      FirstLongestSpec(cs[1..]);
      var r := FirstLongest(cs[1..]);
      var i :| 0 <= i < |cs[1..]| && r == cs[1..][i] && forall j :: 0 <= j < i ==> |cs[1..][j]| < |cs[1..][i]|;
      assert forall j :: 1 <= j < |cs| ==> cs[j] == cs[1..][j - 1];
      if |r| > |cs[0]| {
        assert FirstLongest(cs) == cs[i + 1];
      } else {
        assert FirstLongest(cs) == cs[0];
      }
    } else {
      assert FirstLongest(cs) == cs[0];
    }
  }

  /** Dropping the empty strings does not change the first longest one, when one is not empty. */
  lemma {:induction false} FirstLongestNonEmpty(cs: seq<string>)
    requires NonEmpty(cs) != []
    ensures cs != [] && FirstLongest(NonEmpty(cs)) == FirstLongest(cs)
  {
    if cs[0] == [] {
      assert NonEmpty(cs) == NonEmpty(cs[1..]);
      FirstLongestNonEmpty(cs[1..]);
      FirstLongestSpec(cs[1..]);
      var r := FirstLongest(cs[1..]);
      assert r == FirstLongest(NonEmpty(cs[1..]));
      FirstLongestSpec(NonEmpty(cs[1..]));
      assert r != [];
    } else if |cs| > 1 {
      var rest := NonEmpty(cs[1..]);
      assert NonEmpty(cs) == [cs[0]] + rest;
      if rest == [] {
        FirstLongestSpec(cs[1..]);
        NoneNonEmpty(cs[1..]);
        assert FirstLongest(NonEmpty(cs)) == cs[0];
      } else {
        FirstLongestNonEmpty(cs[1..]);
        assert ([cs[0]] + rest)[1..] == rest;
      }
    } else {
      assert NonEmpty(cs) == [cs[0]] + NonEmpty(cs[1..]);
      assert cs[1..] == [];
    }
  }

  /** When nothing survives `filter(Boolean)`, every string was empty. */
  lemma {:induction false} NoneNonEmpty(cs: seq<string>)
    requires NonEmpty(cs) == []
    ensures forall j :: 0 <= j < |cs| ==> cs[j] == []
  {
    if cs != [] {
      NoneNonEmpty(cs[1..]);
      assert forall j :: 1 <= j < |cs| ==> cs[j] == cs[1..][j - 1];
    }
  }

  /**
   * The chosen name is never empty. It is the first candidate (trimmed)
   * that is a good title when there is one; otherwise the first of the
   * longest candidates, or the default when every candidate is empty.
   */
  lemma ChooseProductNameRule(cs: seq<string>)
    ensures ChooseProductName(cs) != []
    ensures (exists i :: 0 <= i < |cs| && IsGoodTitle(Trim(cs[i]))) ==> Some(ChooseProductName(cs)) == FirstGood(cs)
    ensures (forall i :: 0 <= i < |cs| ==> !IsGoodTitle(Trim(cs[i]))) ==>
      if forall i :: 0 <= i < |cs| ==> cs[i] == [] then ChooseProductName(cs) == DefaultProductName
      else exists i :: 0 <= i < |cs| && ChooseProductName(cs) == cs[i]
                       && (forall j :: 0 <= j < |cs| ==> |cs[j]| <= |cs[i]|)
                       && (forall j :: 0 <= j < i ==> |cs[j]| < |cs[i]|)
  {
    FirstGoodSpec(cs);
    if FirstGood(cs).None? {
      var ne := NonEmpty(cs);
      if ne == [] {
        NoneNonEmpty(cs);
      } else {
        FirstLongestNonEmpty(cs);
        FirstLongestSpec(cs);
        FirstLongestSpec(ne);
        NonEmptyNotAll(cs);
      }
    }
  }

  /** A non-empty result of `filter(Boolean)` means some string was not empty. */
  lemma {:induction false} NonEmptyNotAll(cs: seq<string>)
    requires NonEmpty(cs) != []
    ensures exists i :: 0 <= i < |cs| && cs[i] != []
  {
    if cs[0] == [] {
      assert NonEmpty(cs) == NonEmpty(cs[1..]);
      NonEmptyNotAll(cs[1..]);
      var i :| 0 <= i < |cs[1..]| && cs[1..][i] != [];
      assert cs[i + 1] != [];
    }
  }
}
