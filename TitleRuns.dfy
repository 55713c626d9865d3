/**
 * The parts of `smartSpaceChinese` that the v1.2 and v1.3 userscripts share:
 * the Chinese-character test, the leading Latin brand, the split of the rest
 * into maximal Chinese / other runs, the `'O'` branch of `flush`, and the
 * shape of a `join(' ')` of clean pieces.
 */
module TitleRuns {
  import opened Strings

  /** `isChineseChar`: `/[一-鿿]/`. */
  predicate IsChineseChar(c: char) {
    '\U{4E00}' <= c <= '\U{9FFF}'
  }

  // ---- the brand: `/^[A-Za-z][A-Za-z0-9\s&-]*/` ----

  predicate IsBrandChar(c: char) {
    IsAsciiLetter(c) || IsDigit(c) || IsWhitespace(c) || c == '&' || c == '-'
  }

  /** Length of the longest run of brand characters at the start of `s`. */
  function BrandTailLen(s: string): (r: nat)
    ensures r <= |s|
  {
    if s != [] && IsBrandChar(s[0]) then 1 + BrandTailLen(s[1..]) else 0
  }

  /** Length of the regular-expression match at the start of `s`; 0 when it does not match. */
  function BrandMatchLen(s: string): (r: nat)
    ensures r <= |s|
  {
    if s != [] && IsAsciiLetter(s[0]) then 1 + BrandTailLen(s[1..]) else 0
  }

  lemma {:induction false} BrandTailIsLongest(s: string)
    ensures forall k :: 0 <= k < BrandTailLen(s) ==> IsBrandChar(s[k])
    ensures BrandTailLen(s) < |s| ==> !IsBrandChar(s[BrandTailLen(s)])
  {
    if s != [] && IsBrandChar(s[0]) {
      BrandTailIsLongest(s[1..]);
    }
  }

  /**
   * The match is the greedy one: it is empty exactly when `s` does not start
   * with an ASCII letter; otherwise a letter followed by brand characters,
   * and the next character (if any) is not a brand character.
   */
  lemma BrandMatchIsGreedy(s: string)
    ensures BrandMatchLen(s) == 0 <==> (s == [] || !IsAsciiLetter(s[0]))
    ensures BrandMatchLen(s) > 0 ==>
      (IsAsciiLetter(s[0])
       && (forall k :: 0 <= k < BrandMatchLen(s) ==> IsBrandChar(s[k]))
       && (BrandMatchLen(s) < |s| ==> !IsBrandChar(s[BrandMatchLen(s)])))
  {
    if s != [] && IsAsciiLetter(s[0]) {
      BrandTailIsLongest(s[1..]);
      assert forall k :: 1 <= k < BrandMatchLen(s) ==> s[k] == s[1..][k - 1];
    }
  }

  /** `brandMatch[0].replace(/\s+/g, '').toUpperCase()`, or `''` without a match. */
  function Brand(trimmed: string): string {
    var m := BrandMatchLen(trimmed);
    if m > 0 then UpperAsciiString(RemoveWhitespace(trimmed[..m])) else []
  }

  /** The rest after the brand with every white-space run removed. */
  function RestAfterBrand(trimmed: string): string {
    RemoveWhitespace(trimmed[BrandMatchLen(trimmed)..])
  }

  /** The brand has no white space and no lower-case ASCII letter; it is empty exactly when there is no match. */
  lemma BrandShape(trimmed: string)
    ensures NoWhitespace(Brand(trimmed))
    ensures forall k :: 0 <= k < |Brand(trimmed)| ==> !('a' <= Brand(trimmed)[k] <= 'z')
    ensures Brand(trimmed) == [] <==> BrandMatchLen(trimmed) == 0
  {
    var m := BrandMatchLen(trimmed);
    if m > 0 {
      var raw := RemoveWhitespace(trimmed[..m]);
      var b := UpperAsciiString(raw);
      forall k | 0 <= k < |b| ensures !IsWhitespace(b[k]) {
        assert b[k] == UpperAscii(raw[k]);
      }
      assert trimmed[..m][0] == trimmed[0];
      assert RemoveWhitespace(trimmed[..m]) != [] by {
        assert trimmed[..m] == [trimmed[0]] + trimmed[..m][1..];
      }
    }
  }

  // ---- runs of Chinese and of other characters ----

  /** A run of characters of one type: `'C'` (`chinese`) or `'O'`. */
  datatype Run = Run(chinese: bool, text: string)

  /** The runs the `for (const ch of rest)` loop gathers in `buffer`, character by character. */
  function Runs(s: string): seq<Run>
    decreases |s|
  {
    if s == [] then []
    else
      var prev := Runs(s[..|s| - 1]);
      var c := s[|s| - 1];
      if prev != [] && prev[|prev| - 1].chinese == IsChineseChar(c)
      then prev[..|prev| - 1] + [Run(IsChineseChar(c), prev[|prev| - 1].text + [c])]
      else prev + [Run(IsChineseChar(c), [c])]
  }

  /**
   * One more character either extends the last run, when it is of the
   * same type, or starts a new one.
   */
  lemma RunsSnoc(s: string, i: nat)
    requires i < |s|
    ensures var rs := Runs(s[..i]);
      var c := s[i];
      var joins := rs != [] && rs[|rs| - 1].chinese == IsChineseChar(c);
      var rs' := Runs(s[..i + 1]);
      rs' != []
      && rs'[|rs'| - 1] == Run(IsChineseChar(c), (if joins then rs[|rs| - 1].text else []) + [c])
      && rs'[..|rs'| - 1] == (if joins then rs[..|rs| - 1] else rs)
  {
    assert s[..i + 1][..i] == s[..i];
  }

  /** The runs' texts, concatenated. */
  function RunsText(rs: seq<Run>): string
    decreases |rs|
  {
    if rs == [] then [] else RunsText(rs[..|rs| - 1]) + rs[|rs| - 1].text
  }

  /** Non-empty runs of one type each, and neighbouring runs of different types. */
  predicate WellFormedRuns(rs: seq<Run>) {
    (forall k :: 0 <= k < |rs| ==> rs[k].text != [])
    && (forall k, j :: 0 <= k < |rs| && 0 <= j < |rs[k].text| ==> IsChineseChar(rs[k].text[j]) == rs[k].chinese)
    && (forall k :: 0 <= k < |rs| - 1 ==> rs[k].chinese != rs[k + 1].chinese)
  }

  /** The runs concatenate back to `s`; there are none exactly when `s` is empty. */
  lemma {:induction false} RunsCover(s: string)
    ensures RunsText(Runs(s)) == s
    ensures s == [] <==> Runs(s) == []
    decreases |s|
  {
    if s != [] {
      var init := s[..|s| - 1];
      var c := s[|s| - 1];
      var prev := Runs(init);
      RunsCover(init);
      assert s == init + [c];
      if prev != [] && prev[|prev| - 1].chinese == IsChineseChar(c) {
        JoinKeepsText(prev, c);
      } else {
        assert RunsText(prev + [Run(IsChineseChar(c), [c])]) == RunsText(prev) + [c] by {
          assert (prev + [Run(IsChineseChar(c), [c])])[..|prev|] == prev;
        }
      }
    }
  }

  /** Extending the last run with a character appends that character to the text. */
  lemma JoinKeepsText(prev: seq<Run>, c: char)
    requires prev != []
    ensures RunsText(prev[..|prev| - 1] + [Run(IsChineseChar(c), prev[|prev| - 1].text + [c])]) == RunsText(prev) + [c]
  {
    var n := |prev| - 1;
    RunsTextSnoc(prev[..n], Run(IsChineseChar(c), prev[n].text + [c]));
    RunsTextSnoc(prev[..n], prev[n]);
    assert prev[..n] + [prev[n]] == prev;
    ConcatAssoc(RunsText(prev[..n]), prev[n].text, [c]);
  }

  /** One more run appends its text. */
  lemma RunsTextSnoc(rs: seq<Run>, r: Run)
    ensures RunsText(rs + [r]) == RunsText(rs) + r.text
  {
    assert (rs + [r])[..|rs|] == rs;
  }

  /** The runs are the maximal one-type pieces of `s`: non-empty, homogeneous, alternating. */
  lemma {:induction false} RunsWellFormed(s: string)
    ensures WellFormedRuns(Runs(s))
    decreases |s|
  {
    if s != [] {
      var init := s[..|s| - 1];
      var c := s[|s| - 1];
      var prev := Runs(init);
      RunsWellFormed(init);
      if prev != [] && prev[|prev| - 1].chinese == IsChineseChar(c) {
        JoinKeepsWellFormed(prev, c);
      } else {
        NewRunKeepsWellFormed(prev, c);
      }
    }
  }

  /** Extending the last run with a character of its type keeps the runs well formed. */
  lemma JoinKeepsWellFormed(prev: seq<Run>, c: char)
    requires WellFormedRuns(prev) && prev != [] && prev[|prev| - 1].chinese == IsChineseChar(c)
    ensures WellFormedRuns(prev[..|prev| - 1] + [Run(IsChineseChar(c), prev[|prev| - 1].text + [c])])
  {
    var n := |prev| - 1;
    var last := prev[n];
    var rs := prev[..n] + [Run(IsChineseChar(c), last.text + [c])];
    assert forall k :: 0 <= k < n ==> rs[k] == prev[k];
    forall k, j | 0 <= k < |rs| && 0 <= j < |rs[k].text|
      ensures IsChineseChar(rs[k].text[j]) == rs[k].chinese
    {
      if k == n && j < |last.text| {
        assert rs[k].text[j] == last.text[j];
      }
    }
  }

  /** Starting a run of the other type keeps the runs well formed. */
  lemma NewRunKeepsWellFormed(prev: seq<Run>, c: char)
    requires WellFormedRuns(prev) && (prev == [] || prev[|prev| - 1].chinese != IsChineseChar(c))
    ensures WellFormedRuns(prev + [Run(IsChineseChar(c), [c])])
  {
    var rs := prev + [Run(IsChineseChar(c), [c])];
    assert forall k :: 0 <= k < |prev| ==> rs[k] == prev[k];
  }

  // ---- pieces ----

  /** The `'O'` branch of `flush`: the trimmed buffer, when it is not empty. */
  function FlushOther(buffer: string): (r: seq<string>)
    ensures forall k :: 0 <= k < |r| ==> r[k] != [] && IsTrimmed(r[k])
  {
    var t := Trim(buffer);
    if t != [] then [t] else []
  }

  /** Every piece of a white-space-free concatenation is white-space free. */
  lemma {:induction false} PiecesOfClean(ss: seq<string>)
    requires NoWhitespace(Flatten(ss))
    ensures forall k :: 0 <= k < |ss| ==> NoWhitespace(ss[k])
  {
    if ss != [] {
      var f := Flatten(ss);
      assert forall j :: 0 <= j < |ss[0]| ==> f[j] == ss[0][j];
      assert forall j :: 0 <= j < |Flatten(ss[1..])| ==> f[|ss[0]| + j] == Flatten(ss[1..])[j];
      PiecesOfClean(ss[1..]);
      assert forall k :: 1 <= k < |ss| ==> ss[k] == ss[1..][k - 1];
    }
  }

  /** Non-empty white-space-free pieces joined by single spaces: trimmed, plain single spaces only. */
  lemma {:induction false} JoinShape(ss: seq<string>)
    requires forall k :: 0 <= k < |ss| ==> ss[k] != [] && NoWhitespace(ss[k])
    ensures IsTrimmed(JoinWithSpace(ss)) && NoDoubleWhitespace(JoinWithSpace(ss))
    ensures OnlyPlainSpaces(JoinWithSpace(ss))
    ensures JoinWithSpace(ss) == [] <==> ss == []
  {
    if |ss| >= 2 {
      var rest := JoinWithSpace(ss[1..]);
      JoinShape(ss[1..]);
      var j := JoinWithSpace(ss);
      var a := ss[0];
      assert j == a + [' '] + rest;
      assert rest[0] == ss[1][0] by {
        JoinStartsWithFirst(ss[1..]);
      }
      forall k | 0 <= k < |j| - 1 ensures !(IsWhitespace(j[k]) && IsWhitespace(j[k + 1])) {
        if k + 1 < |a| {
        } else if k + 1 == |a| {
        } else if k == |a| {
        } else {
          assert j[k] == rest[k - |a| - 1] && j[k + 1] == rest[k - |a|];
        }
      }
      forall k | 0 <= k < |j| ensures IsWhitespace(j[k]) ==> j[k] == ' ' {
        if k > |a| {
          assert j[k] == rest[k - |a| - 1];
        }
      }
    }
  }

  lemma {:induction false} JoinStartsWithFirst(ss: seq<string>)
    requires ss != [] && ss[0] != []
    ensures JoinWithSpace(ss) != [] && JoinWithSpace(ss)[0] == ss[0][0]
  {
  }

  /** A trimmed string put right behind a word leaves no white space at the seam. */
  lemma NoSpaceAfterPrefix(word: string, s: string)
    requires IsTrimmed(s)
    ensures |word + s| > |word| ==> !IsWhitespace((word + s)[|word|])
  {
    if s != [] {
      assert (word + s)[|word|] == s[0];
    }
  }

  /** Putting a white-space-free word in front keeps a string trimmed and singly, plainly spaced. */
  lemma PrefixKeepsSpacing(word: string, s: string)
    requires word != [] && NoWhitespace(word)
    requires IsTrimmed(s) && NoDoubleWhitespace(s) && OnlyPlainSpaces(s)
    ensures IsTrimmed(word + s) && NoDoubleWhitespace(word + s) && OnlyPlainSpaces(word + s)
  {
    var out := word + s;
    forall k | 0 <= k < |out| - 1 ensures !(IsWhitespace(out[k]) && IsWhitespace(out[k + 1])) {
      if k >= |word| {
        assert out[k] == s[k - |word|] && out[k + 1] == s[k + 1 - |word|];
      }
    }
    forall k | 0 <= k < |out| ensures IsWhitespace(out[k]) ==> out[k] == ' ' {
      if k >= |word| {
        assert out[k] == s[k - |word|];
      }
    }
    if s != [] {
      assert out[|out| - 1] == s[|s| - 1];
    }
  }
}
