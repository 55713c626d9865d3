/**
 * `smartSpaceChinese` of the v1.3 userscript: the leading Latin brand is
 * upper-cased and loses its white space, the rest loses all white space and
 * is cut into Chinese / other runs, Chinese runs go through the v1.3 chunker,
 * a number is merged with a following measure-word piece, and the pieces are
 * joined with single spaces behind the brand.
 */
module TitleV13 {
  import opened Wrappers
  import opened Strings
  import opened TitleRuns
  import opened ChunkerV13

  /** What `flush` pushes for a buffer holding the run `r`. */
  function FlushPieces(r: Run, dict: seq<string>, cats: set<string>): seq<string> {
    if r.text == [] then []
    else if r.chinese then ChunkSegment(r.text, dict, cats)
    else FlushOther(r.text)
  }

  /** `tokens` after every run has been flushed, in order. */
  function Pieces(rs: seq<Run>, dict: seq<string>, cats: set<string>): seq<string>
    decreases |rs|
  {
    if rs == [] then [] else Pieces(rs[..|rs| - 1], dict, cats) + FlushPieces(rs[|rs| - 1], dict, cats)
  }

  /** Flushing a white-space-free run keeps its text. */
  lemma FlushKeepsText(r: Run, dict: seq<string>, cats: set<string>)
    requires NoWhitespace(r.text)
    ensures Flatten(FlushPieces(r, dict, cats)) == r.text
  {
    if r.text != [] {
      if r.chinese {
        ChunkSegmentShape(r.text, dict, cats);
      } else {
        TrimOfClean(r.text);
        FlattenSingleton(r.text);
      }
    }
  }

  lemma {:induction false} PiecesKeepText(rs: seq<Run>, dict: seq<string>, cats: set<string>)
    requires NoWhitespace(RunsText(rs))
    ensures Flatten(Pieces(rs, dict, cats)) == RunsText(rs)
    decreases |rs|
  {
    if rs != [] {
      var init := rs[..|rs| - 1];
      var last := rs[|rs| - 1];
      CleanParts(RunsText(init), last.text);
      PiecesKeepText(init, dict, cats);
      FlushKeepsText(last, dict, cats);
      FlattenConcat(Pieces(init, dict, cats), FlushPieces(last, dict, cats));
    }
  }

  // ---- mergeNumberBlocks ----

  /** The measure words of `/^[排色盒支條瓶包袋盤張只片組雙層]/`. */
  predicate IsMeasureChar(c: char) {
    c in "排色盒支條瓶包袋盤張只片組雙層"
  }

  /** `/^\d+$/`. */
  predicate IsNumberToken(s: string) {
    s != [] && AllDigits(s)
  }

  /** `arr[k]` is a number and the next piece is non-empty and starts with a measure word. */
  predicate Mergeable(arr: seq<string>, k: nat) {
    k + 1 < |arr| && IsNumberToken(arr[k]) && arr[k + 1] != [] && IsMeasureChar(arr[k + 1][0])
  }

  /** What `mergeNumberBlocks` returns. */
  function Merge(arr: seq<string>): seq<string>
    decreases |arr|
  {
    if arr == [] then []
    else if Mergeable(arr, 0) then [arr[0] + arr[1]] + Merge(arr[2..])
    else [arr[0]] + Merge(arr[1..])
  }

  /** `mergeNumberBlocks(arr)`: a loop that pushes `cur + next` and skips `next`, or pushes `cur`. */
  method MergeNumberBlocks(arr: seq<string>) returns (out: seq<string>)
    ensures out == Merge(arr)
  {
    out := [];
    var i := 0;
    while i < |arr|
      invariant 0 <= i <= |arr|
      invariant out + Merge(arr[i..]) == Merge(arr)
      decreases |arr| - i
    {
      var cur := arr[i];
      assert arr[i..][0] == cur;
      if IsNumberToken(cur) && i + 1 < |arr| && arr[i + 1] != [] {
        var next := arr[i + 1];
        if IsMeasureChar(next[0]) {
          assert Mergeable(arr[i..], 0);
          assert arr[i..][2..] == arr[i + 2..];
          out := out + [cur + next];
          i := i + 2;
          continue;
        }
      }
      assert !Mergeable(arr[i..], 0);
      assert arr[i..][1..] == arr[i + 1..];
      out := out + [cur];
      i := i + 1;
    }
  }

  /** Merging only joins neighbours: the text is unchanged. */
  lemma {:induction false} MergeKeepsText(arr: seq<string>)
    ensures Flatten(Merge(arr)) == Flatten(arr)
    decreases |arr|
  {
    if arr != [] {
      var skip := if Mergeable(arr, 0) then 2 else 1;
      var rest := arr[skip..];
      MergeKeepsText(rest);
      var m := Merge(arr);
      assert m[1..] == Merge(rest);
      if skip == 2 {
        assert arr[1..][1..] == rest;
        assert Flatten(arr) == arr[0] + (arr[1] + Flatten(rest));
      }
    }
  }

  /** Merging yields no more pieces than it was given, and no empty piece out of non-empty ones. */
  lemma {:induction false} MergeKeepsPieces(arr: seq<string>)
    ensures |Merge(arr)| <= |arr|
    ensures (forall k :: 0 <= k < |arr| ==> arr[k] != []) ==> forall k :: 0 <= k < |Merge(arr)| ==> Merge(arr)[k] != []
    decreases |arr|
  {
    if arr != [] {
      var skip := if Mergeable(arr, 0) then 2 else 1;
      var rest := arr[skip..];
      MergeKeepsPieces(rest);
      var m := Merge(arr);
      assert m[1..] == Merge(rest);
      if forall k :: 0 <= k < |arr| ==> arr[k] != [] {
        assert forall k :: 0 <= k < |rest| ==> rest[k] == arr[k + skip];
        assert forall k :: 1 <= k < |m| ==> m[k] == Merge(rest)[k - 1];
      }
    }
  }

  /** Without a number before a measure word, the pieces pass through unchanged. */
  lemma {:induction false} MergePassesThrough(arr: seq<string>)
    requires forall k :: 0 <= k < |arr| ==> !Mergeable(arr, k)
    ensures Merge(arr) == arr
    decreases |arr|
  {
    if arr != [] {
      assert !Mergeable(arr, 0);
      forall k | 0 <= k < |arr[1..]| ensures !Mergeable(arr[1..], k) {
        assert !Mergeable(arr, k + 1);
      }
      MergePassesThrough(arr[1..]);
    }
  }

  /** The first merged piece starts with the first input piece. */
  lemma MergeHead(arr: seq<string>)
    requires arr != []
    ensures Merge(arr) != [] && |arr[0]| <= |Merge(arr)[0]| && Merge(arr)[0][..|arr[0]|] == arr[0]
  {
  }

  /** No number is left directly before a measure-word piece: every such pair was merged. */
  lemma {:induction false} MergeLeavesNoPair(arr: seq<string>)
    ensures forall k :: 0 <= k < |Merge(arr)| ==> !Mergeable(Merge(arr), k)
    decreases |arr|
  {
    if arr != [] {
      var m := Merge(arr);
      var skip := if Mergeable(arr, 0) then 2 else 1;
      var rest := arr[skip..];
      MergeLeavesNoPair(rest);
      assert m == [m[0]] + Merge(rest);
      forall k | 0 <= k < |m| ensures !Mergeable(m, k) {
        if k == 0 && k + 1 < |m| {
          if skip == 2 {
            assert m[0][|arr[0]|] == arr[1][0];
            assert !IsDigit(arr[1][0]);
          } else if IsNumberToken(m[0]) {
            MergeHead(rest);
            assert rest[0] == arr[1];
            if arr[1] != [] {
              assert m[1][0] == arr[1][0];
            }
          }
        } else if k > 0 {
          assert !Mergeable(Merge(rest), k - 1);
        }
      }
    }
  }

  // ---- smartSpaceChinese ----

  /** What `smartSpaceChinese(title)` returns. */
  function SmartSpace(title: string, dict: seq<string>, cats: set<string>): string {
    if title == [] then []
    else
      var trimmed := Trim(title);
      var brand := Brand(trimmed);
      var rest := RestAfterBrand(trimmed);
      var chinesePart := JoinWithSpace(Merge(NonEmpty(Pieces(Runs(rest), dict, cats))));
      if brand != [] then (if chinesePart != [] then brand + chinesePart else brand) else chinesePart
  }

  /** `flush()` for a non-empty buffer: the chunks of a Chinese run, or the trimmed other run. */
  method Flush(buffer: string, chinese: bool, dict: seq<string>, cats: set<string>) returns (pieces: seq<string>)
    ensures pieces == FlushPieces(Run(chinese, buffer), dict, cats)
  {
    if buffer == [] {
      return [];
    }
    if chinese {
      pieces := ChunkChineseSegment(buffer, dict, cats);
    } else {
      var t := Trim(buffer);
      pieces := if t != [] then [t] else [];
    }
  }

  /**
   * The loop's state after the characters whose runs are `rs`: every run
   * but the last flushed into `tokens`, the last one in `buffer`.
   */
  predicate Gathered(rs: seq<Run>, tokens: seq<string>, buffer: string, currentType: Option<bool>, dict: seq<string>, cats: set<string>) {
    if rs == [] then tokens == [] && buffer == [] && currentType == None
    else
      buffer == rs[|rs| - 1].text && currentType == Some(rs[|rs| - 1].chinese)
      && tokens == Pieces(rs[..|rs| - 1], dict, cats)
  }

  /** One character of the loop: flush on a change of type, then append. */
  lemma GatherStep(rest: string, i: nat, tokens: seq<string>, buffer: string, currentType: Option<bool>, dict: seq<string>, cats: set<string>)
    requires i < |rest| && Gathered(Runs(rest[..i]), tokens, buffer, currentType, dict, cats)
    ensures var chinese := IsChineseChar(rest[i]);
      var flush := currentType.Some? && chinese != currentType.value;
      var tokens' := if flush then tokens + FlushPieces(Run(currentType.value, buffer), dict, cats) else tokens;
      var buffer' := (if flush then [] else buffer) + [rest[i]];
      Gathered(Runs(rest[..i + 1]), tokens', buffer', Some(chinese), dict, cats)
  {
    var rs := Runs(rest[..i]);
    RunsSnoc(rest, i);
    if rs != [] {
      assert Pieces(rs, dict, cats) == Pieces(rs[..|rs| - 1], dict, cats) + FlushPieces(rs[|rs| - 1], dict, cats);
    }
  }

  /** The `for (const ch of rest)` loop and the final `flush()`. */
  method SplitAndChunk(rest: string, dict: seq<string>, cats: set<string>) returns (tokens: seq<string>)
    ensures tokens == Pieces(Runs(rest), dict, cats)
  {
    tokens := [];
    var buffer: string := [];
    var currentType: Option<bool> := None;
    for i := 0 to |rest|
      invariant Gathered(Runs(rest[..i]), tokens, buffer, currentType, dict, cats)
    {
      var ch := rest[i];
      var chinese := IsChineseChar(ch);
      GatherStep(rest, i, tokens, buffer, currentType, dict, cats);
      if currentType.Some? && chinese != currentType.value {
        var pieces := Flush(buffer, currentType.value, dict, cats);
        tokens := tokens + pieces;
        buffer := [];
        currentType := None;
      }
      currentType := Some(chinese);
      buffer := buffer + [ch];
    }
    assert rest[..|rest|] == rest;
    var chinese := currentType == Some(true);
    var pieces := Flush(buffer, chinese, dict, cats);
    ghost var rs := Runs(rest);
    assert rs != [] ==> Pieces(rs, dict, cats) == Pieces(rs[..|rs| - 1], dict, cats) + FlushPieces(rs[|rs| - 1], dict, cats);
    tokens := tokens + pieces;
  }

  /** `smartSpaceChinese(title)`. */
  method SmartSpaceChinese(title: string, dict: seq<string>, cats: set<string>) returns (out: string)
    ensures out == SmartSpace(title, dict, cats)
  {
    if title == [] {
      return [];
    }
    var trimmed := Trim(title);
    var brand: string := [];
    var rest := trimmed;
    var m := BrandMatchLen(trimmed);
    if m > 0 {
      brand := UpperAsciiString(RemoveWhitespace(trimmed[..m]));
      rest := trimmed[m..];
    }
    rest := RemoveWhitespace(rest);
    var tokens := SplitAndChunk(rest, dict, cats);
    var baseTokens := NonEmpty(tokens);
    var mergedTokens := MergeNumberBlocks(baseTokens);
    var chinesePart := JoinWithSpace(mergedTokens);
    if brand != [] {
      if chinesePart != [] {
        return brand + chinesePart;
      }
      return brand;
    }
    return chinesePart;
  }

  /** The joined part of the title: its pieces, and what they are made of. */
  lemma JoinedPart(trimmed: string, dict: seq<string>, cats: set<string>)
    ensures var ms := Merge(NonEmpty(Pieces(Runs(RestAfterBrand(trimmed)), dict, cats)));
      Flatten(ms) == RestAfterBrand(trimmed)
      && (forall k :: 0 <= k < |ms| ==> ms[k] != [] && NoWhitespace(ms[k]))
      && WithoutSpaces(JoinWithSpace(ms)) == RestAfterBrand(trimmed)
  {
    var rest := RestAfterBrand(trimmed);
    var ps := Pieces(Runs(rest), dict, cats);
    RunsCover(rest);
    PiecesKeepText(Runs(rest), dict, cats);
    NonEmptyKeepsText(ps);
    var ms := Merge(NonEmpty(ps));
    MergeKeepsText(NonEmpty(ps));
    MergeKeepsPieces(NonEmpty(ps));
    PiecesOfClean(ms);
    JoinThenStrip(ms);
  }

  /**
   * An empty title gives `''`. Apart from the spaces it inserts, the result is
   * the upper-cased brand without white space followed by the rest of the
   * title without white space; the brand comes first, and the character right
   * behind it is not white space: the brand is glued to the rest.
   */
  lemma SmartSpaceKeepsText(title: string, dict: seq<string>, cats: set<string>)
    ensures title == [] ==> SmartSpace(title, dict, cats) == []
    ensures title != [] ==>
      WithoutSpaces(SmartSpace(title, dict, cats)) == Brand(Trim(title)) + RestAfterBrand(Trim(title))
    ensures title != [] ==> StartsWith(SmartSpace(title, dict, cats), Brand(Trim(title)))
    ensures title != [] && Brand(Trim(title)) != [] && |SmartSpace(title, dict, cats)| > |Brand(Trim(title))| ==>
      !IsWhitespace(SmartSpace(title, dict, cats)[|Brand(Trim(title))|])
  {
    if title != [] {
      var trimmed := Trim(title);
      var brand := Brand(trimmed);
      var ms := Merge(NonEmpty(Pieces(Runs(RestAfterBrand(trimmed)), dict, cats)));
      var cp := JoinWithSpace(ms);
      JoinedPart(trimmed, dict, cats);
      BrandShape(trimmed);
      WithoutSpacesOfClean(brand);
      WithoutSpacesConcat(brand, cp);
      JoinShape(ms);
      NoSpaceAfterPrefix(brand, cp);
      if brand != [] && cp == [] {
        assert brand + cp == brand;
      }
      if brand == [] {
        assert brand + cp == cp;
      }
    }
  }

  /** The result is trimmed and its only white space is single plain spaces between pieces. */
  lemma SmartSpaceSpacing(title: string, dict: seq<string>, cats: set<string>)
    ensures IsTrimmed(SmartSpace(title, dict, cats))
    ensures NoDoubleWhitespace(SmartSpace(title, dict, cats))
    ensures OnlyPlainSpaces(SmartSpace(title, dict, cats))
  {
    if title != [] {
      var trimmed := Trim(title);
      var brand := Brand(trimmed);
      var ms := Merge(NonEmpty(Pieces(Runs(RestAfterBrand(trimmed)), dict, cats)));
      var cp := JoinWithSpace(ms);
      JoinedPart(trimmed, dict, cats);
      JoinShape(ms);
      BrandShape(trimmed);
      if brand != [] && cp != [] {
        PrefixKeepsSpacing(brand, cp);
      }
    }
  }
}
