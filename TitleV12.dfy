/**
 * `smartSpaceChinese` of the v1.2 userscript: as in v1.3, the brand is
 * upper-cased without white space and the rest is cut into Chinese / other
 * runs, but Chinese runs go through the v1.2 chunker and the pieces are
 * joined as they are, without merging numbers with measure words.
 */
module TitleV12 {
  import opened Wrappers
  import opened Strings
  import opened TitleRuns
  import opened ChunkerV12

  /** What `flush` pushes for a buffer holding the run `r`. */
  function FlushPieces(r: Run, dict: seq<string>): seq<string> {
    if r.text == [] then []
    else if r.chinese then ChunkSegment(r.text, dict)
    else FlushOther(r.text)
  }

  /** `tokens` after every run has been flushed, in order. */
  function Pieces(rs: seq<Run>, dict: seq<string>): seq<string>
    decreases |rs|
  {
    if rs == [] then [] else Pieces(rs[..|rs| - 1], dict) + FlushPieces(rs[|rs| - 1], dict)
  }

  /** Flushing a white-space-free run keeps its text. */
  lemma FlushKeepsText(r: Run, dict: seq<string>)
    requires NoWhitespace(r.text)
    ensures Flatten(FlushPieces(r, dict)) == r.text
  {
    if r.text != [] {
      if r.chinese {
        ChunkSegmentShape(r.text, dict);
      } else {
        TrimOfClean(r.text);
        FlattenSingleton(r.text);
      }
    }
  }

  lemma {:induction false} PiecesKeepText(rs: seq<Run>, dict: seq<string>)
    requires NoWhitespace(RunsText(rs))
    ensures Flatten(Pieces(rs, dict)) == RunsText(rs)
    decreases |rs|
  {
    if rs != [] {
      var init := rs[..|rs| - 1];
      var last := rs[|rs| - 1];
      CleanParts(RunsText(init), last.text);
      PiecesKeepText(init, dict);
      FlushKeepsText(last, dict);
      FlattenConcat(Pieces(init, dict), FlushPieces(last, dict));
    }
  }

  // ---- smartSpaceChinese ----

  /** What `smartSpaceChinese(title)` returns. */
  function SmartSpace(title: string, dict: seq<string>): string {
    if title == [] then []
    else
      var trimmed := Trim(title);
      var brand := Brand(trimmed);
      var rest := RestAfterBrand(trimmed);
      var chinesePart := JoinWithSpace(NonEmpty(Pieces(Runs(rest), dict)));
      if brand != [] then (if chinesePart != [] then brand + chinesePart else brand) else chinesePart
  }

  /** `flush()` for a non-empty buffer: the chunks of a Chinese run, or the trimmed other run. */
  method Flush(buffer: string, chinese: bool, dict: seq<string>) returns (pieces: seq<string>)
    ensures pieces == FlushPieces(Run(chinese, buffer), dict)
  {
    if buffer == [] {
      return [];
    }
    if chinese {
      pieces := ChunkChineseSegment(buffer, dict);
    } else {
      var t := Trim(buffer);
      pieces := if t != [] then [t] else [];
    }
  }

  /**
   * The loop's state after the characters whose runs are `rs`: every run
   * but the last flushed into `tokens`, the last one in `buffer`.
   */
  predicate Gathered(rs: seq<Run>, tokens: seq<string>, buffer: string, currentType: Option<bool>, dict: seq<string>) {
    if rs == [] then tokens == [] && buffer == [] && currentType == None
    else
      buffer == rs[|rs| - 1].text && currentType == Some(rs[|rs| - 1].chinese)
      && tokens == Pieces(rs[..|rs| - 1], dict)
  }

  /** One character of the loop: flush on a change of type, then append. */
  lemma GatherStep(rest: string, i: nat, tokens: seq<string>, buffer: string, currentType: Option<bool>, dict: seq<string>)
    requires i < |rest| && Gathered(Runs(rest[..i]), tokens, buffer, currentType, dict)
    ensures var chinese := IsChineseChar(rest[i]);
      var flush := currentType.Some? && chinese != currentType.value;
      var tokens' := if flush then tokens + FlushPieces(Run(currentType.value, buffer), dict) else tokens;
      var buffer' := (if flush then [] else buffer) + [rest[i]];
      Gathered(Runs(rest[..i + 1]), tokens', buffer', Some(chinese), dict)
  {
    var rs := Runs(rest[..i]);
    RunsSnoc(rest, i);
    if rs != [] {
      assert Pieces(rs, dict) == Pieces(rs[..|rs| - 1], dict) + FlushPieces(rs[|rs| - 1], dict);
    }
  }

  /** The `for (const ch of rest)` loop and the final `flush()`. */
  method SplitAndChunk(rest: string, dict: seq<string>) returns (tokens: seq<string>)
    ensures tokens == Pieces(Runs(rest), dict)
  {
    tokens := [];
    var buffer: string := [];
    var currentType: Option<bool> := None;
    for i := 0 to |rest|
      invariant Gathered(Runs(rest[..i]), tokens, buffer, currentType, dict)
    {
      var ch := rest[i];
      var chinese := IsChineseChar(ch);
      GatherStep(rest, i, tokens, buffer, currentType, dict);
      if currentType.Some? && chinese != currentType.value {
        var pieces := Flush(buffer, currentType.value, dict);
        tokens := tokens + pieces;
        buffer := [];
        currentType := None;
      }
      currentType := Some(chinese);
      buffer := buffer + [ch];
    }
    assert rest[..|rest|] == rest;
    var chinese := currentType == Some(true);
    var pieces := Flush(buffer, chinese, dict);
    ghost var rs := Runs(rest);
    assert rs != [] ==> Pieces(rs, dict) == Pieces(rs[..|rs| - 1], dict) + FlushPieces(rs[|rs| - 1], dict);
    tokens := tokens + pieces;
  }

  /** `smartSpaceChinese(title)`. */
  method SmartSpaceChinese(title: string, dict: seq<string>) returns (out: string)
    ensures out == SmartSpace(title, dict)
  {
    if title == [] {
      return [];
    }
    var trimmed := Trim(title);
    var brand: string := [];
    var rest := trimmed;
    var m := BrandMatchLen(trimmed);
    if m > 0 {
      brand := UpperAsciiString(RemoveWhitespace(trimmed[..m]));
      rest := trimmed[m..];
    }
    rest := RemoveWhitespace(rest);
    var tokens := SplitAndChunk(rest, dict);
    var baseTokens := NonEmpty(tokens);
    var chinesePart := JoinWithSpace(baseTokens);
    if brand != [] {
      if chinesePart != [] {
        return brand + chinesePart;
      }
      return brand;
    }
    return chinesePart;
  }

  /** The joined part of the title: its pieces, and what they are made of. */
  lemma JoinedPart(trimmed: string, dict: seq<string>)
    ensures var ms := NonEmpty(Pieces(Runs(RestAfterBrand(trimmed)), dict));
      Flatten(ms) == RestAfterBrand(trimmed)
      && (forall k :: 0 <= k < |ms| ==> ms[k] != [] && NoWhitespace(ms[k]))
      && WithoutSpaces(JoinWithSpace(ms)) == RestAfterBrand(trimmed)
  {
    var rest := RestAfterBrand(trimmed);
    var ps := Pieces(Runs(rest), dict);
    RunsCover(rest);
    PiecesKeepText(Runs(rest), dict);
    NonEmptyKeepsText(ps);
    var ms := NonEmpty(ps);
    PiecesOfClean(ms);
    JoinThenStrip(ms);
  }

  /**
   * An empty title gives `''`. Apart from the spaces it inserts, the result is
   * the upper-cased brand without white space followed by the rest of the
   * title without white space; the brand comes first, and the character right
   * behind it is not white space: the brand is glued to the rest.
   */
  lemma SmartSpaceKeepsText(title: string, dict: seq<string>)
    ensures title == [] ==> SmartSpace(title, dict) == []
    ensures title != [] ==>
      WithoutSpaces(SmartSpace(title, dict)) == Brand(Trim(title)) + RestAfterBrand(Trim(title))
    ensures title != [] ==> StartsWith(SmartSpace(title, dict), Brand(Trim(title)))
    ensures title != [] && Brand(Trim(title)) != [] && |SmartSpace(title, dict)| > |Brand(Trim(title))| ==>
      !IsWhitespace(SmartSpace(title, dict)[|Brand(Trim(title))|])
  {
    if title != [] {
      var trimmed := Trim(title);
      var brand := Brand(trimmed);
      var ms := NonEmpty(Pieces(Runs(RestAfterBrand(trimmed)), dict));
      var cp := JoinWithSpace(ms);
      JoinedPart(trimmed, dict);
      BrandShape(trimmed);
      WithoutSpacesOfClean(brand);
      WithoutSpacesConcat(brand, cp);
      JoinShape(ms);
      NoSpaceAfterPrefix(brand, cp);
      if brand != [] && cp == [] {
        assert brand + cp == brand;
      }
      if brand == [] {
        assert brand + cp == cp;
      }
    }
  }

  /** The result is trimmed and its only white space is single plain spaces between pieces. */
  lemma SmartSpaceSpacing(title: string, dict: seq<string>)
    ensures IsTrimmed(SmartSpace(title, dict))
    ensures NoDoubleWhitespace(SmartSpace(title, dict))
    ensures OnlyPlainSpaces(SmartSpace(title, dict))
  {
    if title != [] {
      var trimmed := Trim(title);
      var brand := Brand(trimmed);
      var ms := NonEmpty(Pieces(Runs(RestAfterBrand(trimmed)), dict));
      var cp := JoinWithSpace(ms);
      JoinedPart(trimmed, dict);
      JoinShape(ms);
      BrandShape(trimmed);
      if brand != [] && cp != [] {
        PrefixKeepsSpacing(brand, cp);
      }
    }
  }
}
