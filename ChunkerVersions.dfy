/**
 * The v1.2 and v1.3 chunkers side by side. Without category terms both
 * search the same chunkings and succeed on the same inputs; v1.2 returns the
 * lexicographically least (shortest chunks first) and v1.3 the greatest
 * (longest chunks first), so on ten plain characters v1.2 cuts 4 + 6 and
 * v1.3 cuts 6 + 4.
 */
module ChunkerVersions {
  import opened Wrappers
  import opened Strings
  import opened Tokenizer
  import opened Chunking
  import V12 = ChunkerV12
  import V13 = ChunkerV13

  /** Without category terms, a v1.3 search succeeds exactly when the v1.2 search does. */
  lemma SameSuccess(t: seq<string>, als: bool, i: nat)
    requires i <= |t|
    ensures V13.Search(t, {}, als, i).Some? <==> V12.Search(t, als, i).Some?
  {
    V13.SearchSound(t, {}, als, i);
    V12.SearchSound(t, als, i);
    if V13.Search(t, {}, als, i).Some? {
      V12.SearchComplete(t, als, i, V13.Search(t, {}, als, i).value);
    }
    if V12.Search(t, als, i).Some? {
      V13.SearchComplete(t, {}, als, i, V12.Search(t, als, i).value);
    }
  }

  /** Without category terms, the v1.2 chunk ends never come after the v1.3 ones in lexicographic order. */
  lemma ShortestBeforeLongest(t: seq<string>, als: bool, i: nat)
    requires i <= |t| && V12.Search(t, als, i).Some?
    ensures V13.Search(t, {}, als, i).Some?
    ensures LexLeq(V12.Search(t, als, i).value, V13.Search(t, {}, als, i).value)
  {
    V12.SearchSound(t, als, i);
    V13.SearchIsGreatest(t, {}, als, i, V12.Search(t, als, i).value);
  }

  /** Without category terms, v1.2 keeps a segment whole exactly when v1.3 does. */
  lemma SameFallback(seg: string, dict: seq<string>)
    ensures V12.ChunkSegment(seg, dict) == [seg] <==> V13.ChunkSegment(seg, dict, {}) == [seg]
  {
    if |seg| > MaxChunk {
      V12.FallbackExactlyWhenUnchunkable(seg, dict);
      V13.FallbackExactlyWhenUnchunkable(seg, dict, {});
    }
  }

  /** Every token has one character. */
  predicate UnitTokens(t: seq<string>) {
    forall k :: 0 <= k < |t| ==> |t[k]| == 1
  }

  lemma {:induction false} UnitGroupLen(t: seq<string>, i: nat, e: nat)
    requires UnitTokens(t) && i <= e <= |t|
    ensures GroupLen(t, i, e) == e - i
    decreases e - i
  {
    if i < e {
      UnitGroupLen(t, i, e - 1);
    }
  }

  /** No dictionary word occurs in `chars` from `i` on. */
  predicate NoWordIn(chars: string, i: nat, words: set<string>) {
    forall k, l :: i <= k < l <= |chars| ==> chars[k..l] !in words
  }

  /** With no word to match, the tokenizer cuts the text into single characters. */
  lemma {:induction false} PlainTokens(chars: string, i: nat, words: set<string>, maxWordLen: nat)
    requires i <= |chars| && NoWordIn(chars, i, words)
    ensures |Tokens(chars, i, words, maxWordLen)| == |chars| - i
    ensures UnitTokens(Tokens(chars, i, words, maxWordLen))
    decreases |chars| - i
  {
    if i < |chars| {
      var len := Min(maxWordLen, |chars| - i);
      MatchLenIsLongest(chars, i, len, words);
      var m := MatchLen(chars, i, len, words);
      assert m == 0;
      PlainTokens(chars, i + 1, words, maxWordLen);
    }
  }

  /** A chunk of unit tokens that satisfies the strict length rules spans 4 to 8 tokens. */
  lemma StrictUnitChunk(t: seq<string>, cats: set<string>, i: nat, e: nat)
    requires UnitTokens(t) && Admissible(t, cats, false, i, e)
    ensures MinChunk <= e - i <= MaxChunk
  {
    UnitGroupLen(t, i, e);
  }

  /** The two chunks of a ten-character segment, as chunk ends. */
  lemma {:induction false} TenUnitsChunked(t: seq<string>, cats: set<string>, ends: seq<nat>)
    requires |t| == 10 && UnitTokens(t)
    requires ValidChunking(t, cats, false, 0, ends)
    ensures |ends| == 2 && ends[1] == 10 && 4 <= ends[0] <= 6
  {
    assert ends != [];
    StrictUnitChunk(t, cats, 0, ends[0]);
    var rest := ends[1..];
    assert ValidChunking(t, cats, false, ends[0], rest);
    assert rest != [];
    StrictUnitChunk(t, cats, ends[0], rest[0]);
    var rest' := rest[1..];
    assert ValidChunking(t, cats, false, rest[0], rest');
    if rest' != [] {
      StrictUnitChunk(t, cats, rest[0], rest'[0]);
      assert false;
    }
  }

  /** With no category term among the characters, every strict length-correct chunk is admitted. */
  lemma UnitChunkAdmissible(t: seq<string>, cats: set<string>, i: nat, e: nat)
    requires UnitTokens(t) && i < e <= |t|
    requires forall k :: 0 <= k < |t| ==> t[k] !in cats
    requires MinChunk <= e - i <= MaxChunk
    ensures Admissible(t, cats, false, i, e)
  {
    UnitGroupLen(t, i, e);
  }

  /** Unit tokens that concatenate to `s` are as many as its characters. */
  lemma UnitCount(t: seq<string>, s: string)
    requires Flatten(t) == s && UnitTokens(t)
    ensures |t| == |s|
  {
    GroupLenIsJoinedLength(t, 0, |t|);
    UnitGroupLen(t, 0, |t|);
    assert t[0..|t|] == t;
  }

  /** A two-chunk rendering, written out. */
  lemma RenderTwo(t: seq<string>, c: nat)
    requires 0 < c < |t|
    ensures Ascending(t, 0, [c, |t|])
    ensures Render(t, 0, [c, |t|]) == [Flatten(t[0..c]), Flatten(t[c..|t|])]
  {
    assert ([c, |t|])[1..] == [|t|];
    assert ([|t|])[1..] == [];
    assert Ascending(t, |t|, []);
    assert Ascending(t, c, [|t|]);
    assert Render(t, |t|, []) == [];
    assert Render(t, c, [|t|]) == [Flatten(t[c..|t|])] + Render(t, |t|, []);
  }

  /** The first `c` unit tokens concatenate to the first `c` characters, the others to the rest. */
  lemma UnitHalves(t: seq<string>, s: string, c: nat)
    requires Flatten(t) == s && UnitTokens(t) && 0 < c < |t|
    ensures |s| == |t|
    ensures Flatten(t[0..c]) == s[..c] && Flatten(t[c..|t|]) == s[c..]
  {
    UnitCount(t, s);
    var a := Flatten(t[0..c]);
    var b := Flatten(t[c..|t|]);
    assert s == a + b by {
      assert t[0..c] + t[c..|t|] == t;
      FlattenConcat(t[0..c], t[c..|t|]);
    }
    assert |a| == c by {
      UnitGroupLen(t, 0, c);
      GroupLenIsJoinedLength(t, 0, c);
    }
    ConcatHalves(a, b, s);
  }

  lemma ConcatHalves(a: string, b: string, s: string)
    requires s == a + b
    ensures s[..|a|] == a && s[|a|..] == b
  {
  }

  /** Cutting unit tokens after `c` of them renders the first `c` characters and the rest. */
  lemma SplitRender(t: seq<string>, s: string, c: nat)
    requires Flatten(t) == s && UnitTokens(t) && 0 < c < |t|
    ensures Ascending(t, 0, [c, |t|])
    ensures |s| == |t|
    ensures Render(t, 0, [c, |t|]) == [s[..c], s[c..]]
  {
    RenderTwo(t, c);
    UnitHalves(t, s, c);
  }

  /**
   * Ten characters holding no dictionary word (and no category term): v1.3
   * keeps the longest first chunk and returns 6 + 4 characters, v1.2 keeps the
   * shortest and returns 4 + 6, in the strict pass.
   */
  lemma TenPlainCharacters(seg: string, dict: seq<string>, cats: set<string>)
    requires |seg| == 10 && NoWordIn(seg, 0, WordSet(dict))
    requires forall k :: 0 <= k < |seg| ==> [seg[k]] !in cats
    ensures V13.ChunkSegment(seg, dict, cats) == [seg[..6], seg[6..]]
    ensures V12.ChunkSegment(seg, dict) == [seg[..4], seg[4..]]
  {
    var t := TokenizeSpec(seg, dict);
    TenUnits(seg, dict, cats);
    TokensOfSegment(seg, dict);
    TenLongestFirst(t, seg, cats);
    TenShortestFirst(t, seg);
  }

  /** The tokens of ten plain characters are ten one-character tokens, none a category term. */
  lemma TenUnits(seg: string, dict: seq<string>, cats: set<string>)
    requires |seg| == 10 && NoWordIn(seg, 0, WordSet(dict))
    requires forall k :: 0 <= k < |seg| ==> [seg[k]] !in cats
    ensures var t := TokenizeSpec(seg, dict);
      |t| == 10 && UnitTokens(t) && Flatten(t) == seg && forall k :: 0 <= k < |t| ==> t[k] !in cats
  {
    var t := TokenizeSpec(seg, dict);
    PlainTokens(seg, 0, WordSet(dict), MaxWordLen(dict));
    TokensOfSegment(seg, dict);
    forall k | 0 <= k < |t| ensures t[k] !in cats {
      TokenIsSlice(t, seg, k);
    }
  }

  /** v1.3 on ten unit tokens: `[6, 10]` is a strict chunking and the greatest one. */
  lemma TenLongestFirst(t: seq<string>, seg: string, cats: set<string>)
    requires |t| == 10 && |seg| == 10 && UnitTokens(t) && Flatten(t) == seg
    requires forall k :: 0 <= k < |t| ==> t[k] !in cats
    ensures V13.ChunksFrom(t, cats, false, 0) == Some([seg[..6], seg[6..]])
  {
    UnitChunkAdmissible(t, cats, 0, 6);
    UnitChunkAdmissible(t, cats, 6, 10);
    assert ([6, 10])[1..] == [10];
    assert ([10])[1..] == [];
    assert ValidChunking(t, cats, false, 0, [6, 10]);
    V13.SearchIsGreatest(t, cats, false, 0, [6, 10]);
    V13.SearchSound(t, cats, false, 0);
    var r13 := V13.Search(t, cats, false, 0).value;
    TenUnitsChunked(t, cats, r13);
    assert r13 == [6, 10];
    SplitRender(t, seg, 6);
  }

  /** v1.2 on ten unit tokens: `[4, 10]` is a strict chunking and the least one. */
  lemma TenShortestFirst(t: seq<string>, seg: string)
    requires |t| == 10 && |seg| == 10 && UnitTokens(t) && Flatten(t) == seg
    ensures V12.ChunksFrom(t, false, 0) == Some([seg[..4], seg[4..]])
  {
    assert forall k :: 0 <= k < |t| ==> t[k] !in {};
    UnitChunkAdmissible(t, {}, 0, 4);
    UnitChunkAdmissible(t, {}, 4, 10);
    assert ([4, 10])[1..] == [10];
    assert ([10])[1..] == [];
    assert ValidChunking(t, {}, false, 0, [4, 10]);
    V12.SearchIsLeast(t, false, 0, [4, 10]);
    V12.SearchSound(t, false, 0);
    var r12 := V12.Search(t, false, 0).value;
    TenUnitsChunked(t, {}, r12);
    assert r12 == [4, 10];
    SplitRender(t, seg, 4);
  }

  /** A one-character token is the character of the text at its position. */
  lemma TokenIsSlice(t: seq<string>, s: string, k: nat)
    requires Flatten(t) == s && UnitTokens(t) && k < |t|
    ensures k < |s| && t[k] == [s[k]]
  {
    UnitCount(t, s);
    assert t == t[..k] + [t[k]] + t[k + 1..];
    FlattenConcat(t[..k] + [t[k]], t[k + 1..]);
    FlattenConcat(t[..k], [t[k]]);
    FlattenSingleton(t[k]);
    GroupLenIsJoinedLength(t, 0, k);
    UnitGroupLen(t, 0, k);
    assert t[0..k] == t[..k];
  }
}
