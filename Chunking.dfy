/**
 * The chunk rules shared by the v1.2 and v1.3 `chunkChineseSegment`.
 *
 * A chunk is a run of consecutive tokens, written here by the half-open index
 * range `[i, e)` it covers; the scripts' inclusive `end` is `e - 1`. A chunking of
 * `t[i..]` is the ascending list of the chunk ends, the last one being `|t|`.
 * Both versions apply the same length rules; v1.3 adds the category rule, which
 * an empty category set switches off.
 */
module Chunking {
  import opened Strings
  import opened Tokenizer

  const MaxChunk: nat := 8
  const MinChunk: nat := 4

  /** `tokenLens.slice(i, e).reduce((a, b) => a + b, 0)`. */
  function GroupLen(t: seq<string>, i: nat, e: nat): nat
    requires i <= e <= |t|
    decreases e - i
  {
    if e == i then 0 else GroupLen(t, i, e - 1) + |t[e - 1]|
  }

  /** The summed token lengths are the length of the joined chunk. */
  lemma {:induction false} GroupLenIsJoinedLength(t: seq<string>, i: nat, e: nat)
    requires i <= e <= |t|
    ensures GroupLen(t, i, e) == |Flatten(t[i..e])|
    decreases e - i
  {
    if e > i {
      GroupLenIsJoinedLength(t, i, e - 1);
      assert t[i..e] == t[i..e - 1] + [t[e - 1]];
      FlattenConcat(t[i..e - 1], [t[e - 1]]);
      FlattenSingleton(t[e - 1]);
    } else {
      assert t[i..e] == [];
    }
  }

  lemma {:induction false} GroupLenMonotone(t: seq<string>, i: nat, e: nat, e': nat)
    requires i <= e <= e' <= |t|
    ensures GroupLen(t, i, e) <= GroupLen(t, i, e')
    decreases e' - e
  {
    if e < e' {
      GroupLenMonotone(t, i, e, e' - 1);
    }
  }

  predicate NonEmptyTokens(t: seq<string>) {
    forall k :: 0 <= k < |t| ==> t[k] != []
  }

  /**
   * With non-empty tokens a longer range is a strictly longer chunk, so the
   * candidates of one `dfs` call, listed by ascending end, have strictly
   * ascending lengths: ordering them by descending length (v1.3's stable
   * `candidates.sort`) is listing them by descending end.
   */
  lemma {:induction false} GroupLenStrictlyIncreasing(t: seq<string>, i: nat, e: nat, e': nat)
    requires NonEmptyTokens(t)
    requires i <= e < e' <= |t|
    ensures GroupLen(t, i, e) < GroupLen(t, i, e')
    decreases e' - e
  {
    if e + 1 < e' {
      GroupLenStrictlyIncreasing(t, i, e, e' - 1);
    }
  }

  /**
   * The length tests of the candidate loop: at most 8 characters; at least 4
   * unless the chunk is the last one and `allowLastShort` holds, in which case
   * at least 1.
   */
  predicate LengthOk(t: seq<string>, allowLastShort: bool, i: nat, e: nat)
    requires i <= e <= |t|
  {
    var len := GroupLen(t, i, e);
    len <= MaxChunk
    && (if e < |t| then len >= MinChunk else (!allowLastShort ==> len >= MinChunk) && len >= 1)
  }

  /** v1.3's category rule: a chunk holding a category term ends with one. */
  predicate CategoryOk(t: seq<string>, cats: set<string>, i: nat, e: nat)
    requires i < e <= |t|
  {
    (exists k :: i <= k < e && t[k] in cats) ==> t[e - 1] in cats
  }

  lemma NoCategoriesNoConstraint(t: seq<string>, i: nat, e: nat)
    requires i < e <= |t|
    ensures CategoryOk(t, {}, i, e)
  {
  }

  /** `[i, e)` passes every test of the candidate loop. */
  predicate Admissible(t: seq<string>, cats: set<string>, allowLastShort: bool, i: nat, e: nat) {
    i < e <= |t| && LengthOk(t, allowLastShort, i, e) && CategoryOk(t, cats, i, e)
  }

  /** `ends` splits `t[i..]` into admissible chunks. */
  predicate ValidChunking(t: seq<string>, cats: set<string>, allowLastShort: bool, i: nat, ends: seq<nat>)
    decreases |ends|
  {
    if ends == [] then i == |t|
    else
      Admissible(t, cats, allowLastShort, i, ends[0])
      && ValidChunking(t, cats, allowLastShort, ends[0], ends[1..])
  }

  /** Chunk ends that ascend from `i` and stay inside `t`. */
  predicate Ascending(t: seq<string>, i: nat, ends: seq<nat>)
    decreases |ends|
  {
    ends == [] || (i < ends[0] <= |t| && Ascending(t, ends[0], ends[1..]))
  }

  lemma {:induction false} ValidIsAscending(t: seq<string>, cats: set<string>, als: bool, i: nat, ends: seq<nat>)
    requires ValidChunking(t, cats, als, i, ends)
    ensures Ascending(t, i, ends) && i <= |t|
    decreases |ends|
  {
    if ends != [] {
      ValidIsAscending(t, cats, als, ends[0], ends[1..]);
    }
  }

  /** The chunks as strings: each one is its tokens joined with `''`. */
  function Render(t: seq<string>, i: nat, ends: seq<nat>): seq<string>
    requires i <= |t| && Ascending(t, i, ends)
    decreases |ends|
  {
    if ends == [] then [] else [Flatten(t[i..ends[0]])] + Render(t, ends[0], ends[1..])
  }

  /** The chunks concatenate back to the tokens they were made of. */
  lemma {:induction false} RenderCovers(t: seq<string>, cats: set<string>, als: bool, i: nat, ends: seq<nat>)
    requires ValidChunking(t, cats, als, i, ends)
    ensures i <= |t| && Ascending(t, i, ends)
    ensures Flatten(Render(t, i, ends)) == Flatten(t[i..])
    decreases |ends|
  {
    ValidIsAscending(t, cats, als, i, ends);
    if ends == [] {
      assert t[i..] == [];
    } else {
      var e := ends[0];
      RenderCovers(t, cats, als, e, ends[1..]);
      assert t[i..] == t[i..e] + t[e..];
      FlattenConcat(t[i..e], t[e..]);
      FlattenConcat([Flatten(t[i..e])], Render(t, e, ends[1..]));
      FlattenSingleton(Flatten(t[i..e]));
    }
  }

  /** Chunk length bounds: 4 to 8 characters, except that with `allowLastShort` the last chunk may have 1 to 8. */
  predicate ChunkLengthsOk(r: seq<string>, allowLastShort: bool) {
    forall j :: 0 <= j < |r| ==>
      1 <= |r[j]| <= MaxChunk && ((j < |r| - 1 || !allowLastShort) ==> |r[j]| >= MinChunk)
  }

  lemma {:induction false} RenderLengths(t: seq<string>, cats: set<string>, als: bool, i: nat, ends: seq<nat>)
    requires ValidChunking(t, cats, als, i, ends)
    ensures i <= |t| && Ascending(t, i, ends)
    ensures |Render(t, i, ends)| == |ends|
    ensures ChunkLengthsOk(Render(t, i, ends), als)
    decreases |ends|
  {
    ValidIsAscending(t, cats, als, i, ends);
    if ends != [] {
      var e := ends[0];
      var rest := Render(t, e, ends[1..]);
      RenderLengths(t, cats, als, e, ends[1..]);
      GroupLenIsJoinedLength(t, i, e);
      var r := Render(t, i, ends);
      assert r == [Flatten(t[i..e])] + rest;
      if ends[1..] != [] {
        assert e < |t|;
      }
      forall j | 0 <= j < |r|
        ensures 1 <= |r[j]| <= MaxChunk && ((j < |r| - 1 || !als) ==> |r[j]| >= MinChunk)
      {
        if j > 0 {
          assert r[j] == rest[j - 1];
        }
      }
    }
  }

  /** Where the `j`-th chunk of a chunking of `t[i..]` starts. */
  function ChunkStart(i: nat, ends: seq<nat>, j: nat): nat
    requires j < |ends|
  {
    if j == 0 then i else ends[j - 1]
  }

  /** Every chunk of a chunking, taken on its own, is admissible (in particular, obeys the category rule). */
  lemma {:induction false} EveryChunkAdmissible(t: seq<string>, cats: set<string>, als: bool, i: nat, ends: seq<nat>, j: nat)
    requires ValidChunking(t, cats, als, i, ends)
    requires j < |ends|
    ensures Admissible(t, cats, als, ChunkStart(i, ends, j), ends[j])
    decreases j
  {
    if j > 0 {
      EveryChunkAdmissible(t, cats, als, ends[0], ends[1..], j - 1);
    }
  }

  /** A chunking of the strict pass is also one of the relaxed pass. */
  lemma {:induction false} StrictIsRelaxed(t: seq<string>, cats: set<string>, i: nat, ends: seq<nat>)
    requires ValidChunking(t, cats, false, i, ends)
    ensures ValidChunking(t, cats, true, i, ends)
    decreases |ends|
  {
    if ends != [] {
      StrictIsRelaxed(t, cats, ends[0], ends[1..]);
    }
  }

  /** Lexicographic order on chunk-end lists: comparing first chunks first. */
  predicate LexLeq(a: seq<nat>, b: seq<nat>)
    decreases |a|
  {
    a == [] || (b != [] && (a[0] < b[0] || (a[0] == b[0] && LexLeq(a[1..], b[1..]))))
  }

  /** A split of more than 8 characters into chunks of at most 8 has at least two chunks. */
  lemma LongInputSplits(r: seq<string>, als: bool, s: string)
    requires ChunkLengthsOk(r, als) && Flatten(r) == s && |s| > MaxChunk
    ensures |r| >= 2
  {
    if |r| == 1 {
      FlattenSingleton(r[0]);
    }
  }

  /** The tokens of a segment concatenate back to it, so their summed length is its length. */
  lemma TokensOfSegment(seg: string, dict: seq<string>)
    ensures Flatten(TokenizeSpec(seg, dict)) == seg
    ensures GroupLen(TokenizeSpec(seg, dict), 0, |TokenizeSpec(seg, dict)|) == |seg|
  {
    var t := TokenizeSpec(seg, dict);
    TokensCover(seg, 0, WordSet(dict), MaxWordLen(dict));
    GroupLenIsJoinedLength(t, 0, |t|);
    assert t[0..|t|] == t;
  }
}
