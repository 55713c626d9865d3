/**
 * `chunkChineseSegment` of the v1.2 userscript: the same tokenizer, length
 * rules and two passes as v1.3, but no category rule, and the depth-first
 * search takes chunk ends in increasing order, keeping the first whose
 * remainder can be chunked, so the shortest admissible first chunk wins.
 *
 * The chunkings are those of `Chunking.ValidChunking` with an empty category set.
 */
module ChunkerV12 {
  import opened Wrappers
  import opened Strings
  import opened Tokenizer
  import opened Chunking

  /** A chunk of the v1.2 search: inside the tokens and within the length rules. */
  predicate Fits(t: seq<string>, als: bool, i: nat, e: nat) {
    i < e <= |t| && LengthOk(t, als, i, e)
  }

  lemma FitsIsAdmissible(t: seq<string>, als: bool, i: nat, e: nat)
    ensures Fits(t, als, i, e) <==> Admissible(t, {}, als, i, e)
  {
    if i < e <= |t| {
      NoCategoriesNoConstraint(t, i, e);
    }
  }

  /** What `dfs(i)` computes, as chunk ends. */
  function Search(t: seq<string>, als: bool, i: nat): Option<seq<nat>>
    requires i <= |t|
    decreases |t| - i, 1, 0
  {
    if i == |t| then Some([]) else TryShortest(t, als, i, i + 1)
  }

  /** The `for (end = ...)` loop from chunk end `e` on: `break` past 8 characters, `continue` on a failed length test. */
  function TryShortest(t: seq<string>, als: bool, i: nat, e: nat): Option<seq<nat>>
    requires i < e && i < |t|
    decreases |t| - i, 0, |t| + 1 - e
  {
    if e > |t| then None
    else if GroupLen(t, i, e) > MaxChunk then None
    else if !LengthOk(t, als, i, e) then TryShortest(t, als, i, e + 1)
    else
      match Search(t, als, e)
      case Some(rest) => Some([e] + rest)
      case None => TryShortest(t, als, i, e + 1)
  }

  /** A chunking the search returns obeys every rule. */
  lemma {:induction false} SearchSound(t: seq<string>, als: bool, i: nat)
    requires i <= |t|
    ensures Search(t, als, i).Some? ==> ValidChunking(t, {}, als, i, Search(t, als, i).value)
    decreases |t| - i, 1, 0
  {
    if i < |t| {
      TryShortestSound(t, als, i, i + 1);
    }
  }

  lemma {:induction false} TryShortestSound(t: seq<string>, als: bool, i: nat, e: nat)
    requires i < e && i < |t|
    ensures TryShortest(t, als, i, e).Some? ==> ValidChunking(t, {}, als, i, TryShortest(t, als, i, e).value)
    decreases |t| - i, 0, |t| + 1 - e
  {
    if e <= |t| && GroupLen(t, i, e) <= MaxChunk {
      if !LengthOk(t, als, i, e) {
        TryShortestSound(t, als, i, e + 1);
      } else {
        SearchSound(t, als, e);
        FitsIsAdmissible(t, als, i, e);
        if Search(t, als, e).None? {
          TryShortestSound(t, als, i, e + 1);
        } else {
          var rest := Search(t, als, e).value;
          assert ([e] + rest)[1..] == rest;
        }
      }
    }
  }

  /** Once an admissible end `c >= e` has a chunked remainder, the loop from `e` succeeds. */
  lemma {:induction false} TryShortestReaches(t: seq<string>, als: bool, i: nat, e: nat, c: nat)
    requires i < e <= c && i < |t|
    requires Fits(t, als, i, c) && Search(t, als, c).Some?
    ensures TryShortest(t, als, i, e).Some?
    decreases c - e
  {
    GroupLenMonotone(t, i, e, c);
    if e < c && (!LengthOk(t, als, i, e) || Search(t, als, e).None?) {
      TryShortestReaches(t, als, i, e + 1, c);
    }
  }

  /** The search fails only when no chunking exists. */
  lemma {:induction false} SearchComplete(t: seq<string>, als: bool, i: nat, ends: seq<nat>)
    requires ValidChunking(t, {}, als, i, ends)
    ensures i <= |t| && Search(t, als, i).Some?
    decreases |ends|
  {
    ValidIsAscending(t, {}, als, i, ends);
    if ends != [] {
      SearchComplete(t, als, ends[0], ends[1..]);
      FitsIsAdmissible(t, als, i, ends[0]);
      TryShortestReaches(t, als, i, i + 1, ends[0]);
    }
  }

  /** Every end tried before the winning one, that is every shorter admissible one, had no chunked remainder. */
  lemma {:induction false} TryShortestSkipped(t: seq<string>, als: bool, i: nat, e: nat, c: nat)
    requires i < e <= c && i < |t|
    requires TryShortest(t, als, i, e).Some? && TryShortest(t, als, i, e).value != []
    requires c < TryShortest(t, als, i, e).value[0] && Fits(t, als, i, c)
    ensures Search(t, als, c).None?
    decreases c - e
  {
    if e < c {
      TryShortestSkipped(t, als, i, e + 1, c);
    }
  }

  /** The result of the loop from `e`, when it succeeds, starts at or after `e`. */
  lemma {:induction false} TryShortestFrom(t: seq<string>, als: bool, i: nat, e: nat)
    requires i < e && i < |t|
    requires TryShortest(t, als, i, e).Some?
    ensures TryShortest(t, als, i, e).value != []
    ensures e <= TryShortest(t, als, i, e).value[0] <= |t|
    ensures Search(t, als, TryShortest(t, als, i, e).value[0]) == Some(TryShortest(t, als, i, e).value[1..])
    decreases |t| + 1 - e
  {
    if e <= |t| && GroupLen(t, i, e) <= MaxChunk {
      if !LengthOk(t, als, i, e) || Search(t, als, e).None? {
        TryShortestFrom(t, als, i, e + 1);
      } else {
        var rest := Search(t, als, e).value;
        assert ([e] + rest)[1..] == rest;
      }
    }
  }

  /**
   * Shortest first: no admissible first chunk shorter than the chosen one
   * admits a chunking of the remainder.
   */
  lemma ShortestFirst(t: seq<string>, als: bool, i: nat, c: nat)
    requires i <= |t| && Search(t, als, i).Some? && Search(t, als, i).value != []
    requires c < Search(t, als, i).value[0] && Admissible(t, {}, als, i, c)
    ensures forall ends :: !ValidChunking(t, {}, als, c, ends)
  {
    FitsIsAdmissible(t, als, i, c);
    TryShortestSkipped(t, als, i, i + 1, c);
    forall ends | ValidChunking(t, {}, als, c, ends) ensures false {
      SearchComplete(t, als, c, ends);
    }
  }

  /** The chunking found is the lexicographically least one: chunk by chunk, the shortest possible. */
  lemma {:induction false} SearchIsLeast(t: seq<string>, als: bool, i: nat, ends: seq<nat>)
    requires ValidChunking(t, {}, als, i, ends)
    ensures i <= |t| && Search(t, als, i).Some?
    ensures LexLeq(Search(t, als, i).value, ends)
    decreases |ends|
  {
    SearchComplete(t, als, i, ends);
    var found := Search(t, als, i).value;
    if found != [] {
      TryShortestFrom(t, als, i, i + 1);
      var e := ends[0];
      if e < found[0] {
        ShortestFirst(t, als, i, e);
        assert false;
      } else if e == found[0] {
        SearchIsLeast(t, als, e, ends[1..]);
      }
    }
  }

  /** `dfs(i)` as the script returns it: the chunks as strings, or `null`. */
  function ChunksFrom(t: seq<string>, als: bool, i: nat): Option<seq<string>>
    requires i <= |t|
  {
    match Search(t, als, i)
    case None => None
    case Some(ends) =>
      SearchSound(t, als, i);
      ValidIsAscending(t, {}, als, i, ends);
      Some(Render(t, i, ends))
  }

  /** A failed length test or a remainder that cannot be chunked moves the loop to the next end. */
  lemma Skipped(t: seq<string>, als: bool, i: nat, e: nat)
    requires i < e <= |t| && GroupLen(t, i, e) <= MaxChunk
    requires !LengthOk(t, als, i, e) || ChunksFrom(t, als, e).None?
    ensures TryShortest(t, als, i, e) == TryShortest(t, als, i, e + 1)
  {
  }

  /** The first end that passes the length test and whose remainder is chunked decides `dfs(i)`. */
  lemma Chosen(t: seq<string>, als: bool, i: nat, e: nat, rest: seq<string>)
    requires i < e <= |t| && GroupLen(t, i, e) <= MaxChunk && LengthOk(t, als, i, e)
    requires ChunksFrom(t, als, e) == Some(rest)
    requires TryShortest(t, als, i, i + 1) == TryShortest(t, als, i, e)
    ensures ChunksFrom(t, als, i) == Some([Flatten(t[i..e])] + rest)
  {
    var restEnds := Search(t, als, e).value;
    SearchSound(t, als, e);
    ValidIsAscending(t, {}, als, e, restEnds);
    assert ([e] + restEnds)[1..] == restEnds;
    SearchSound(t, als, i);
    assert Render(t, i, [e] + restEnds) == [Flatten(t[i..e])] + rest;
  }

  /** Past the last token or past 8 characters the loop ends, and `dfs(i)` fails. */
  lemma Exhausted(t: seq<string>, als: bool, i: nat, e: nat)
    requires i < e && i < |t| && (e > |t| || GroupLen(t, i, e) > MaxChunk)
    requires TryShortest(t, als, i, i + 1) == TryShortest(t, als, i, e)
    ensures ChunksFrom(t, als, i).None?
  {
  }

  /** Every cached result is the one `dfs` computes. */
  ghost predicate MemoAgrees(t: seq<string>, als: bool, memo: map<nat, Option<seq<string>>>) {
    forall k :: k in memo ==> k <= |t| && memo[k] == ChunksFrom(t, als, k)
  }

  lemma MemoUpdate(t: seq<string>, als: bool, memo: map<nat, Option<seq<string>>>, i: nat, r: Option<seq<string>>)
    requires MemoAgrees(t, als, memo) && i <= |t| && r == ChunksFrom(t, als, i)
    ensures MemoAgrees(t, als, memo[i := r])
  {
  }

  /**
   * The state of one `tryPartition(allowLastShort)` call: the tokens and the
   * flag are fixed, and `memo` caches `dfs` results by start index.
   */
  class Partitioner {
    const tokens: seq<string>
    const allowLastShort: bool
    var memo: map<nat, Option<seq<string>>>

    /** Every cached result is the one `dfs` computes. */
    ghost predicate Valid()
      reads this
    {
      MemoAgrees(tokens, allowLastShort, memo)
    }

    constructor(tokens: seq<string>, allowLastShort: bool)
      ensures this.tokens == tokens && this.allowLastShort == allowLastShort
      ensures memo == map[] && Valid()
    {
      this.tokens := tokens;
      this.allowLastShort := allowLastShort;
      memo := map[];
    }

    /** `dfs(index)`: chunk ends in increasing order, recursing at once, the first success taken. */
    method Dfs(index: nat) returns (r: Option<seq<string>>)
      requires Valid() && index <= |tokens|
      modifies this
      ensures Valid()
      ensures r == ChunksFrom(tokens, allowLastShort, index)
      ensures index < |tokens| ==> index in memo
      ensures old(memo).Keys <= memo.Keys
      decreases |tokens| - index
    {
      if index == |tokens| {
        return Some([]);
      }
      if index in memo {
        return memo[index];
      }
      var best: Option<seq<string>> := None;
      var len := 0;
      var end := index;
      while end < |tokens|
        invariant index <= end <= |tokens|
        invariant len == GroupLen(tokens, index, end)
        invariant Valid()
        invariant old(memo).Keys <= memo.Keys
        invariant TryShortest(tokens, allowLastShort, index, index + 1) == TryShortest(tokens, allowLastShort, index, end + 1)
        decreases |tokens| - end
      {
        len := len + |tokens[end]|;
        assert len == GroupLen(tokens, index, end + 1);
        if len > MaxChunk {
          break;
        }
        var ok := true;
        if end != |tokens| - 1 {
          if len < MinChunk {
            ok := false;
          }
        } else {
          if !allowLastShort && len < MinChunk {
            ok := false;
          }
          if len < 1 {
            ok := false;
          }
        }
        assert ok == LengthOk(tokens, allowLastShort, index, end + 1);
        if ok {
          var rest := Dfs(end + 1);
          if rest.Some? {
            best := Some([Flatten(tokens[index..end + 1])] + rest.value);
            Chosen(tokens, allowLastShort, index, end + 1, rest.value);
            break;
          }
        }
        Skipped(tokens, allowLastShort, index, end + 1);
        end := end + 1;
      }
      if best.None? {
        Exhausted(tokens, allowLastShort, index, end + 1);
      }
      MemoUpdate(tokens, allowLastShort, memo, index, best);
      memo := memo[index := best];
      r := best;
    }
  }

  /** `tryPartition(allowLastShort)`: a fresh memo and `dfs(0)`. */
  method TryPartition(tokens: seq<string>, allowLastShort: bool) returns (r: Option<seq<string>>)
    ensures r == ChunksFrom(tokens, allowLastShort, 0)
  {
    var p := new Partitioner(tokens, allowLastShort);
    r := p.Dfs(0);
  }

  /** What `chunkChineseSegment(seg)` returns. */
  function ChunkSegment(seg: string, dict: seq<string>): seq<string> {
    if |seg| <= MaxChunk then [seg]
    else
      var t := TokenizeSpec(seg, dict);
      if GroupLen(t, 0, |t|) <= MaxChunk then [seg]
      else
        match ChunksFrom(t, false, 0)
        case Some(chunks) => chunks
        case None =>
          match ChunksFrom(t, true, 0)
          case Some(chunks) => chunks
          case None => [seg]
  }

  /** `chunkChineseSegment(seg)`. */
  method ChunkChineseSegment(seg: string, dict: seq<string>) returns (r: seq<string>)
    ensures r == ChunkSegment(seg, dict)
  {
    var n := |seg|;
    if n <= MaxChunk {
      return [seg];
    }
    var tokens := Tokenize(seg, dict);
    var totalLen := 0;
    for k := 0 to |tokens|
      invariant totalLen == GroupLen(tokens, 0, k)
    {
      totalLen := totalLen + |tokens[k]|;
    }
    if totalLen <= MaxChunk {
      return [seg];
    }
    var segments := TryPartition(tokens, false);
    if segments.None? {
      segments := TryPartition(tokens, true);
    }
    if segments.None? {
      return [seg];
    }
    return segments.value;
  }

  /** `ChunksFrom` at 0 succeeds with the rendering of a chunking; the chunks concatenate to the tokens. */
  lemma PassResult(t: seq<string>, als: bool)
    requires ChunksFrom(t, als, 0).Some?
    ensures Search(t, als, 0).Some?
    ensures ValidChunking(t, {}, als, 0, Search(t, als, 0).value)
    ensures Ascending(t, 0, Search(t, als, 0).value)
    ensures ChunksFrom(t, als, 0).value == Render(t, 0, Search(t, als, 0).value)
    ensures Flatten(ChunksFrom(t, als, 0).value) == Flatten(t)
    ensures ChunkLengthsOk(ChunksFrom(t, als, 0).value, als)
  {
    SearchSound(t, als, 0);
    var ends := Search(t, als, 0).value;
    RenderCovers(t, {}, als, 0, ends);
    RenderLengths(t, {}, als, 0, ends);
    assert t[0..] == t;
  }

  /**
   * The chunks concatenate back to the segment; a segment of at most 8
   * characters comes back whole; otherwise the result is either the whole
   * segment or at least two chunks of 1 to 8 characters, all but the last of
   * at least 4.
   */
  lemma ChunkSegmentShape(seg: string, dict: seq<string>)
    ensures Flatten(ChunkSegment(seg, dict)) == seg
    ensures |seg| <= MaxChunk ==> ChunkSegment(seg, dict) == [seg]
    ensures ChunkSegment(seg, dict) == [seg]
      || (|ChunkSegment(seg, dict)| >= 2 && ChunkLengthsOk(ChunkSegment(seg, dict), true))
  {
    var r := ChunkSegment(seg, dict);
    var t := TokenizeSpec(seg, dict);
    TokensOfSegment(seg, dict);
    if |seg| <= MaxChunk {
      FlattenSingleton(seg);
    } else if ChunksFrom(t, false, 0).Some? {
      PassResult(t, false);
      LongInputSplits(r, false, seg);
    } else if ChunksFrom(t, true, 0).Some? {
      PassResult(t, true);
      LongInputSplits(r, true, seg);
    } else {
      FlattenSingleton(seg);
    }
  }

  /**
   * When a strict chunking exists, the strict pass decides: every chunk has 4
   * to 8 characters, and the chunking is the lexicographically least strict one.
   */
  lemma StrictPassWins(seg: string, dict: seq<string>, ends: seq<nat>)
    requires |seg| > MaxChunk
    requires ValidChunking(TokenizeSpec(seg, dict), {}, false, 0, ends)
    ensures ChunkLengthsOk(ChunkSegment(seg, dict), false)
    ensures Search(TokenizeSpec(seg, dict), false, 0).Some?
    ensures LexLeq(Search(TokenizeSpec(seg, dict), false, 0).value, ends)
    ensures ChunkSegment(seg, dict) == ChunksFrom(TokenizeSpec(seg, dict), false, 0).value
  {
    var t := TokenizeSpec(seg, dict);
    TokensOfSegment(seg, dict);
    SearchIsLeast(t, false, 0, ends);
    PassResult(t, false);
  }

  lemma FallbackOnlyWhenUnchunkable(seg: string, dict: seq<string>, ends: seq<nat>)
    requires |seg| > MaxChunk
    requires ValidChunking(TokenizeSpec(seg, dict), {}, true, 0, ends)
    ensures ChunkSegment(seg, dict) != [seg]
  {
    var t := TokenizeSpec(seg, dict);
    var r := ChunkSegment(seg, dict);
    TokensOfSegment(seg, dict);
    SearchComplete(t, true, 0, ends);
    if ChunksFrom(t, false, 0).Some? {
      PassResult(t, false);
      LongInputSplits(r, false, seg);
    } else {
      PassResult(t, true);
      LongInputSplits(r, true, seg);
    }
  }

  /**
   * A split result is the rendering of a chunking of the tokens (with no
   * category rule).
   */
  lemma ChunkSegmentObeysRules(seg: string, dict: seq<string>)
    requires ChunkSegment(seg, dict) != [seg]
    ensures exists ends ::
      (ValidChunking(TokenizeSpec(seg, dict), {}, true, 0, ends)
       && Ascending(TokenizeSpec(seg, dict), 0, ends)
       && ChunkSegment(seg, dict) == Render(TokenizeSpec(seg, dict), 0, ends))
  {
    var t := TokenizeSpec(seg, dict);
    if ChunksFrom(t, false, 0).Some? {
      PassResult(t, false);
      StrictIsRelaxed(t, {}, 0, Search(t, false, 0).value);
    } else {
      PassResult(t, true);
    }
  }

  /** The segment comes back whole exactly when not even a relaxed chunking exists. */
  lemma FallbackExactlyWhenUnchunkable(seg: string, dict: seq<string>)
    requires |seg| > MaxChunk
    ensures ChunkSegment(seg, dict) == [seg]
      <==> forall ends :: !ValidChunking(TokenizeSpec(seg, dict), {}, true, 0, ends)
  {
    var t := TokenizeSpec(seg, dict);
    if ChunkSegment(seg, dict) == [seg] {
      forall ends | ValidChunking(t, {}, true, 0, ends) ensures false {
        FallbackOnlyWhenUnchunkable(seg, dict, ends);
      }
    } else {
      ChunkSegmentObeysRules(seg, dict);
    }
  }
}
