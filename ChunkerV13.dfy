/**
 * `chunkChineseSegment` of the v1.3 userscript: the token list of a Chinese run
 * is split by a memoised depth-first search whose candidate chunks are tried
 * longest first, under the length rules and the category rule; the strict pass
 * (every chunk 4 to 8 characters) comes before the relaxed one (the last chunk
 * may be shorter), and when both fail the segment stays whole.
 *
 * The word list and the category set are parameters.
 */
module ChunkerV13 {
  import opened Wrappers
  import opened Strings
  import opened Tokenizer
  import opened Chunking

  /**
   * The `candidates` array of `dfs(i)`, from chunk end `e` on: the admissible
   * ends in ascending order, up to the first chunk longer than 8 (the `break`).
   */
  function Candidates(t: seq<string>, cats: set<string>, als: bool, i: nat, e: nat): (r: seq<nat>)
    requires i < e
    ensures forall j :: 0 <= j < |r| ==> e <= r[j] <= |t|
    decreases |t| + 1 - e
  {
    if e > |t| then []
    else if GroupLen(t, i, e) > MaxChunk then []
    else (if Admissible(t, cats, als, i, e) then [e] else []) + Candidates(t, cats, als, i, e + 1)
  }

  /** The candidate list holds exactly the admissible ends; the `break` loses none. */
  lemma {:induction false} CandidatesExact(t: seq<string>, cats: set<string>, als: bool, i: nat, e: nat, c: nat)
    requires i < e
    ensures c in Candidates(t, cats, als, i, e) <==> e <= c && Admissible(t, cats, als, i, c)
    decreases |t| + 1 - e
  {
    if e <= |t| {
      if GroupLen(t, i, e) > MaxChunk {
        if e <= c <= |t| {
          GroupLenMonotone(t, i, e, c);
        }
      } else {
        CandidatesExact(t, cats, als, i, e + 1, c);
      }
    }
  }

  lemma {:induction false} CandidatesSorted(t: seq<string>, cats: set<string>, als: bool, i: nat, e: nat)
    requires i < e
    ensures forall a, b :: 0 <= a < b < |Candidates(t, cats, als, i, e)| ==>
      Candidates(t, cats, als, i, e)[a] < Candidates(t, cats, als, i, e)[b]
    decreases |t| + 1 - e
  {
    if e <= |t| && GroupLen(t, i, e) <= MaxChunk {
      CandidatesSorted(t, cats, als, i, e + 1);
    }
  }

  function AllCandidates(t: seq<string>, cats: set<string>, als: bool, i: nat): seq<nat> {
    Candidates(t, cats, als, i, i + 1)
  }

  /**
   * What `dfs(i)` computes, as chunk ends: `[]` at the end of the tokens,
   * otherwise the first success among the candidates taken from the last
   * (longest) to the first.
   *
   * The source sorts the candidates by descending length with a stable
   * sort. Taking them in reverse order is the same thing only when no two
   * candidates have equal length, which holds when every token is
   * non-empty (`Chunking.GroupLenStrictlyIncreasing`). The tokenizer
   * never yields an empty token (`Tokenizer.TokensNonEmpty`), so every
   * call from `ChunkChineseSegment` is in that case. For token lists
   * containing an empty token, two equal-length candidates would be tried
   * here in descending order of end, but by the stable sort in ascending
   * order.
   */
  function Search(t: seq<string>, cats: set<string>, als: bool, i: nat): Option<seq<nat>>
    requires i <= |t|
    decreases |t| - i, 1, 0
  {
    if i == |t| then Some([]) else TryLongest(t, cats, als, i, |AllCandidates(t, cats, als, i)|)
  }

  /** Trying the first `k` candidates, the `k`-th first. */
  function TryLongest(t: seq<string>, cats: set<string>, als: bool, i: nat, k: nat): Option<seq<nat>>
    requires i < |t| && k <= |AllCandidates(t, cats, als, i)|
    decreases |t| - i, 0, k
  {
    if k == 0 then None
    else
      var e := AllCandidates(t, cats, als, i)[k - 1];
      match Search(t, cats, als, e)
      case Some(rest) => Some([e] + rest)
      case None => TryLongest(t, cats, als, i, k - 1)
  }

  /** A chunking the search returns obeys every rule. */
  lemma {:induction false} SearchSound(t: seq<string>, cats: set<string>, als: bool, i: nat)
    requires i <= |t|
    ensures Search(t, cats, als, i).Some? ==> ValidChunking(t, cats, als, i, Search(t, cats, als, i).value)
    decreases |t| - i, 1, 0
  {
    if i < |t| {
      TryLongestSound(t, cats, als, i, |AllCandidates(t, cats, als, i)|);
    }
  }

  lemma {:induction false} TryLongestSound(t: seq<string>, cats: set<string>, als: bool, i: nat, k: nat)
    requires i < |t| && k <= |AllCandidates(t, cats, als, i)|
    ensures TryLongest(t, cats, als, i, k).Some? ==> ValidChunking(t, cats, als, i, TryLongest(t, cats, als, i, k).value)
    decreases |t| - i, 0, k
  {
    if k > 0 {
      var e := AllCandidates(t, cats, als, i)[k - 1];
      CandidatesExact(t, cats, als, i, i + 1, e);
      SearchSound(t, cats, als, e);
      if Search(t, cats, als, e).None? {
        TryLongestSound(t, cats, als, i, k - 1);
      } else {
        var rest := Search(t, cats, als, e).value;
        assert ([e] + rest)[1..] == rest;
      }
    }
  }

  /** Once the `m`-th candidate has a chunked remainder, trying any `k > m` candidates succeeds. */
  lemma {:induction false} TryLongestReaches(t: seq<string>, cats: set<string>, als: bool, i: nat, k: nat, m: nat)
    requires i < |t| && m < k <= |AllCandidates(t, cats, als, i)|
    requires Search(t, cats, als, AllCandidates(t, cats, als, i)[m]).Some?
    ensures TryLongest(t, cats, als, i, k).Some?
    decreases k
  {
    if k - 1 != m && Search(t, cats, als, AllCandidates(t, cats, als, i)[k - 1]).None? {
      TryLongestReaches(t, cats, als, i, k - 1, m);
    }
  }

  /** The search fails only when no chunking exists. */
  lemma {:induction false} SearchComplete(t: seq<string>, cats: set<string>, als: bool, i: nat, ends: seq<nat>)
    requires ValidChunking(t, cats, als, i, ends)
    ensures i <= |t| && Search(t, cats, als, i).Some?
    decreases |ends|
  {
    ValidIsAscending(t, cats, als, i, ends);
    if ends != [] {
      var e := ends[0];
      SearchComplete(t, cats, als, e, ends[1..]);
      var cs := AllCandidates(t, cats, als, i);
      CandidatesExact(t, cats, als, i, i + 1, e);
      var m :| 0 <= m < |cs| && cs[m] == e;
      TryLongestReaches(t, cats, als, i, |cs|, m);
    }
  }

  /** Every candidate tried before the winning one, that is every longer one, had no chunked remainder. */
  lemma {:induction false} TryLongestSkipped(t: seq<string>, cats: set<string>, als: bool, i: nat, k: nat, m: nat)
    requires i < |t| && m < k <= |AllCandidates(t, cats, als, i)|
    requires TryLongest(t, cats, als, i, k).Some? && TryLongest(t, cats, als, i, k).value != []
    requires AllCandidates(t, cats, als, i)[m] > TryLongest(t, cats, als, i, k).value[0]
    ensures Search(t, cats, als, AllCandidates(t, cats, als, i)[m]).None?
    decreases k
  {
    var cs := AllCandidates(t, cats, als, i);
    CandidatesSorted(t, cats, als, i, i + 1);
    if m < k - 1 && Search(t, cats, als, cs[k - 1]).None? {
      TryLongestSkipped(t, cats, als, i, k - 1, m);
    }
  }

  /**
   * Longest first: no admissible first chunk longer than the chosen one admits
   * a chunking of the remainder.
   */
  lemma LongestFirst(t: seq<string>, cats: set<string>, als: bool, i: nat, e': nat)
    requires i <= |t| && Search(t, cats, als, i).Some? && Search(t, cats, als, i).value != []
    requires Search(t, cats, als, i).value[0] < e' && Admissible(t, cats, als, i, e')
    ensures forall ends :: !ValidChunking(t, cats, als, e', ends)
  {
    var cs := AllCandidates(t, cats, als, i);
    CandidatesExact(t, cats, als, i, i + 1, e');
    var m :| 0 <= m < |cs| && cs[m] == e';
    TryLongestSkipped(t, cats, als, i, |cs|, m);
    forall ends | ValidChunking(t, cats, als, e', ends) ensures false {
      SearchComplete(t, cats, als, e', ends);
    }
  }

  /** The chunking found is the lexicographically greatest one: chunk by chunk, the longest possible. */
  lemma {:induction false} SearchIsGreatest(t: seq<string>, cats: set<string>, als: bool, i: nat, ends: seq<nat>)
    requires ValidChunking(t, cats, als, i, ends)
    ensures i <= |t| && Search(t, cats, als, i).Some?
    ensures LexLeq(ends, Search(t, cats, als, i).value)
    decreases |ends|
  {
    SearchComplete(t, cats, als, i, ends);
    SearchSound(t, cats, als, i);
    var found := Search(t, cats, als, i).value;
    if ends != [] {
      assert found != [];
      var e := ends[0];
      if e > found[0] {
        LongestFirst(t, cats, als, i, e);
        assert false;
      } else if e == found[0] {
        SearchIsGreatest(t, cats, als, e, ends[1..]);
        assert Search(t, cats, als, e).value == found[1..] by {
          SearchFirstStep(t, cats, als, i);
        }
      }
    }
  }

  /** A successful search from `i` continues with the search from its first chunk end. */
  lemma SearchFirstStep(t: seq<string>, cats: set<string>, als: bool, i: nat)
    requires i <= |t| && Search(t, cats, als, i).Some? && Search(t, cats, als, i).value != []
    ensures Search(t, cats, als, i).value[0] <= |t|
    ensures Search(t, cats, als, Search(t, cats, als, i).value[0]) == Some(Search(t, cats, als, i).value[1..])
  {
    TryLongestFirstStep(t, cats, als, i, |AllCandidates(t, cats, als, i)|);
  }

  lemma {:induction false} TryLongestFirstStep(t: seq<string>, cats: set<string>, als: bool, i: nat, k: nat)
    requires i < |t| && k <= |AllCandidates(t, cats, als, i)|
    requires TryLongest(t, cats, als, i, k).Some?
    ensures TryLongest(t, cats, als, i, k).value != []
    ensures TryLongest(t, cats, als, i, k).value[0] <= |t|
    ensures Search(t, cats, als, TryLongest(t, cats, als, i, k).value[0]) == Some(TryLongest(t, cats, als, i, k).value[1..])
    decreases k
  {
    var e := AllCandidates(t, cats, als, i)[k - 1];
    if Search(t, cats, als, e).None? {
      TryLongestFirstStep(t, cats, als, i, k - 1);
    } else {
      var rest := Search(t, cats, als, e).value;
      assert ([e] + rest)[1..] == rest;
    }
  }

  /** `dfs(i)` as the scripts return it: the chunks as strings, or `null`. */
  function ChunksFrom(t: seq<string>, cats: set<string>, als: bool, i: nat): Option<seq<string>>
    requires i <= |t|
  {
    match Search(t, cats, als, i)
    case None => None
    case Some(ends) =>
      SearchSound(t, cats, als, i);
      ValidIsAscending(t, cats, als, i, ends);
      Some(Render(t, i, ends))
  }

  lemma ShiftFront<T>(done: seq<T>, here: seq<T>, rest: seq<T>, mid: seq<T>, whole: seq<T>)
    requires done + mid == whole && mid == here + rest
    ensures (done + here) + rest == whole
  {
    assert (done + here) + rest == done + (here + rest);
  }

  /** The first loop of `dfs(index)`, which fills `candidates` (as exclusive chunk ends). */
  method CollectCandidates(tokens: seq<string>, cats: set<string>, allowLastShort: bool, index: nat)
    returns (candidates: seq<nat>)
    requires index < |tokens|
    ensures candidates == AllCandidates(tokens, cats, allowLastShort, index)
  {
    ghost var cs := AllCandidates(tokens, cats, allowLastShort, index);
    candidates := [];
    var len := 0;
    var end := index;
    while end < |tokens|
      invariant index <= end <= |tokens|
      invariant len == GroupLen(tokens, index, end)
      invariant candidates + Candidates(tokens, cats, allowLastShort, index, end + 1) == cs
      decreases |tokens| - end
    {
      len := len + |tokens[end]|;
      assert len == GroupLen(tokens, index, end + 1);
      if len > MaxChunk {
        assert Candidates(tokens, cats, allowLastShort, index, end + 1) == [];
        break;
      }
      var ok := true;
      if end != |tokens| - 1 {
        if len < MinChunk {
          ok := false;
        }
      } else {
        if !allowLastShort && len < MinChunk {
          ok := false;
        }
        if len < 1 {
          ok := false;
        }
      }
      assert ok == LengthOk(tokens, allowLastShort, index, end + 1);
      if ok {
        var hasCategory := exists k :: index <= k <= end && tokens[k] in cats;
        if hasCategory && tokens[end] !in cats {
          ok := false;
        }
      }
      assert ok == Admissible(tokens, cats, allowLastShort, index, end + 1);
      ghost var here := if ok then [end + 1] else [];
      ghost var before := candidates;
      assert Candidates(tokens, cats, allowLastShort, index, end + 1)
        == here + Candidates(tokens, cats, allowLastShort, index, end + 2);
      if ok {
        candidates := candidates + [end + 1];
      }
      assert candidates == before + here;
      ShiftFront(before, here, Candidates(tokens, cats, allowLastShort, index, end + 2),
        Candidates(tokens, cats, allowLastShort, index, end + 1), cs);
      end := end + 1;
    }
    assert candidates == cs;
  }

  /**
   * The state of one `tryPartition(allowLastShort)` call: the tokens, the
   * category set and the flag are fixed, and `memo` caches `dfs` results by
   * start index (the `|flag` half of the script's key is the same for every
   * entry of one map).
   */
  class Partitioner {
    const tokens: seq<string>
    const cats: set<string>
    const allowLastShort: bool
    var memo: map<nat, Option<seq<string>>>

    /** Every cached result is the one `dfs` computes. */
    ghost predicate Valid()
      reads this
    {
      forall k :: k in memo ==> k <= |tokens| && memo[k] == ChunksFrom(tokens, cats, allowLastShort, k)
    }

    constructor(tokens: seq<string>, cats: set<string>, allowLastShort: bool)
      ensures this.tokens == tokens && this.cats == cats && this.allowLastShort == allowLastShort
      ensures memo == map[] && Valid()
    {
      this.tokens := tokens;
      this.cats := cats;
      this.allowLastShort := allowLastShort;
      memo := map[];
    }

    /** `dfs(index)`: collect the candidate ends, then try them from the longest down. */
    method Dfs(index: nat) returns (r: Option<seq<string>>)
      requires Valid() && index <= |tokens|
      modifies this
      ensures Valid()
      ensures r == ChunksFrom(tokens, cats, allowLastShort, index)
      ensures index < |tokens| ==> index in memo
      ensures old(memo).Keys <= memo.Keys
      decreases |tokens| - index
    {
      if index == |tokens| {
        return Some([]);
      }
      if index in memo {
        return memo[index];
      }
      var candidates := CollectCandidates(tokens, cats, allowLastShort, index);
      ghost var cs := AllCandidates(tokens, cats, allowLastShort, index);

      // `candidates.sort((a, b) => b.len - a.len)`: by `GroupLenStrictlyIncreasing`
      // the longest candidate is the last one, so they are tried from the back.
      var best: Option<seq<string>> := None;
      var k := |candidates|;
      while k > 0
        invariant 0 <= k <= |candidates|
        invariant Valid()
        invariant old(memo).Keys <= memo.Keys
        invariant TryLongest(tokens, cats, allowLastShort, index, |cs|) == TryLongest(tokens, cats, allowLastShort, index, k)
        decreases k
      {
        var e := candidates[k - 1];
        var rest := Dfs(e);
        if rest.Some? {
          ghost var restEnds := Search(tokens, cats, allowLastShort, e).value;
          SearchSound(tokens, cats, allowLastShort, e);
          ValidIsAscending(tokens, cats, allowLastShort, e, restEnds);
          assert ([e] + restEnds)[1..] == restEnds;
          best := Some([Flatten(tokens[index..e])] + rest.value);
          assert best == Some(Render(tokens, index, [e] + restEnds));
          break;
        }
        k := k - 1;
      }
      memo := memo[index := best];
      r := best;
    }
  }

  /** `tryPartition(allowLastShort)`: a fresh memo and `dfs(0)`. */
  method TryPartition(tokens: seq<string>, cats: set<string>, allowLastShort: bool) returns (r: Option<seq<string>>)
    ensures r == ChunksFrom(tokens, cats, allowLastShort, 0)
  {
    var p := new Partitioner(tokens, cats, allowLastShort);
    r := p.Dfs(0);
  }

  /** What `chunkChineseSegment(seg)` returns. */
  function ChunkSegment(seg: string, dict: seq<string>, cats: set<string>): seq<string> {
    if |seg| <= MaxChunk then [seg]
    else
      var t := TokenizeSpec(seg, dict);
      if GroupLen(t, 0, |t|) <= MaxChunk then [seg]
      else
        match ChunksFrom(t, cats, false, 0)
        case Some(chunks) => chunks
        case None =>
          match ChunksFrom(t, cats, true, 0)
          case Some(chunks) => chunks
          case None => [seg]
  }

  /** `chunkChineseSegment(seg)`. */
  method ChunkChineseSegment(seg: string, dict: seq<string>, cats: set<string>) returns (r: seq<string>)
    ensures r == ChunkSegment(seg, dict, cats)
  {
    var n := |seg|;
    if n <= MaxChunk {
      return [seg];
    }
    var tokens := Tokenize(seg, dict);
    var totalLen := 0;
    for k := 0 to |tokens|
      invariant totalLen == GroupLen(tokens, 0, k)
    {
      totalLen := totalLen + |tokens[k]|;
    }
    if totalLen <= MaxChunk {
      return [seg];
    }
    var segments := TryPartition(tokens, cats, false);
    if segments.None? {
      segments := TryPartition(tokens, cats, true);
    }
    if segments.None? {
      return [seg];
    }
    return segments.value;
  }

  /** `ChunksFrom` at 0 succeeds with the rendering of a chunking; the chunks concatenate to the tokens. */
  lemma PassResult(t: seq<string>, cats: set<string>, als: bool)
    requires ChunksFrom(t, cats, als, 0).Some?
    ensures Search(t, cats, als, 0).Some?
    ensures ValidChunking(t, cats, als, 0, Search(t, cats, als, 0).value)
    ensures Ascending(t, 0, Search(t, cats, als, 0).value)
    ensures ChunksFrom(t, cats, als, 0).value == Render(t, 0, Search(t, cats, als, 0).value)
    ensures Flatten(ChunksFrom(t, cats, als, 0).value) == Flatten(t)
    ensures ChunkLengthsOk(ChunksFrom(t, cats, als, 0).value, als)
  {
    SearchSound(t, cats, als, 0);
    var ends := Search(t, cats, als, 0).value;
    RenderCovers(t, cats, als, 0, ends);
    RenderLengths(t, cats, als, 0, ends);
    assert t[0..] == t;
  }

  /**
   * The chunks concatenate back to the segment; a segment of at most 8
   * characters comes back whole; otherwise the result is either the whole
   * segment or at least two chunks of 1 to 8 characters, all but the last of
   * at least 4.
   */
  lemma ChunkSegmentShape(seg: string, dict: seq<string>, cats: set<string>)
    ensures Flatten(ChunkSegment(seg, dict, cats)) == seg
    ensures |seg| <= MaxChunk ==> ChunkSegment(seg, dict, cats) == [seg]
    ensures ChunkSegment(seg, dict, cats) == [seg]
      || (|ChunkSegment(seg, dict, cats)| >= 2 && ChunkLengthsOk(ChunkSegment(seg, dict, cats), true))
  {
    var r := ChunkSegment(seg, dict, cats);
    var t := TokenizeSpec(seg, dict);
    TokensOfSegment(seg, dict);
    if |seg| <= MaxChunk {
      FlattenSingleton(seg);
    } else if ChunksFrom(t, cats, false, 0).Some? {
      PassResult(t, cats, false);
      LongInputSplits(r, false, seg);
    } else if ChunksFrom(t, cats, true, 0).Some? {
      PassResult(t, cats, true);
      LongInputSplits(r, true, seg);
    } else {
      FlattenSingleton(seg);
    }
  }

  /**
   * When a strict chunking exists, the strict pass decides: every chunk has 4
   * to 8 characters, and the chunking is the lexicographically greatest strict
   * one.
   */
  lemma StrictPassWins(seg: string, dict: seq<string>, cats: set<string>, ends: seq<nat>)
    requires |seg| > MaxChunk
    requires ValidChunking(TokenizeSpec(seg, dict), cats, false, 0, ends)
    ensures ChunkLengthsOk(ChunkSegment(seg, dict, cats), false)
    ensures Search(TokenizeSpec(seg, dict), cats, false, 0).Some?
    ensures LexLeq(ends, Search(TokenizeSpec(seg, dict), cats, false, 0).value)
    ensures ChunkSegment(seg, dict, cats) == ChunksFrom(TokenizeSpec(seg, dict), cats, false, 0).value
  {
    var t := TokenizeSpec(seg, dict);
    TokensOfSegment(seg, dict);
    SearchIsGreatest(t, cats, false, 0, ends);
    PassResult(t, cats, false);
  }

  /** The segment comes back whole exactly when not even a relaxed chunking exists. */
  lemma FallbackExactlyWhenUnchunkable(seg: string, dict: seq<string>, cats: set<string>)
    requires |seg| > MaxChunk
    ensures ChunkSegment(seg, dict, cats) == [seg]
      <==> forall ends :: !ValidChunking(TokenizeSpec(seg, dict), cats, true, 0, ends)
  {
    var t := TokenizeSpec(seg, dict);
    if ChunkSegment(seg, dict, cats) == [seg] {
      forall ends | ValidChunking(t, cats, true, 0, ends) ensures false {
        FallbackOnlyWhenUnchunkable(seg, dict, cats, ends);
      }
    } else {
      ChunkSegmentObeysRules(seg, dict, cats);
    }
  }

  lemma FallbackOnlyWhenUnchunkable(seg: string, dict: seq<string>, cats: set<string>, ends: seq<nat>)
    requires |seg| > MaxChunk
    requires ValidChunking(TokenizeSpec(seg, dict), cats, true, 0, ends)
    ensures ChunkSegment(seg, dict, cats) != [seg]
  {
    var t := TokenizeSpec(seg, dict);
    var r := ChunkSegment(seg, dict, cats);
    TokensOfSegment(seg, dict);
    SearchComplete(t, cats, true, 0, ends);
    if ChunksFrom(t, cats, false, 0).Some? {
      PassResult(t, cats, false);
      LongInputSplits(r, false, seg);
    } else {
      PassResult(t, cats, true);
      LongInputSplits(r, true, seg);
    }
  }

  /**
   * A split result is the rendering of a chunking of the tokens, so each chunk
   * obeys the length rules and, read as a token range, the category rule
   * (`EveryChunkAdmissible`).
   */
  lemma ChunkSegmentObeysRules(seg: string, dict: seq<string>, cats: set<string>)
    requires ChunkSegment(seg, dict, cats) != [seg]
    ensures exists ends ::
      (ValidChunking(TokenizeSpec(seg, dict), cats, true, 0, ends)
       && Ascending(TokenizeSpec(seg, dict), 0, ends)
       && ChunkSegment(seg, dict, cats) == Render(TokenizeSpec(seg, dict), 0, ends))
  {
    var t := TokenizeSpec(seg, dict);
    if ChunksFrom(t, cats, false, 0).Some? {
      PassResult(t, cats, false);
      StrictIsRelaxed(t, cats, 0, Search(t, cats, false, 0).value);
    } else {
      PassResult(t, cats, true);
    }
  }
}
