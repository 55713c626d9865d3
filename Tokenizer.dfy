/**
 * Greedy dictionary tokenizer of a run of Chinese characters (`tokenizeChinese`,
 * written out identically in the v1.2 and v1.3 userscripts): at each position the
 * longest dictionary word of length at least 2 is taken, otherwise the single
 * character.
 */
module Tokenizer {
  import opened Strings

  /** `new Set(WORD_DICT)`. */
  function WordSet(dict: seq<string>): set<string> {
    set w | w in dict
  }

  /** `WORD_DICT.reduce((m, w) => Math.max(m, w.length), 1)`. */
  function MaxWordLen(dict: seq<string>): (m: nat)
    ensures m >= 1
    ensures forall w :: w in dict ==> |w| <= m

  {
    if dict == [] then 1
    else
      var m := MaxWordLen(dict[..|dict| - 1]);
      var last := dict[|dict| - 1];
      assert forall w :: w in dict ==> w in dict[..|dict| - 1] || w == last;
      assert forall w :: w in dict[..|dict| - 1] ==> w in dict;
      if |last| > m then |last| else m
  }

  /** The `len` characters of `chars` at `i` form a dictionary word. */
  predicate IsWordAt(chars: string, i: nat, len: nat, words: set<string>)
    requires i + len <= |chars|
  {
    chars[i..i + len] in words
  }

  /**
   * The inner `for (len = maxLen; len >= 2; len--)` search: the longest length in
   * `[2, len]` at which a word starts at `i`, or 0 when there is none.
   */
  function MatchLen(chars: string, i: nat, len: nat, words: set<string>): (r: nat)
    requires i + len <= |chars|
    ensures r <= len
  {
    if len < 2 then 0
    else if IsWordAt(chars, i, len, words) then len
    else MatchLen(chars, i, len - 1, words)
  }

  /** The search finds a word when there is one, and no longer word exists. */
  lemma {:induction false} MatchLenIsLongest(chars: string, i: nat, len: nat, words: set<string>)
    requires i + len <= |chars|
    ensures var r := MatchLen(chars, i, len, words);
      (r == 0 || (2 <= r && IsWordAt(chars, i, r, words)))
      && forall l :: r < l <= len && 2 <= l ==> !IsWordAt(chars, i, l, words)
    decreases len
  {
    if len >= 2 && !IsWordAt(chars, i, len, words) {
      MatchLenIsLongest(chars, i, len - 1, words);
    }
  }

  function Min(a: nat, b: nat): nat {
    if a < b then a else b
  }

  /** How far the tokenizer advances at `i`: the matched word's length, or 1. */
  function Step(chars: string, i: nat, words: set<string>, maxWordLen: nat): (s: nat)
    requires i < |chars|
    ensures 1 <= s <= |chars| - i
  {
    var m := MatchLen(chars, i, Min(maxWordLen, |chars| - i), words);
    if m > 0 then m else 1
  }

  /** The token list `tokenizeChinese` produces for `chars[i..]`. */
  function Tokens(chars: string, i: nat, words: set<string>, maxWordLen: nat): seq<string>
    requires i <= |chars|
    decreases |chars| - i
  {
    if i == |chars| then []
    else
      var s := Step(chars, i, words, maxWordLen);
      [chars[i..i + s]] + Tokens(chars, i + s, words, maxWordLen)
  }

  lemma {:induction false} TokensNonEmpty(chars: string, i: nat, words: set<string>, maxWordLen: nat)
    requires i <= |chars|
    ensures forall k :: 0 <= k < |Tokens(chars, i, words, maxWordLen)| ==> |Tokens(chars, i, words, maxWordLen)[k]| >= 1
    decreases |chars| - i
  {
    if i < |chars| {
      TokensNonEmpty(chars, i + Step(chars, i, words, maxWordLen), words, maxWordLen);
    }
  }

  function TokenizeSpec(chars: string, dict: seq<string>): seq<string> {
    Tokens(chars, 0, WordSet(dict), MaxWordLen(dict))
  }

  /** The inner `for` loop of `tokenizeChinese`: 0 stands for `matched = null`. */
  method LongestWordAt(chars: string, i: nat, words: set<string>, maxLen: nat) returns (matched: nat)
    requires i + maxLen <= |chars|
    ensures matched == MatchLen(chars, i, maxLen, words)
  {
    matched := 0;
    var len := maxLen;
    while len >= 2
      invariant 0 <= len <= maxLen
      invariant MatchLen(chars, i, maxLen, words) == MatchLen(chars, i, len, words)
      decreases len
    {
      if chars[i..i + len] in words {
        matched := len;
        return;
      }
      len := len - 1;
    }
  }

  /** `tokenizeChinese()`: a while loop advancing `i` and pushing onto `tokens`. */
  method Tokenize(chars: string, dict: seq<string>) returns (tokens: seq<string>)
    ensures tokens == TokenizeSpec(chars, dict)
  {
    var words := WordSet(dict);
    var maxWordLen := MaxWordLen(dict);
    tokens := TokenizeWith(chars, words, maxWordLen);
  }

  /** The `while (i < chars.length)` loop over the dictionary set and its longest word length. */
  method TokenizeWith(chars: string, words: set<string>, maxWordLen: nat) returns (tokens: seq<string>)
    ensures tokens == Tokens(chars, 0, words, maxWordLen)
  {
    var n := |chars|;
    tokens := [];
    var i: nat := 0;
    ghost var all := Tokens(chars, 0, words, maxWordLen);
    while i < n
      invariant i <= n
      invariant tokens + Tokens(chars, i, words, maxWordLen) == all
      decreases n - i
    {
      var matched := LongestWordAt(chars, i, words, Min(maxWordLen, n - i));
      var token;
      if matched > 0 {
        token := chars[i..i + matched];
      } else {
        token := [chars[i]];
      }
      TokenAt(chars, i, words, maxWordLen, matched, token);
      AppendStep(tokens, token, Tokens(chars, i + |token|, words, maxWordLen),
        Tokens(chars, i, words, maxWordLen), all);
      tokens := tokens + [token];
      i := i + |token|;
    }
  }

  /**
   * The token the loop cuts at `i` from the inner search's answer is the
   * first token there, and the tokenizer resumes right after it.
   */
  lemma TokenAt(chars: string, i: nat, words: set<string>, maxWordLen: nat, matched: nat, token: string)
    requires i < |chars|
    requires matched == MatchLen(chars, i, Min(maxWordLen, |chars| - i), words)
    requires token == if matched > 0 then chars[i..i + matched] else [chars[i]]
    ensures i + |token| <= |chars|
    ensures Tokens(chars, i, words, maxWordLen) == [token] + Tokens(chars, i + |token|, words, maxWordLen)
  {
    var step := Step(chars, i, words, maxWordLen);
    assert token == chars[i..i + step];
    TokensStep(chars, i, words, maxWordLen);
  }

  /** Moving the head of the remainder onto the prefix keeps the whole. */
  lemma AppendStep<T>(done: seq<T>, x: T, rest: seq<T>, mid: seq<T>, whole: seq<T>)
    requires done + mid == whole && mid == [x] + rest
    ensures (done + [x]) + rest == whole
  {
    assert (done + [x]) + rest == done + ([x] + rest);
  }

  /** The first token is the step taken at `i`, and the tokenizer resumes after it. */
  lemma TokensStep(chars: string, i: nat, words: set<string>, maxWordLen: nat)
    requires i < |chars|
    ensures var s := Step(chars, i, words, maxWordLen);
      Tokens(chars, i, words, maxWordLen) == [chars[i..i + s]] + Tokens(chars, i + s, words, maxWordLen)
  {
  }

  /** The tokens concatenate back to the input. */
  lemma {:induction false} TokensCover(chars: string, i: nat, words: set<string>, maxWordLen: nat)
    requires i <= |chars|
    ensures Flatten(Tokens(chars, i, words, maxWordLen)) == chars[i..]
    decreases |chars| - i
  {
    if i < |chars| {
      var step := Step(chars, i, words, maxWordLen);
      TokensCover(chars, i + step, words, maxWordLen);
      assert chars[i..] == chars[i..i + step] + chars[i + step..];
    }
  }

  /**
   * `tok` is what the greedy rule takes at position `p`: a word of length at least 2,
   * or a single character, and no longer word starts at `p`.
   */
  ghost predicate LongestMatchAt(chars: string, p: nat, tok: string, words: set<string>) {
    OccursAt(chars, p, tok) && |tok| >= 1 && (|tok| >= 2 ==> tok in words)
    && forall l :: |tok| < l <= |chars| - p ==> !IsWordAt(chars, p, l, words)
  }

  /**
   * Each token of `ts`, laid end to end from position `i`, is the longest
   * match at the position where it starts.
   */
  ghost predicate AllLongestMatches(chars: string, i: nat, ts: seq<string>, words: set<string>)
    decreases |ts|
  {
    ts == [] || (LongestMatchAt(chars, i, ts[0], words) && AllLongestMatches(chars, i + |ts[0]|, ts[1..], words))
  }

  /** The token taken at `i` is the longest match there. */
  lemma FirstTokenIsLongest(chars: string, i: nat, words: set<string>, maxWordLen: nat)
    requires i < |chars|
    requires forall w :: w in words ==> |w| <= maxWordLen
    ensures LongestMatchAt(chars, i, chars[i..i + Step(chars, i, words, maxWordLen)], words)
  {
    var step := Step(chars, i, words, maxWordLen);
    var limit := Min(maxWordLen, |chars| - i);
    MatchLenIsLongest(chars, i, limit, words);
    forall l | step < l <= |chars| - i ensures !IsWordAt(chars, i, l, words) {
      if l > maxWordLen {
        assert |chars[i..i + l]| == l;
      } else {
        assert l <= limit;
      }
    }
  }

  /** Every token is the longest match at its own position. */
  lemma {:induction false} TokensAreLongestMatches(chars: string, i: nat, words: set<string>, maxWordLen: nat)
    requires i <= |chars|
    requires forall w :: w in words ==> |w| <= maxWordLen
    ensures AllLongestMatches(chars, i, Tokens(chars, i, words, maxWordLen), words)
    decreases |chars| - i
  {
    if i < |chars| {
      var step := Step(chars, i, words, maxWordLen);
      TokensStep(chars, i, words, maxWordLen);
      TokensAreLongestMatches(chars, i + step, words, maxWordLen);
      FirstTokenIsLongest(chars, i, words, maxWordLen);
      var ts := Tokens(chars, i, words, maxWordLen);
      assert ts[0] == chars[i..i + step] && ts[1..] == Tokens(chars, i + step, words, maxWordLen);
    }
  }

  /** At each position the greedy rule admits exactly one token. */
  lemma LongestMatchDeterminesStep(chars: string, i: nat, words: set<string>, maxWordLen: nat, t: string)
    requires i < |chars|
    requires forall w :: w in words ==> |w| <= maxWordLen
    requires LongestMatchAt(chars, i, t, words)
    ensures Step(chars, i, words, maxWordLen) == |t| && t == chars[i..i + |t|]
  {
    var limit := Min(maxWordLen, |chars| - i);
    var m := MatchLen(chars, i, limit, words);
    MatchLenIsLongest(chars, i, limit, words);
    if |t| >= 2 {
      assert chars[i..i + |t|] == t;
      assert |t| <= limit;
      assert IsWordAt(chars, i, |t|, words);
      assert m == |t|;
    } else {
      assert m == 0;
    }
  }

  lemma FlattenTail(chars: string, i: nat, ts: seq<string>)
    requires ts != [] && i <= |chars| && Flatten(ts) == chars[i..] && OccursAt(chars, i, ts[0])
    ensures Flatten(ts[1..]) == chars[i + |ts[0]|..]
  {
    var t := ts[0];
    assert Flatten(ts) == t + Flatten(ts[1..]);
    assert chars[i..] == chars[i..i + |t|] + chars[i + |t|..];
  }

  /**
   * The greedy rule determines the tokenization: any token list that covers
   * `chars[i..]` with longest matches is the one `Tokens` produces.
   */
  lemma {:induction false} TokensUnique(chars: string, i: nat, words: set<string>, maxWordLen: nat, ts: seq<string>)
    requires i <= |chars|
    requires forall w :: w in words ==> |w| <= maxWordLen
    requires Flatten(ts) == chars[i..]
    requires AllLongestMatches(chars, i, ts, words)
    ensures ts == Tokens(chars, i, words, maxWordLen)
    decreases |chars| - i
  {
    if ts == [] {
      assert chars[i..] == [];
    } else {
      var t := ts[0];
      LongestMatchDeterminesStep(chars, i, words, maxWordLen, t);
      FlattenTail(chars, i, ts);
      TokensUnique(chars, i + |t|, words, maxWordLen, ts[1..]);
      TokensStep(chars, i, words, maxWordLen);
      assert ts == [t] + ts[1..];
    }
  }
}
