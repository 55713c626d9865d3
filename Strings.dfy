/**
 * String helpers shared by every script: the ECMAScript white-space set (what the
 * regular-expression class `\s` matches and what `String.prototype.trim` removes),
 * trimming, removing and collapsing white space, concatenation and joining,
 * decimal rendering of numbers and ASCII case mapping.
 *
 * Strings are sequences of Unicode code points.
 */
module Strings {

  /** ECMAScript WhiteSpace and LineTerminator code points. */
  predicate IsWhitespace(c: char) {
    c == '\t' || c == '\U{000B}' || c == '\U{000C}' || c == ' ' || c == '\U{00A0}'
    || c == '\U{FEFF}' || c == '\n' || c == '\r' || c == '\U{2028}' || c == '\U{2029}'
    || c == '\U{1680}' || ('\U{2000}' <= c <= '\U{200A}') || c == '\U{202F}'
    || c == '\U{205F}' || c == '\U{3000}'
  }

  predicate NoWhitespace(s: string) {
    forall k :: 0 <= k < |s| ==> !IsWhitespace(s[k])
  }

  /** No two neighbouring characters are both white space. */
  predicate NoDoubleWhitespace(s: string) {
    forall k :: 0 <= k < |s| - 1 ==> !(IsWhitespace(s[k]) && IsWhitespace(s[k + 1]))
  }

  /** The only white space that occurs is the plain space. */
  predicate OnlyPlainSpaces(s: string) {
    forall k :: 0 <= k < |s| ==> IsWhitespace(s[k]) ==> s[k] == ' '
  }

  /** Neither end of `s` is white space (what `trim` leaves). */
  predicate IsTrimmed(s: string) {
    s == [] || (!IsWhitespace(s[0]) && !IsWhitespace(s[|s| - 1]))
  }

  function TrimStart(s: string): (r: string)
    ensures |r| <= |s| && r == s[|s| - |r|..]
    ensures r == [] || !IsWhitespace(r[0])
    ensures forall k :: 0 <= k < |s| - |r| ==> IsWhitespace(s[k])
  {
    if s != [] && IsWhitespace(s[0]) then TrimStart(s[1..]) else s
  }

  function TrimEnd(s: string): (r: string)
    ensures |r| <= |s| && r == s[..|r|]
    ensures r == [] || !IsWhitespace(r[|r| - 1])
    ensures forall k :: |r| <= k < |s| ==> IsWhitespace(s[k])
  {
    if s != [] && IsWhitespace(s[|s| - 1]) then TrimEnd(s[..|s| - 1]) else s
  }

  /** `String.prototype.trim`. */
  function Trim(s: string): (r: string)
    ensures IsTrimmed(r)
    ensures |r| <= |s|
  {
    TrimEnd(TrimStart(s))
  }

  /** What `trim` leaves is the slice of `s` that starts at `a`, after the leading white space. */
  lemma TrimSlice(s: string) returns (a: nat)
    ensures a + |Trim(s)| <= |s| && Trim(s) == s[a..a + |Trim(s)|]
  {
    var t := TrimStart(s);
    a := |s| - |t|;
    var r := TrimEnd(t);
    assert Trim(s) == r;
    PrefixOfSuffix(s, t, r);
  }

  lemma PrefixOfSuffix<T>(s: seq<T>, t: seq<T>, r: seq<T>)
    requires |t| <= |s| && t == s[|s| - |t|..]
    requires |r| <= |t| && r == t[..|r|]
    ensures r == s[|s| - |t|..|s| - |t| + |r|]
  {
  }

  /** `s.replace(/\s+/g, '')`. */
  function RemoveWhitespace(s: string): (r: string)
    ensures NoWhitespace(r)
    ensures |r| <= |s|
  {
    if s == [] then []
    else (if IsWhitespace(s[0]) then [] else [s[0]]) + RemoveWhitespace(s[1..])
  }

  lemma {:induction false} RemoveWhitespaceConcat(a: string, b: string)
    ensures RemoveWhitespace(a + b) == RemoveWhitespace(a) + RemoveWhitespace(b)
  {
    if a != [] {
      assert (a + b)[1..] == a[1..] + b;
      RemoveWhitespaceConcat(a[1..], b);
    } else {
      assert a + b == b;
    }
  }

  lemma {:induction false} RemoveWhitespaceOfClean(s: string)
    requires NoWhitespace(s)
    ensures RemoveWhitespace(s) == s
  {
    if s != [] {
      RemoveWhitespaceOfClean(s[1..]);
    }
  }

  /** `s.replace(/\s+/g, ' ')`: every maximal run of white space becomes one space. */
  function CollapseWhitespace(s: string): (r: string)
    ensures r == [] <==> s == []
    ensures r != [] ==> (IsWhitespace(r[0]) <==> IsWhitespace(s[0]))
    decreases |s|
  {
    if s == [] then []
    else if IsWhitespace(s[0]) then [' '] + CollapseWhitespace(TrimStart(s))
    else [s[0]] + CollapseWhitespace(s[1..])
  }

  lemma {:induction false} CollapseSpacing(s: string)
    ensures NoDoubleWhitespace(CollapseWhitespace(s)) && OnlyPlainSpaces(CollapseWhitespace(s))
    decreases |s|
  {
    if s == [] {
    } else if IsWhitespace(s[0]) {
      var t := TrimStart(s);
      CollapseSpacing(t);
      var c := CollapseWhitespace(t);
      assert CollapseWhitespace(s) == [' '] + c;
      assert c != [] ==> !IsWhitespace(c[0]);
    } else {
      CollapseSpacing(s[1..]);
    }
  }

  /** Collapsing changes only white space. */
  lemma {:induction false} CollapseKeepsText(s: string)
    ensures RemoveWhitespace(CollapseWhitespace(s)) == RemoveWhitespace(s)
    decreases |s|
  {
    if s == [] {
    } else if IsWhitespace(s[0]) {
      var t := TrimStart(s);
      CollapseKeepsText(t);
      assert s == s[..|s| - |t|] + t;
      RemoveWhitespaceConcat(s[..|s| - |t|], t);
      RemoveLeadingRun(s[..|s| - |t|]);
      RemoveWhitespaceConcat([' '], CollapseWhitespace(t));
    } else {
      CollapseKeepsText(s[1..]);
      RemoveWhitespaceConcat([s[0]], CollapseWhitespace(s[1..]));
      assert s == [s[0]] + s[1..];
      RemoveWhitespaceConcat([s[0]], s[1..]);
    }
  }

  /**
   * One maximal white-space run becomes exactly one space, and nothing is
   * inserted on either side of it: with `a` not ending and `b` not starting
   * in white space, collapsing `a + w + b` collapses `a` and `b` on their own.
   * Together with `CollapseOfClean` this fixes the result on every string.
   */
  lemma {:induction false} CollapseRun(a: string, w: string, b: string)
    requires a == [] || !IsWhitespace(a[|a| - 1])
    requires w != [] && forall k :: 0 <= k < |w| ==> IsWhitespace(w[k])
    requires b == [] || !IsWhitespace(b[0])
    ensures CollapseWhitespace(a + w + b) == CollapseWhitespace(a) + [' '] + CollapseWhitespace(b)
    decreases |a|
  {
    if a == [] {
      CollapseRunAtStart(w, b);
      EmptyPrefix(a, w, b, CollapseWhitespace(b));
    } else if IsWhitespace(a[0]) {
      TrimStartKeepsLast(a);
      CollapseRun(TrimStart(a), w, b);
      CollapseRunBlankFirst(a, w, b);
    } else {
      TailKeepsLast(a);
      CollapseRun(a[1..], w, b);
      CollapseRunCharFirst(a, w, b);
    }
  }

  /** `CollapseRun` with nothing before the run: it becomes one leading space. */
  lemma CollapseRunAtStart(w: string, b: string)
    requires w != [] && forall k :: 0 <= k < |w| ==> IsWhitespace(w[k])
    requires b == [] || !IsWhitespace(b[0])
    ensures CollapseWhitespace(w + b) == [' '] + CollapseWhitespace(b)
  {
    TrimStartOverRun(w, b);
    CollapseBlankHead(w + b);
  }

  lemma EmptyPrefix(a: string, w: string, b: string, c: string)
    requires a == []
    ensures a + w + b == w + b && CollapseWhitespace(a) + [' '] + c == [' '] + c
  {
  }

  /** A string ending in a non-white character keeps that end when its start is trimmed. */
  lemma TrimStartKeepsLast(a: string)
    requires a != [] && !IsWhitespace(a[|a| - 1])
    ensures TrimStart(a) != [] && TrimStart(a)[|TrimStart(a)| - 1] == a[|a| - 1]
    ensures IsWhitespace(a[0]) ==> |TrimStart(a)| < |a|
  {
  }

  lemma TailKeepsLast(a: string)
    requires a != []
    ensures a[1..] == [] || a[1..][|a[1..]| - 1] == a[|a| - 1]
  {
  }

  lemma TailOfConcat(a: string, q: string)
    requires a != []
    ensures (a + q)[0] == a[0] && (a + q)[1..] == a[1..] + q
  {
  }

  /** The step of `CollapseRun` past a leading white-space run of `a`. */
  lemma CollapseRunBlankFirst(a: string, w: string, b: string)
    requires a != [] && IsWhitespace(a[0]) && TrimStart(a) != []
    requires CollapseWhitespace(TrimStart(a) + w + b) == CollapseWhitespace(TrimStart(a)) + [' '] + CollapseWhitespace(b)
    ensures CollapseWhitespace(a + w + b) == CollapseWhitespace(a) + [' '] + CollapseWhitespace(b)
  {
    var t := TrimStart(a);
    TrimStartConcat(a, w + b);
    ConcatAssoc(a, w, b);
    ConcatAssoc(t, w, b);
    CollapseBlankHead(a + w + b);
    CollapseBlankHead(a);
    ConcatAssoc([' '], CollapseWhitespace(t) + [' '], CollapseWhitespace(b));
    ConcatAssoc([' '], CollapseWhitespace(t), [' ']);
  }

  /** The step of `CollapseRun` past a leading non-white character of `a`. */
  lemma CollapseRunCharFirst(a: string, w: string, b: string)
    requires a != [] && !IsWhitespace(a[0])
    requires CollapseWhitespace(a[1..] + w + b) == CollapseWhitespace(a[1..]) + [' '] + CollapseWhitespace(b)
    ensures CollapseWhitespace(a + w + b) == CollapseWhitespace(a) + [' '] + CollapseWhitespace(b)
  {
    TailOfConcat(a, w + b);
    ConcatAssoc(a, w, b);
    ConcatAssoc(a[1..], w, b);
    CollapseCharHead(a + w + b);
    CollapseCharHead(a);
    ConcatAssoc([a[0]], CollapseWhitespace(a[1..]) + [' '], CollapseWhitespace(b));
    ConcatAssoc([a[0]], CollapseWhitespace(a[1..]), [' ']);
  }

  lemma CollapseBlankHead(s: string)
    requires s != [] && IsWhitespace(s[0])
    ensures CollapseWhitespace(s) == [' '] + CollapseWhitespace(TrimStart(s))
  {
  }

  lemma CollapseCharHead(s: string)
    requires s != [] && !IsWhitespace(s[0])
    ensures CollapseWhitespace(s) == [s[0]] + CollapseWhitespace(s[1..])
  {
  }

  lemma ConcatAssoc<T>(p: seq<T>, q: seq<T>, r: seq<T>)
    ensures p + (q + r) == p + q + r
  {
  }

  /** A white-space run followed by a string that does not start with white space trims to that string. */
  lemma {:induction false} TrimStartOverRun(w: string, b: string)
    requires forall k :: 0 <= k < |w| ==> IsWhitespace(w[k])
    requires b == [] || !IsWhitespace(b[0])
    ensures TrimStart(w + b) == b
    decreases |w|
  {
    if w != [] {
      assert (w + b)[1..] == w[1..] + b;
      TrimStartOverRun(w[1..], b);
    } else {
      assert w + b == b;
    }
  }

  /** Trimming the start of `a + c` stops inside `a` when `a` is not all white space. */
  lemma {:induction false} TrimStartConcat(a: string, c: string)
    requires TrimStart(a) != []
    ensures TrimStart(a + c) == TrimStart(a) + c
    decreases |a|
  {
    assert (a + c)[0] == a[0];
    if IsWhitespace(a[0]) {
      assert (a + c)[1..] == a[1..] + c;
      TrimStartBlankHead(a);
      TrimStartConcat(a[1..], c);
      TrimStartBlankHead(a + c);
    }
  }

  lemma TrimStartBlankHead(s: string)
    requires s != [] && IsWhitespace(s[0])
    ensures TrimStart(s) == TrimStart(s[1..])
  {
  }

  lemma {:induction false} RemoveLeadingRun(s: string)
    requires forall k :: 0 <= k < |s| ==> IsWhitespace(s[k])
    ensures RemoveWhitespace(s) == []
  {
    if s != [] {
      RemoveLeadingRun(s[1..]);
    }
  }

  /** A contiguous piece of a string keeps the per-position white-space properties. */
  lemma SliceKeepsSpacing(s: string, a: nat, b: nat)
    requires a <= b <= |s|
    requires NoDoubleWhitespace(s) && OnlyPlainSpaces(s)
    ensures NoDoubleWhitespace(s[a..b]) && OnlyPlainSpaces(s[a..b])
  {
    assert forall k :: 0 <= k < b - a ==> s[a..b][k] == s[a + k];
  }

  /** Trimming keeps single plain spacing. */
  lemma TrimKeepsSpacing(s: string)
    requires NoDoubleWhitespace(s) && OnlyPlainSpaces(s)
    ensures NoDoubleWhitespace(Trim(s)) && OnlyPlainSpaces(Trim(s))
  {
    var a := TrimSlice(s);
    SliceKeepsSpacing(s, a, a + |Trim(s)|);
  }

  /** `Array.prototype.join('')`. */
  function Flatten(ss: seq<string>): string {
    if ss == [] then [] else ss[0] + Flatten(ss[1..])
  }

  lemma {:induction false} FlattenConcat(a: seq<string>, b: seq<string>)
    ensures Flatten(a + b) == Flatten(a) + Flatten(b)
  {
    if a == [] {
      assert a + b == b;
    } else {
      assert (a + b)[1..] == a[1..] + b;
      FlattenConcat(a[1..], b);
    }
  }

  lemma FlattenSingleton(s: string)
    ensures Flatten([s]) == s
  {
    assert [s][1..] == [];
  }

  /** `Array.prototype.join(' ')`. */
  function JoinWithSpace(ss: seq<string>): string {
    if ss == [] then []
    else if |ss| == 1 then ss[0]
    else ss[0] + [' '] + JoinWithSpace(ss[1..])
  }

  /** `s` with every plain space removed. */
  function WithoutSpaces(s: string): (r: string)
    ensures |r| <= |s|
  {
    if s == [] then [] else (if s[0] == ' ' then [] else [s[0]]) + WithoutSpaces(s[1..])
  }

  lemma {:induction false} WithoutSpacesConcat(a: string, b: string)
    ensures WithoutSpaces(a + b) == WithoutSpaces(a) + WithoutSpaces(b)
  {
    if a != [] {
      assert (a + b)[1..] == a[1..] + b;
      WithoutSpacesConcat(a[1..], b);
    } else {
      assert a + b == b;
    }
  }

  lemma {:induction false} WithoutSpacesOfClean(s: string)
    requires NoWhitespace(s)
    ensures WithoutSpaces(s) == s
  {
    if s != [] {
      WithoutSpacesOfClean(s[1..]);
    }
  }

  /** Joining space-free pieces with spaces and then deleting the spaces gives their concatenation. */
  lemma {:induction false} JoinThenStrip(ss: seq<string>)
    requires forall k :: 0 <= k < |ss| ==> NoWhitespace(ss[k])
    ensures WithoutSpaces(JoinWithSpace(ss)) == Flatten(ss)
  {
    if ss == [] {
    } else if |ss| == 1 {
      WithoutSpacesOfClean(ss[0]);
      FlattenSingleton(ss[0]);
    } else {
      JoinThenStrip(ss[1..]);
      WithoutSpacesOfClean(ss[0]);
      WithoutSpacesConcat(ss[0] + [' '], JoinWithSpace(ss[1..]));
      WithoutSpacesConcat(ss[0], [' ']);
    }
  }

  // ---- numbers ----

  predicate IsDigit(c: char) {
    '0' <= c <= '9'
  }

  predicate AllDigits(s: string) {
    forall k :: 0 <= k < |s| ==> IsDigit(s[k])
  }

  function DigitChar(d: nat): (c: char)
    requires d < 10
    ensures IsDigit(c) && c as int - '0' as int == d
  {
    ('0' as int + d) as char
  }

  /** `String(n)` for a non-negative integer: decimal digits, no leading zero. */
  function DecimalString(n: nat): (r: string)
    ensures |r| >= 1 && AllDigits(r)
    ensures |r| > 1 ==> r[0] != '0'
  {
    if n < 10 then [DigitChar(n)] else DecimalString(n / 10) + [DigitChar(n % 10)]
  }

  /** The value of a string of decimal digits. */
  function ParseDecimal(s: string): nat
    requires AllDigits(s)
  {
    if s == [] then 0 else ParseDecimal(s[..|s| - 1]) * 10 + (s[|s| - 1] as int - '0' as int)
  }

  lemma {:induction false} ParseDecimalString(n: nat)
    ensures ParseDecimal(DecimalString(n)) == n
  {
    if n >= 10 {
      var r := DecimalString(n);
      assert r[..|r| - 1] == DecimalString(n / 10);
      ParseDecimalString(n / 10);
    }
  }

  /** Leading zeros do not change the value. */
  lemma {:induction false} ParseLeadingZero(s: string)
    requires AllDigits(s)
    ensures ParseDecimal(['0'] + s) == ParseDecimal(s)
  {
    if s != [] {
      assert (['0'] + s)[..|s|] == ['0'] + s[..|s| - 1];
      ParseLeadingZero(s[..|s| - 1]);
    }
  }

  lemma DecimalStringInjective(m: nat, n: nat)
    requires DecimalString(m) == DecimalString(n)
    ensures m == n
  {
    ParseDecimalString(m);
    ParseDecimalString(n);
  }

  // ---- ASCII case mapping ----

  predicate IsAsciiLetter(c: char) {
    ('A' <= c <= 'Z') || ('a' <= c <= 'z')
  }

  function UpperAscii(c: char): (u: char)
    ensures !('a' <= u <= 'z')
    ensures !IsAsciiLetter(c) ==> u == c
  {
    if 'a' <= c <= 'z' then (c as int - 32) as char else c
  }

  function LowerAscii(c: char): (l: char)
    ensures !('A' <= l <= 'Z')
    ensures !IsAsciiLetter(c) ==> l == c
  {
    if 'A' <= c <= 'Z' then (c as int + 32) as char else c
  }

  /** `toUpperCase` restricted to ASCII letters (the only letters it is applied to here). */
  function UpperAsciiString(s: string): (r: string)
    ensures |r| == |s|
    ensures forall k :: 0 <= k < |s| ==> r[k] == UpperAscii(s[k])
  {
    if s == [] then [] else [UpperAscii(s[0])] + UpperAsciiString(s[1..])
  }

  function LowerAsciiString(s: string): (r: string)
    ensures |r| == |s|
    ensures forall k :: 0 <= k < |s| ==> r[k] == LowerAscii(s[k])
  {
    if s == [] then [] else [LowerAscii(s[0])] + LowerAsciiString(s[1..])
  }

  /** ASCII case-insensitive equality, what the `i` flag of a non-Unicode regular expression does. */
  predicate EqualIgnoringCase(a: string, b: string) {
    |a| == |b| && LowerAsciiString(a) == LowerAsciiString(b)
  }

  // ---- substrings ----

  /** `w` occurs in `s` starting at position `p`. */
  predicate OccursAt(s: string, p: int, w: string) {
    0 <= p && p + |w| <= |s| && s[p..p + |w|] == w
  }

  function StartsWith(s: string, prefix: string): bool {
    |prefix| <= |s| && s[..|prefix|] == prefix
  }

  /** Both halves of a white-space-free string are free of white space. */
  lemma CleanParts(a: string, b: string)
    requires NoWhitespace(a + b)
    ensures NoWhitespace(a) && NoWhitespace(b)
  {
    assert forall k :: 0 <= k < |a| ==> (a + b)[k] == a[k];
    assert forall k :: 0 <= k < |b| ==> (a + b)[|a| + k] == b[k];
  }

  /** Trimming a trimmed string changes nothing. */
  lemma TrimOfTrimmed(s: string)
    requires IsTrimmed(s)
    ensures Trim(s) == s
  {
  }

  /** Collapsing changes nothing when white space already comes as single plain spaces. */
  lemma {:induction false} CollapseOfClean(s: string)
    requires NoDoubleWhitespace(s) && OnlyPlainSpaces(s)
    ensures CollapseWhitespace(s) == s
    decreases |s|
  {
    if s != [] {
      SliceKeepsSpacing(s, 1, |s|);
      CollapseOfClean(s[1..]);
      if IsWhitespace(s[0]) {
        assert |s| > 1 ==> !IsWhitespace(s[1]);
        assert TrimStart(s) == s[1..];
      }
    }
  }

  /** A separator absent from both heads fixes where the heads end. */
  lemma SeparatorSplit(a: string, b: string, x: string, y: string, c: char)
    requires c !in a && c !in b
    requires a + [c] + x == b + [c] + y
    ensures a == b && x == y
  {
    var s := a + [c] + x;
    SeparatorFirst(a, x, c);
    SeparatorFirst(b, y, c);
    assert a == s[..|a|] && b == s[..|b|];
    assert x == s[|a| + 1..] && y == s[|b| + 1..];
  }

  lemma SeparatorFirst(a: string, x: string, c: char)
    requires c !in a
    ensures (a + [c] + x)[|a|] == c
    ensures forall k :: 0 <= k < |a| ==> (a + [c] + x)[k] != c
  {
    assert forall k :: 0 <= k < |a| ==> (a + [c] + x)[k] == a[k];
  }

  /** A string without white space is its own trim. */
  lemma TrimOfClean(s: string)
    requires NoWhitespace(s)
    ensures Trim(s) == s
  {
  }

  /** `filter(Boolean)`: the non-empty pieces, in order. */
  function NonEmpty(ss: seq<string>): (r: seq<string>)
    ensures forall k :: 0 <= k < |r| ==> r[k] != []
    ensures |r| <= |ss|
  {
    if ss == [] then []
    else (if ss[0] != [] then [ss[0]] else []) + NonEmpty(ss[1..])
  }

  lemma {:induction false} NonEmptyKeepsText(ss: seq<string>)
    ensures Flatten(NonEmpty(ss)) == Flatten(ss)
    ensures (forall k :: 0 <= k < |ss| ==> ss[k] != []) ==> NonEmpty(ss) == ss
  {
    if ss != [] {
      NonEmptyKeepsText(ss[1..]);
      FlattenConcat(if ss[0] != [] then [ss[0]] else [], NonEmpty(ss[1..]));
      if ss[0] != [] {
        FlattenSingleton(ss[0]);
      }
      assert ss == [ss[0]] + ss[1..];
    }
  }

  /** Every character is white space. */
  predicate IsBlank(s: string) {
    forall k :: 0 <= k < |s| ==> IsWhitespace(s[k])
  }

  /** `trim` leaves nothing exactly when the string is blank. */
  lemma TrimEmptyIffBlank(s: string)
    ensures Trim(s) == [] <==> IsBlank(s)
  {
    var t := TrimStart(s);
    if t != [] {
      assert !IsWhitespace(s[|s| - |t|]);
      assert TrimEnd(t) != [];
    }
  }

  /**
   * The white space at the end of `s` starts at `m` when `s[m..]` is blank
   * and the character before `m` is not white space.
   */
  lemma TrimEndUnique(s: string, m: nat)
    requires m <= |s| && IsBlank(s[m..])
    requires m == 0 || !IsWhitespace(s[m - 1])
    ensures |TrimEnd(s)| == m
  {
  }

  /** Without leading white space, `trim` only trims the end. */
  lemma TrimNoLead(s: string)
    requires s == [] || !IsWhitespace(s[0])
    ensures Trim(s) == TrimEnd(s)
  {
    assert TrimStart(s) == s;
  }
}
