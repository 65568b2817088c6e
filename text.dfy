/**
 * The string operations the scripts use: Python's whitespace class, `str.replace`
 * of one character, `str.split()` with no argument, `str.lower()` on ASCII, and
 * `re.sub(r'\s*\(.*?\)\s*', '', s)` as `clean_titles` calls it.
 */
module Text {
  import opened Basics

  /** Python's `str.isspace`, which is also what `\s` matches in a `str` pattern. */
  predicate IsSpace(c: char) {
    || c == ' '
    || ('\t' <= c <= '\r')
    || ('\U{1C}' <= c <= '\U{1F}')
    || c == '\U{85}' || c == '\U{A0}' || c == '\U{1680}'
    || ('\U{2000}' <= c <= '\U{200A}')
    || c == '\U{2028}' || c == '\U{2029}' || c == '\U{202F}' || c == '\U{205F}' || c == '\U{3000}'
  }

  predicate NoSpace(s: string) { forall i :: 0 <= i < |s| ==> !IsSpace(s[i]) }

  function NotSpace(c: char): bool { !IsSpace(c) }

  /** `s.replace(a, b)` for single characters `a` and `b`. */
  function ReplaceChar(s: string, a: char, b: char): (r: string)
    ensures |r| == |s|
    ensures forall i :: 0 <= i < |s| ==> r[i] == (if s[i] == a then b else s[i])
  {
    MapSeq(s, (c: char) => if c == a then b else c)
  }

  function NotChar(a: char): char -> bool {
    (c: char) => c != a
  }

  /** `s.replace(a, '')` for a single character `a`. */
  function DeleteChar(s: string, a: char): (r: string)
    ensures a !in r
    ensures Subsequence(r, s)
    ensures forall i :: 0 <= i < |s| && s[i] != a ==> s[i] in r
  {
    FilterSubsequence(s, NotChar(a));
    FilterMembers(s, NotChar(a));
    Filter(s, NotChar(a))
  }

  // ---------------------------------------------------------------- split

  /** The number of leading whitespace characters. */
  function SpaceRun(s: string): (n: nat)
    ensures n <= |s|
    ensures forall i :: 0 <= i < n ==> IsSpace(s[i])
    ensures n < |s| ==> !IsSpace(s[n])
  {
    if s == [] || !IsSpace(s[0]) then 0 else 1 + SpaceRun(s[1..])
  }

  /** The number of leading non-whitespace characters. */
  function WordRun(s: string): (n: nat)
    ensures n <= |s|
    ensures forall i :: 0 <= i < n ==> !IsSpace(s[i])
    ensures n < |s| ==> IsSpace(s[n])
  {
    if s == [] || IsSpace(s[0]) then 0 else 1 + WordRun(s[1..])
  }

  /** `s.split()`: the maximal runs of non-whitespace characters, left to right. */
  function Split(s: string): (words: seq<string>)
    ensures forall i :: 0 <= i < |words| ==> words[i] != [] && NoSpace(words[i])
    decreases |s|
  {
    var t := s[SpaceRun(s)..];
    if t == [] then []
    else
      var n := WordRun(t);
      [t[..n]] + Split(t[n..])
  }

  function Concat(words: seq<string>): string {
    if words == [] then [] else words[0] + Concat(words[1..])
  }

  lemma {:induction false} FilterSpaces(s: string)
    requires forall i :: 0 <= i < |s| ==> IsSpace(s[i])
    ensures Filter(s, NotSpace) == []
  {
    if s != [] {
      FilterSpaces(s[1..]);
    }
  }

  lemma SplitStep(s: string)
    ensures var t := s[SpaceRun(s)..];
      && (t == [] ==> Split(s) == [])
      && (t != [] ==> WordRun(t) > 0 && Split(s) == [t[..WordRun(t)]] + Split(t[WordRun(t)..]))
  {
  }

  lemma DropLeadingSpace(s: string)
    ensures Filter(s, NotSpace) == Filter(s[SpaceRun(s)..], NotSpace)
  {
    var k := SpaceRun(s);
    assert s == s[..k] + s[k..];
    FilterAppend(s[..k], s[k..], NotSpace);
    FilterSpaces(s[..k]);
  }

  lemma KeepLeadingWord(t: string)
    ensures Filter(t, NotSpace) == t[..WordRun(t)] + Filter(t[WordRun(t)..], NotSpace)
  {
    var n := WordRun(t);
    assert t == t[..n] + t[n..];
    FilterAppend(t[..n], t[n..], NotSpace);
    FilterAllKept(t[..n], NotSpace);
  }

  /** Splitting loses exactly the whitespace: the words put back together are `s` without it. */
  lemma {:induction false} SplitLosesOnlySpace(s: string)
    ensures Concat(Split(s)) == Filter(s, NotSpace)
    decreases |s|
  {
    var t := s[SpaceRun(s)..];
    DropLeadingSpace(s);
    SplitStep(s);
    if t != [] {
      var n := WordRun(t);
      KeepLeadingWord(t);
      SplitLosesOnlySpace(t[n..]);
      var words := Split(s);
      assert words[0] == t[..n] && words[1..] == Split(t[n..]);
    }
  }

  /** A title without whitespace is one word, and a blank title has none. */
  lemma SplitSingleWord(s: string)
    requires s != [] && NoSpace(s)
    ensures Split(s) == [s]
  {
    assert SpaceRun(s) == 0;
    assert s[0..] == s;
    assert WordRun(s) == |s|;
    assert s[..|s|] == s;
    assert s[|s|..] == [];
    SplitStep(s);
    SplitStep([]);
  }

  lemma SplitBlank(s: string)
    requires forall i :: 0 <= i < |s| ==> IsSpace(s[i])
    ensures Split(s) == []
  {
    assert SpaceRun(s) == |s|;
  }

  // ---------------------------------------------------------------- lower

  predicate IsUpper(c: char) { 'A' <= c <= 'Z' }

  function LowerChar(c: char): char {
    if IsUpper(c) then (c as int + 32) as char else c
  }

  /** `w.lower()` on ASCII letters; other characters are left as they are. */
  function Lower(w: string): (r: string)
    ensures |r| == |w|
    ensures forall i :: 0 <= i < |r| ==> !IsUpper(r[i])
    ensures forall i :: 0 <= i < |r| ==> r[i] == LowerChar(w[i])
  {
    MapSeq(w, LowerChar)
  }

  predicate IsLower(w: string) { forall i :: 0 <= i < |w| ==> !IsUpper(w[i]) }

  lemma LowerIdempotent(w: string)
    ensures Lower(Lower(w)) == Lower(w)
  {
  }

  lemma LowerOfLower(w: string)
    requires IsLower(w)
    ensures Lower(w) == w
  {
  }

  // ---------------------------------------------------------------- clean_titles

  /**
   * Where the lazy `.*?\)` of the pattern stops: the offset of the first ')' in `s`,
   * or nothing when a newline (which `.` does not match) or the end comes first.
   */
  function CloseParen(s: string): (k: Option<nat>)
    ensures k.Some? ==> k.value < |s| && s[k.value] == ')'
    ensures k.Some? ==> forall i :: 0 <= i < k.value ==> s[i] != ')' && s[i] != '\n'
    ensures k.None? ==> forall i :: 0 <= i < |s| && s[i] == ')' ==> exists j :: 0 <= j < i && s[j] == '\n'
  {
    if s == [] || s[0] == '\n' then None
    else if s[0] == ')' then Some(0)
    else match CloseParen(s[1..])
      case None =>
        assert forall i :: 1 <= i < |s| && s[i] == ')' ==> s[1..][i - 1] == ')';
        None
      case Some(k) => Some(k + 1)
  }

  /**
   * `s[..n]` is a match of `\s*\(.*?\)\s*` with its '(' at `open` and its ')' at
   * `close`: whitespace before the '(', no ')' and no newline between the
   * brackets, and the whole whitespace run after the ')'.
   */
  predicate SpanAt(s: string, open: nat, close: nat, n: nat) {
    && open < close < n <= |s|
    && (forall i :: 0 <= i < open ==> IsSpace(s[i]))
    && s[open] == '(' && s[close] == ')'
    && (forall i :: open < i < close ==> s[i] != ')' && s[i] != '\n')
    && (forall i :: close < i < n ==> IsSpace(s[i]))
    && (n < |s| ==> !IsSpace(s[n]))
  }

  /**
   * The length of the match of `\s*\(.*?\)\s*` that starts at the front of `s`, if
   * there is one. The leading `\s*` can only usefully stop at the end of the
   * whitespace run (a shorter run leaves a space where '(' is needed), and the
   * trailing `\s*` is greedy.
   */
  function MatchAt(s: string): (m: Option<nat>)
    ensures m.Some? ==> 2 <= m.value <= |s|
    ensures m.Some? ==> exists close :: SpanAt(s, SpaceRun(s), close, m.value)
    ensures m.None? ==>
      || SpaceRun(s) == |s| || s[SpaceRun(s)] != '('
      || (forall i :: SpaceRun(s) < i < |s| && s[i] == ')' ==> exists j :: SpaceRun(s) < j < i && s[j] == '\n')
  {
    var w := SpaceRun(s);
    if w < |s| && s[w] == '(' then
      match CloseParen(s[w + 1..])
      case None =>
        NoCloseAfter(s, w);
        None
      case Some(k) =>
        CloseAfter(s, w, k);
        Some(w + 2 + k + SpaceRun(s[w + 2 + k..]))
    else None
  }

  /** When the lazy part finds no ')' after the '(' at `w`, a newline comes before every later ')'. */
  lemma NoCloseAfter(s: string, w: nat)
    requires w < |s| && CloseParen(s[w + 1..]).None?
    ensures forall i :: w < i < |s| && s[i] == ')' ==> exists j :: w < j < i && s[j] == '\n'
  {
    var rest := s[w + 1..];
    forall i | w < i < |s| && s[i] == ')'
      ensures exists j :: w < j < i && s[j] == '\n'
    {
      assert rest[i - (w + 1)] == ')';
      var j :| 0 <= j < i - (w + 1) && rest[j] == '\n';
      assert s[w + 1 + j] == '\n';
    }
  }

  /** When the lazy part finds its ')' at offset `k` after the '(' at `SpaceRun(s)`, the match is a span. */
  lemma CloseAfter(s: string, w: nat, k: nat)
    requires w == SpaceRun(s) && w < |s| && s[w] == '('
    requires CloseParen(s[w + 1..]) == Some(k)
    ensures w + 2 + k <= |s|
    ensures SpanAt(s, w, w + 1 + k, w + 2 + k + SpaceRun(s[w + 2 + k..]))
  {
    var rest := s[w + 1..];
    var close := w + 1 + k;
    var tail := s[close + 1..];
    assert forall i :: w < i < close ==> s[i] == rest[i - (w + 1)];
    assert forall i :: close < i < |s| ==> s[i] == tail[i - (close + 1)];
  }

  /** `re.sub(r'\s*\(.*?\)\s*', '', s)`: scanning left to right, delete every match. */
  function StripParenthesised(s: string): (r: string)
    ensures |r| <= |s|
    decreases |s|
  {
    if s == [] then []
    else match MatchAt(s)
      case Some(n) => StripParenthesised(s[n..])
      case None => [s[0]] + StripParenthesised(s[1..])
  }

  /** Cleaning only deletes characters: the result is the title with some characters left out. */
  lemma {:induction false} StripDeletesOnly(s: string)
    ensures Subsequence(StripParenthesised(s), s)
    decreases |s|
  {
    if s != [] {
      match MatchAt(s)
      case Some(n) =>
        StripDeletesOnly(s[n..]);
        SubsequenceOfSuffix(StripParenthesised(s[n..]), s, n);
      case None =>
        StripDeletesOnly(s[1..]);
        var r := StripParenthesised(s);
        assert r == [s[0]] + StripParenthesised(s[1..]);
        assert r[1..] == StripParenthesised(s[1..]);
    }
  }

  /** A title with no '(' is left exactly as it was. */
  lemma {:induction false} StripWithoutParen(s: string)
    requires '(' !in s
    ensures StripParenthesised(s) == s
    decreases |s|
  {
    if s != [] {
      var w := SpaceRun(s);
      assert w < |s| ==> s[w] != '(';
      assert MatchAt(s).None?;
      StripWithoutParen(s[1..]);
    }
  }

  /** An opening parenthesis that some later ')' follows. */
  predicate HasSpan(s: string) {
    exists i, j :: 0 <= i < j < |s| && s[i] == '(' && s[j] == ')'
  }

  lemma ConsNoSpan(c: char, rest: string)
    requires !HasSpan(rest)
    requires c == '(' ==> ')' !in rest
    ensures !HasSpan([c] + rest)
  {
    var r := [c] + rest;
    forall i, j | 0 <= i < j < |r| && r[i] == '('
      ensures r[j] != ')'
    {
      assert r[j] == rest[j - 1];
      if i > 0 {
        assert r[i] == rest[i - 1];
      }
    }
  }

  /** When MatchAt fails on a '(' of a single-line title, no ')' follows it. */
  lemma UnmatchedOpen(s: string)
    requires '\n' !in s
    requires s != [] && s[0] == '(' && MatchAt(s).None?
    ensures ')' !in s[1..]
  {
    assert SpaceRun(s) == 0;
    assert CloseParen(s[1..]).None?;
    assert forall i :: 0 <= i < |s[1..]| ==> s[1..][i] != '\n';
  }

  /**
   * On a single-line title nothing parenthesised survives: no '(' of the result
   * is followed by a ')'.
   */
  lemma {:induction false} StripRemovesSpans(s: string)
    requires '\n' !in s
    ensures !HasSpan(StripParenthesised(s))
    decreases |s|
  {
    if s != [] {
      var m := MatchAt(s);
      if m.Some? {
        assert '\n' !in s[m.value..];
        StripRemovesSpans(s[m.value..]);
      } else {
        assert '\n' !in s[1..];
        StripRemovesSpans(s[1..]);
        var rest := StripParenthesised(s[1..]);
        if s[0] == '(' {
          UnmatchedOpen(s);
          StripDeletesOnly(s[1..]);
          SubsequenceMembers(rest, s[1..]);
          assert ')' !in rest;
        }
        ConsNoSpan(s[0], rest);
      }
    }
  }

  lemma {:induction false} CloseParenLast(s: string)
    requires s != [] && s[|s| - 1] == ')'
    requires forall i :: 0 <= i < |s| - 1 ==> s[i] != ')' && s[i] != '\n'
    ensures CloseParen(s) == Some(|s| - 1)
  {
    if |s| > 1 {
      CloseParenLast(s[1..]);
    }
  }

  /** Where no match starts, the first character is kept. */
  lemma StripKeepsFirst(s: string)
    requires s != [] && MatchAt(s).None?
    ensures StripParenthesised(s) == [s[0]] + StripParenthesised(s[1..])
  {
  }

  /** A prefix without '(' that ends in a non-space character is kept as it is. */
  lemma {:induction false} StripKeepsPlainPrefix(p: string, q: string)
    requires p != [] && '(' !in p && !IsSpace(p[|p| - 1])
    ensures StripParenthesised(p + q) == p + StripParenthesised(q)
    decreases |p|
  {
    NoMatchInPlainPrefix(p, q);
    var rest := p[1..];
    if |p| > 1 {
      assert rest[|rest| - 1] == p[|p| - 1];
      assert forall i :: 0 <= i < |rest| ==> rest[i] == p[i + 1];
      StripKeepsPlainPrefix(rest, q);
      KeepsFirstStep(p, q, rest);
    } else {
      var s := p + q;
      StripKeepsFirst(s);
      assert s[1..] == q;
      assert p == [p[0]];
    }
  }

  /** The step of the induction above: a kept first character in front of a kept rest. */
  lemma KeepsFirstStep(p: string, q: string, rest: string)
    requires p != [] && rest == p[1..] && MatchAt(p + q).None?
    requires StripParenthesised(rest + q) == rest + StripParenthesised(q)
    ensures StripParenthesised(p + q) == p + StripParenthesised(q)
  {
    StripKeepsFirst(p + q);
    PrefixStep(StripParenthesised, p, q);
  }

  /** For any `f` that keeps the first character of `p + q` and keeps `p[1..]`, `f` keeps `p`. */
  lemma PrefixStep<T>(f: seq<T> -> seq<T>, p: seq<T>, q: seq<T>)
    requires p != [] && f(p + q) == [(p + q)[0]] + f((p + q)[1..])
    requires f(p[1..] + q) == p[1..] + f(q)
    ensures f(p + q) == p + f(q)
  {
    assert (p + q)[1..] == p[1..] + q;
    assert (p + q)[0] == p[0];
    assert [p[0]] + (p[1..] + f(q)) == p + f(q);
  }

  lemma NoMatchInPlainPrefix(p: string, q: string)
    requires p != [] && '(' !in p && !IsSpace(p[|p| - 1])
    ensures (p + q)[0] == p[0]
    ensures MatchAt(p + q).None?
  {
    var s := p + q;
    assert !IsSpace(s[|p| - 1]);
    var w := SpaceRun(s);
    assert w <= |p| - 1;
    assert s[w] == p[w];
  }

  /** A trailing " (...)" on one line is removed: "Book D (Special Edition)" becomes "Book D". */
  lemma StripTrailingSpan(p: string, inner: string)
    requires p != [] && '(' !in p && !IsSpace(p[|p| - 1])
    requires ')' !in inner && '\n' !in inner
    ensures StripParenthesised(p + " (" + inner + ")") == p
  {
    var q := " (" + inner + ")";
    assert p + " (" + inner + ")" == p + q;
    StripKeepsPlainPrefix(p, q);
    SpanMatches(inner);
  }

  lemma SpanMatches(inner: string)
    requires ')' !in inner && '\n' !in inner
    ensures StripParenthesised(" (" + inner + ")") == []
  {
    var q := " (" + inner + ")";
    assert SpaceRun(q) == 1 by {
      assert IsSpace(q[0]) && !IsSpace(q[1]);
    }
    var rest := q[2..];
    assert rest == inner + ")";
    CloseParenLast(rest);
    assert q[|q|..] == [];
    assert MatchAt(q) == Some(|q|);
  }

  /** A title that is one parenthesised span, such as "(Untitled)", is emptied. */
  lemma StripWholeSpan(inner: string)
    requires ')' !in inner && '\n' !in inner
    ensures StripParenthesised("(" + inner + ")") == []
  {
    var q := "(" + inner + ")";
    assert SpaceRun(q) == 0;
    var rest := q[1..];
    assert rest == inner + ")";
    CloseParenLast(rest);
    assert q[|q|..] == [];
    assert MatchAt(q) == Some(|q|);
  }
}
