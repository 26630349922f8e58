/**
 * The string operations the knowledge-base engine takes from Python's `str`
 * and `re`: whitespace and word character classes, lowering, `strip`,
 * `split`, `find`, `findall(r'\w+')`, `endswith`, the whitespace
 * normalisation of `sanitize_text` and the code-point order `sorted` uses.
 */
module Text {

  /** Python's `str.isspace()` (and what `\s` matches in a `str` pattern). */
  predicate IsSpace(c: char) {
    var n := c as int;
    n == 32 || 9 <= n <= 13 || 28 <= n <= 31 || n == 0x85 || n == 0xA0 || n == 0x1680
    || 0x2000 <= n <= 0x200A || n == 0x2028 || n == 0x2029 || n == 0x202F
    || n == 0x205F || n == 0x3000
  }

  /** `str.isalpha()` on one character, restricted to ASCII letters. */
  predicate IsAlpha(c: char) {
    'a' <= c <= 'z' || 'A' <= c <= 'Z'
  }

  /** What `\w` matches, restricted to ASCII: letters, digits and underscore. */
  predicate IsWordChar(c: char) {
    IsAlpha(c) || '0' <= c <= '9' || c == '_'
  }

  /** The character classes whose runs the tokenizers look for. */
  datatype CharClass = Space | NonSpace | Word | NonWord {
    predicate Has(c: char) {
      match this
      case Space => IsSpace(c)
      case NonSpace => !IsSpace(c)
      case Word => IsWordChar(c)
      case NonWord => !IsWordChar(c)
    }

    function Complement(): (k: CharClass)
      ensures forall c :: k.Has(c) <==> !Has(c)
    {
      match this
      case Space => NonSpace
      case NonSpace => Space
      case Word => NonWord
      case NonWord => Word
    }
  }

  predicate AllIn(w: string, cls: CharClass) {
    forall c :: c in w ==> cls.Has(c)
  }

  /** `str.lower()` on one character, restricted to ASCII. */
  function LowerChar(c: char): (d: char)
    ensures IsSpace(d) == IsSpace(c)
    ensures IsWordChar(d) == IsWordChar(c)
    ensures IsAlpha(d) == IsAlpha(c)
  {
    if 'A' <= c <= 'Z' then (c as int + 32) as char else c
  }

  function Lower(s: string): (r: string)
    ensures |r| == |s|
    ensures forall i :: 0 <= i < |s| ==> r[i] == LowerChar(s[i])
  {
    seq(|s|, i requires 0 <= i < |s| => LowerChar(s[i]))
  }

  /** The length of the longest prefix of `s` whose characters are all in `cls`. */
  function Span(s: string, cls: CharClass): (n: nat)
    ensures n <= |s|
    ensures forall k :: 0 <= k < n ==> cls.Has(s[k])
    ensures n < |s| ==> !cls.Has(s[n])
  {
    if s == [] || !cls.Has(s[0]) then 0 else 1 + Span(s[1..], cls)
  }

  /** The length of the longest suffix of `s` whose characters are all in `cls`. */
  function SpanEnd(s: string, cls: CharClass): (n: nat)
    ensures n <= |s|
    ensures forall k :: |s| - n <= k < |s| ==> cls.Has(s[k])
    ensures n < |s| ==> !cls.Has(s[|s| - n - 1])
  {
    if s == [] || !cls.Has(s[|s| - 1]) then 0 else 1 + SpanEnd(s[..|s| - 1], cls)
  }

  /** `str.strip()`: drop leading and trailing whitespace. */
  function Strip(s: string): (r: string)
    ensures r == [] || (!IsSpace(r[0]) && !IsSpace(r[|r| - 1]))
  {
    var i := Span(s, Space);
    var t := s[i..];
    t[..|t| - SpanEnd(t, Space)]
  }

  /** The strip is a slice of the text with only whitespace around it. */
  lemma StripSlice(s: string)
    ensures exists i :: StrippedAt(s, Strip(s), i)
  {
    var i := Span(s, Space);
    assert StrippedAt(s, Strip(s), i);
  }

  /** `r` is the slice of `s` that starts at `i` and everything around it is whitespace. */
  ghost predicate StrippedAt(s: string, r: string, i: int) {
    0 <= i && i + |r| <= |s| && r == s[i..i + |r|]
    && (forall k :: 0 <= k < i ==> IsSpace(s[k]))
    && (forall k :: i + |r| <= k < |s| ==> IsSpace(s[k]))
  }

  lemma StripBlank(s: string)
    ensures Strip(s) == [] <==> AllIn(s, Space)
  {
    StripSlice(s);
    var i :| StrippedAt(s, Strip(s), i);
    if Strip(s) == [] {
      forall c | c in s ensures IsSpace(c) {
        var k :| 0 <= k < |s| && s[k] == c;
        assert k < i || i + |Strip(s)| <= k;
      }
    }
  }

  /** A text without surrounding whitespace is its own strip. */
  lemma StripUnchanged(s: string)
    requires s == [] || (!IsSpace(s[0]) && !IsSpace(s[|s| - 1]))
    ensures Strip(s) == s
  {
    StripSlice(s);
    var j :| StrippedAt(s, Strip(s), j);
    if s != [] {
      assert j == 0;
      assert |Strip(s)| == |s|;
    } else {
      StripBlank(s);
    }
  }

  lemma StripIdempotent(s: string)
    ensures Strip(Strip(s)) == Strip(s)
  {
    StripUnchanged(Strip(s));
  }

  predicate EndsWith(s: string, suffix: string) {
    |suffix| <= |s| && s[|s| - |suffix|..] == suffix
  }

  /** `sub` occurs in `text` at index `i`. */
  predicate OccursAt(text: string, sub: string, i: int) {
    0 <= i && i + |sub| <= |text| && text[i..i + |sub|] == sub
  }

  /** `text.find(sub, start)`: an index at or after `start` where `sub` occurs, or -1. */
  function Find(text: string, sub: string, start: nat): (r: int)
    ensures r == -1 || (start <= r && OccursAt(text, sub, r))
    decreases |text| - start
  {
    if start + |sub| > |text| then -1
    else if text[start..start + |sub|] == sub then start
    else Find(text, sub, start + 1)
  }

  /** `find` reports the lowest occurrence: any occurrence at or after `start` is found, at or before it. */
  lemma {:induction false} FindFirst(text: string, sub: string, start: nat, j: int)
    requires start <= j && OccursAt(text, sub, j)
    ensures start <= Find(text, sub, start) <= j
    decreases |text| - start
  {
    if start + |sub| <= |text| && text[start..start + |sub|] != sub {
      assert j != start;
      FindFirst(text, sub, start + 1, j);
    }
  }

  /** `s.split(sep)` for a non-empty separator. */
  function Split(s: string, sep: string): (parts: seq<string>)
    requires sep != []
    ensures |parts| >= 1
    decreases |s|
  {
    var i := Find(s, sep, 0);
    if i < 0 then [s] else [s[..i]] + Split(s[i + |sep|..], sep)
  }

  /** `sep.join(parts)` for a non-empty list. */
  function Join(parts: seq<string>, sep: string): string
    requires |parts| >= 1
  {
    if |parts| == 1 then parts[0] else parts[0] + sep + Join(parts[1..], sep)
  }

  /** Splitting and joining with the same separator gives back the text. */
  lemma {:induction false} JoinSplit(s: string, sep: string)
    requires sep != []
    ensures Join(Split(s, sep), sep) == s
    decreases |s|
  {
    var i := Find(s, sep, 0);
    if i >= 0 {
      var rest := s[i + |sep|..];
      var parts := Split(s, sep);
      assert parts == [s[..i]] + Split(rest, sep);
      assert parts[0] == s[..i] && parts[1..] == Split(rest, sep);
      JoinSplit(rest, sep);
      assert s[i..i + |sep|] == sep;
      assert s == s[..i] + s[i..i + |sep|] + rest;
    }
  }

  /** A slice of a prefix is the same slice of the whole text. */
  lemma OccursInPrefix(s: string, sub: string, n: nat, j: int)
    requires n <= |s| && OccursAt(s[..n], sub, j)
    ensures OccursAt(s, sub, j) && j + |sub| <= n
  {
    assert s[..n][j..j + |sub|] == s[j..j + |sub|];
  }

  /** No part of a split holds the separator. */
  lemma {:induction false} SplitPartsFree(s: string, sep: string)
    requires sep != []
    ensures forall p :: p in Split(s, sep) ==> Find(p, sep, 0) == -1
    decreases |s|
  {
    var i := Find(s, sep, 0);
    if i >= 0 {
      SplitPartsFree(s[i + |sep|..], sep);
      var j := Find(s[..i], sep, 0);
      if j != -1 {
        OccursInPrefix(s, sep, i, j);
        FindFirst(s, sep, 0, j);
      }
    }
  }

  /** The maximal runs of characters of class `cls`, left to right. */
  function Runs(s: string, cls: CharClass): (r: seq<string>)
    ensures forall w :: w in r ==> w != [] && AllIn(w, cls)
    decreases |s|
  {
    var t := s[Span(s, cls.Complement())..];
    if t == [] then []
    else
      var n := Span(t, cls);
      SpanPrefix(t, cls);
      [t[..n]] + Runs(t[n..], cls)
  }

  lemma SpanPrefix(t: string, cls: CharClass)
    requires t != [] && cls.Has(t[0])
    ensures Span(t, cls) > 0 && AllIn(t[..Span(t, cls)], cls)
  {
    var n := Span(t, cls);
    forall c | c in t[..n] ensures cls.Has(c) {
      var k :| 0 <= k < n && t[k] == c;
    }
  }

  /** `s.split()`: the maximal runs of non-whitespace characters. */
  function Tokens(s: string): seq<string> {
    Runs(s, NonSpace)
  }

  /** `re.findall(r'\w+', s)` (and `\b\w+\b`, which finds the same runs). */
  function WordTokens(s: string): seq<string> {
    Runs(s, Word)
  }

  lemma {:induction false} RunsEmpty(s: string, cls: CharClass)
    ensures Runs(s, cls) == [] <==> AllIn(s, cls.Complement())
  {
    var m := Span(s, cls.Complement());
    if m < |s| {
      assert s[m] in s && !cls.Complement().Has(s[m]);
    } else {
      forall c | c in s ensures cls.Complement().Has(c) {
        var k :| 0 <= k < |s| && s[k] == c;
      }
    }
  }

  /** `s.split()` is empty exactly when `s.strip()` is. */
  lemma TokensOfBlank(s: string)
    ensures Tokens(s) == [] <==> Strip(s) == []
  {
    RunsEmpty(s, NonSpace);
    StripBlank(s);
  }

  /** Lowering keeps a text blank or not blank. */
  lemma LowerBlank(s: string)
    ensures AllIn(Lower(s), Space) <==> AllIn(s, Space)
  {
    if AllIn(s, Space) {
      forall c | c in Lower(s) ensures IsSpace(c) {
        var k :| 0 <= k < |s| && Lower(s)[k] == c;
        assert s[k] in s;
      }
    } else {
      var c :| c in s && !IsSpace(c);
      var k :| 0 <= k < |s| && s[k] == c;
      assert Lower(s)[k] in Lower(s);
    }
  }

  /** The whitespace-free tokens of a query whose strip is non-empty exist. */
  lemma QueryHasTokens(q: string)
    requires Strip(q) != []
    ensures Tokens(Lower(q)) != []
  {
    StripBlank(q);
    LowerBlank(q);
    RunsEmpty(Lower(q), NonSpace);
  }

  /** `re.sub(r'\s+', ' ', s)`: every maximal whitespace run becomes one space. */
  function CollapseWhitespace(s: string): (r: string)
    decreases |s|
  {
    if s == [] then []
    else if IsSpace(s[0]) then [' '] + CollapseWhitespace(s[Span(s, Space)..])
    else [s[0]] + CollapseWhitespace(s[1..])
  }

  /** No two whitespace characters are adjacent. */
  predicate NoDoubleSpace(s: string) {
    forall i :: 0 <= i < |s| - 1 ==> !(IsSpace(s[i]) && IsSpace(s[i + 1]))
  }

  /** Every whitespace character is a plain space. */
  predicate SpacesArePlain(s: string) {
    forall i :: 0 <= i < |s| ==> IsSpace(s[i]) ==> s[i] == ' '
  }

  /** The non-whitespace characters of `s`, in order. */
  function Visible(s: string): string {
    if s == [] then [] else (if IsSpace(s[0]) then [] else [s[0]]) + Visible(s[1..])
  }

  lemma {:induction false} VisibleSkipsSpaces(s: string, n: nat)
    requires n <= |s| && forall k :: 0 <= k < n ==> IsSpace(s[k])
    ensures Visible(s) == Visible(s[n..])
  {
    if n > 0 {
      VisibleSkipsSpaces(s[1..], n - 1);
      assert s[1..][n - 1..] == s[n..];
    }
  }

  lemma {:induction false} VisibleAppend(a: string, b: string)
    ensures Visible(a + b) == Visible(a) + Visible(b)
  {
    if a != [] {
      VisibleAppend(a[1..], b);
      assert (a + b)[1..] == a[1..] + b;
    } else {
      assert a + b == b;
    }
  }

  lemma {:induction false} CollapseWhitespaceShape(s: string)
    ensures NoDoubleSpace(CollapseWhitespace(s))
    ensures SpacesArePlain(CollapseWhitespace(s))
    ensures Visible(CollapseWhitespace(s)) == Visible(s)
    ensures s != [] && !IsSpace(s[0]) ==> CollapseWhitespace(s)[0] == s[0]
    decreases |s|
  {
    if s != [] {
      var r := CollapseWhitespace(s);
      if IsSpace(s[0]) {
        var n := Span(s, Space);
        var t := s[n..];
        CollapseWhitespaceShape(t);
        VisibleSkipsSpaces(s, n);
        VisibleAppend([' '], CollapseWhitespace(t));
        assert r == [' '] + CollapseWhitespace(t);
        assert t != [] ==> !IsSpace(t[0]);
      } else {
        CollapseWhitespaceShape(s[1..]);
        VisibleAppend([s[0]], CollapseWhitespace(s[1..]));
      }
    }
  }

  /** Taking a slice whose surroundings are whitespace keeps the visible characters. */
  lemma StrippedVisible(s: string, r: string, i: int)
    requires StrippedAt(s, r, i)
    ensures Visible(r) == Visible(s)
  {
    VisibleSkipsSpaces(s, i);
    var t := s[i..];
    assert t == r + t[|r|..];
    VisibleAppend(r, t[|r|..]);
    VisibleSkipsSpaces(t[|r|..], |t| - |r|);
    assert t[|r|..][|t| - |r|..] == [];
  }

  /**
   * `sanitize_text`: whitespace runs become single spaces and the ends are
   * stripped. The result has no surrounding or doubled whitespace and keeps
   * every other character in order.
   */
  function Sanitize(s: string): (r: string)
    ensures r == [] || (!IsSpace(r[0]) && !IsSpace(r[|r| - 1]))
    ensures NoDoubleSpace(r) && SpacesArePlain(r)
    ensures Visible(r) == Visible(s)
  {
    var c := CollapseWhitespace(s);
    CollapseWhitespaceShape(s);
    StripKeepsShape(c);
    Strip(c)
  }

  lemma StripKeepsShape(c: string)
    ensures NoDoubleSpace(c) ==> NoDoubleSpace(Strip(c))
    ensures SpacesArePlain(c) ==> SpacesArePlain(Strip(c))
    ensures Visible(Strip(c)) == Visible(c)
  {
    var r := Strip(c);
    StripSlice(c);
    var i :| StrippedAt(c, r, i);
    StrippedVisible(c, r, i);
    assert forall k :: 0 <= k < |r| ==> r[k] == c[i + k];
  }

  /** Code-point order on strings, the order Python's `sorted` uses. */
  predicate StrLess(a: string, b: string)
    decreases |a|
  {
    if a == [] then b != []
    else b != [] && (a[0] < b[0] || (a[0] == b[0] && StrLess(a[1..], b[1..])))
  }

  lemma {:induction false} StrLessIrreflexive(a: string)
    ensures !StrLess(a, a)
    decreases |a|
  {
    if a != [] { StrLessIrreflexive(a[1..]); }
  }

  lemma {:induction false} StrLessTransitive(a: string, b: string, c: string)
    requires StrLess(a, b) && StrLess(b, c)
    ensures StrLess(a, c)
    decreases |a|
  {
    if a != [] && a[0] == b[0] && b[0] == c[0] {
      StrLessTransitive(a[1..], b[1..], c[1..]);
    }
  }

  lemma {:induction false} StrLessTotal(a: string, b: string)
    ensures a == b || StrLess(a, b) || StrLess(b, a)
    decreases |a|
  {
    if a != [] && b != [] && a[0] == b[0] {
      StrLessTotal(a[1..], b[1..]);
      if a[1..] == b[1..] {
        assert a == [a[0]] + a[1..] && b == [b[0]] + b[1..];
      }
    }
  }
}
