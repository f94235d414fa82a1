/** The string built-ins the viewer relies on: `trim`, `split`, `join`,
    `startsWith`, `endsWith`, the default string order of `sort()`, and the
    decimal text of a small integer. */
module Text {

  /** ECMAScript WhiteSpace and LineTerminator code points, the characters
      `String.prototype.trim` removes. */
  predicate IsJsSpace(c: char) {
    c == '\t' || c == '\n' || c == '\U{B}' || c == '\U{C}' || c == '\r' || c == ' '
    || c == '\U{A0}' || c == '\U{1680}' || ('\U{2000}' <= c <= '\U{200A}')
    || c == '\U{2028}' || c == '\U{2029}' || c == '\U{202F}' || c == '\U{205F}'
    || c == '\U{3000}' || c == '\U{FEFF}'
  }

  predicate AllSpace(s: string) {
    forall i :: 0 <= i < |s| ==> IsJsSpace(s[i])
  }

  /** `s.trimStart()`: drops the leading white space and nothing else; the
      search for the first other character starts at `from`. */
  function TrimStart(s: string, from: nat := 0): (r: string)
    requires from <= |s|
    ensures |r| <= |s| - from && r == s[|s| - |r|..]
    ensures forall i :: from <= i < |s| - |r| ==> IsJsSpace(s[i])
    ensures r != [] ==> !IsJsSpace(r[0])
    decreases |s| - from
  {
    if from < |s| && IsJsSpace(s[from]) then TrimStart(s, from + 1) else s[from..]
  }

  /** `s.trimEnd()`: drops the trailing white space and nothing else; the
      search for the last other character starts just before `to`. */
  function TrimEnd(s: string, to: nat := |s|): (r: string)
    requires to <= |s|
    ensures |r| <= to && r == s[..|r|]
    ensures forall i :: |r| <= i < to ==> IsJsSpace(s[i])
    ensures r != [] ==> !IsJsSpace(r[|r| - 1])
  {
    if to > 0 && IsJsSpace(s[to - 1]) then TrimEnd(s, to - 1) else s[..to]
  }

  /** `s.trim()`. */
  function Trim(s: string): (r: string)
    ensures r != [] ==> !IsJsSpace(r[0]) && !IsJsSpace(r[|r| - 1])
    ensures r == [] <==> AllSpace(s)
    ensures exists a :: OuterRuns(s, a, r)
  {
    var t := TrimStart(s);
    var r := TrimEnd(t);
    assert r != [] ==> r[0] == t[0];
    assert r == [] ==> t == [];
    TrimOuter(s, t, r);
    r
  }

  /** `r` is `s` without the white space before index `a` and after `r`. */
  predicate OuterRuns(s: string, a: nat, r: string) {
    && a + |r| <= |s|
    && r == s[a..a + |r|]
    && AllSpace(s[..a])
    && AllSpace(s[a + |r|..])
  }

  lemma TrimOuter(s: string, t: string, r: string)
    requires |t| <= |s| && t == s[|s| - |t|..] && forall i :: 0 <= i < |s| - |t| ==> IsJsSpace(s[i])
    requires |r| <= |t| && r == t[..|r|] && forall i :: |r| <= i < |t| ==> IsJsSpace(t[i])
    ensures OuterRuns(s, |s| - |t|, r)
  {
    var a := |s| - |t|;
    assert forall i :: 0 <= i < |r| ==> r[i] == t[i] == s[a + i];
    forall i | a + |r| <= i < |s| ensures IsJsSpace(s[i]) {
      assert s[i] == t[i - a];
    }
  }

  predicate StartsWith(s: string, prefix: string) {
    |prefix| <= |s| && s[..|prefix|] == prefix
  }

  predicate EndsWith(s: string, suffix: string) {
    |suffix| <= |s| && s[|s| - |suffix|..] == suffix
  }

  lemma StartsWithConcat(a: string, b: string)
    ensures StartsWith(a + b, a)
  {
    assert (a + b)[..|a|] == a;
  }

  lemma EndsWithConcat(a: string, b: string)
    ensures EndsWith(a + b, b)
  {
    assert (a + b)[|a|..] == b;
  }

  /** `s.split(c)` for a one-character separator: the pieces between the
      occurrences of `c`; an empty string gives one empty piece. */
  function Split(s: string, c: char): (r: seq<string>)
    ensures |r| >= 1
    ensures forall i :: 0 <= i < |r| ==> c !in r[i]
  {
    if |s| == 0 then [""]
    else
      var rest := Split(s[1..], c);
      if s[0] == c then [""] + rest else [[s[0]] + rest[0]] + rest[1..]
  }

  /** `pieces.join(c)`. */
  function Join(pieces: seq<string>, c: char): string {
    if |pieces| == 0 then ""
    else if |pieces| == 1 then pieces[0]
    else pieces[0] + [c] + Join(pieces[1..], c)
  }

  /** Joining the pieces of a split gives the text back. */
  lemma {:induction false} JoinSplit(s: string, c: char)
    ensures Join(Split(s, c), c) == s
  {
    if |s| > 0 {
      var rest := Split(s[1..], c);
      JoinSplit(s[1..], c);
      if s[0] != c {
        var r := [[s[0]] + rest[0]] + rest[1..];
        if |rest| > 1 {
          assert r[1..] == rest[1..];
          assert Join(rest, c) == rest[0] + [c] + Join(rest[1..], c);
        }
      }
    }
  }

  /** A character that no piece holds, other than the separator, is not in the join. */
  lemma {:induction false} JoinAvoids(pieces: seq<string>, c: char, d: char)
    requires d != c
    requires forall i :: 0 <= i < |pieces| ==> d !in pieces[i]
    ensures d !in Join(pieces, c)
  {
    if |pieces| > 1 {
      JoinAvoids(pieces[1..], c, d);
    }
  }

  /** Splitting a join of separator-free pieces gives the pieces back. */
  lemma {:induction false} SplitJoin(pieces: seq<string>, c: char)
    requires |pieces| >= 1
    requires forall i :: 0 <= i < |pieces| ==> c !in pieces[i]
    ensures Split(Join(pieces, c), c) == pieces
  {
    if |pieces| == 1 {
      SplitNoSeparator(pieces[0], c);
    } else {
      SplitJoin(pieces[1..], c);
      SplitAppend(pieces[0], Join(pieces[1..], c), c);
      assert [pieces[0]] + pieces[1..] == pieces;
    }
  }

  lemma {:induction false} SplitNoSeparator(s: string, c: char)
    requires c !in s
    ensures Split(s, c) == [s]
  {
    if |s| > 0 {
      SplitNoSeparator(s[1..], c);
      assert [s[0]] + s[1..] == s;
    }
  }

  /** A separator-free piece followed by the separator splits off as the first piece. */
  lemma {:induction false} SplitAppend(p: string, t: string, c: char)
    requires c !in p
    ensures Split(p + [c] + t, c) == [p] + Split(t, c)
  {
    if |p| == 0 {
      assert p + [c] + t == [c] + t;
      assert ([c] + t)[1..] == t;
    } else {
      SplitAppend(p[1..], t, c);
      var rest := Split(p[1..] + [c] + t, c);
      assert (p + [c] + t)[1..] == p[1..] + [c] + t;
      assert rest == [p[1..]] + Split(t, c);
      assert rest[0] == p[1..] && rest[1..] == Split(t, c);
      assert [p[0]] + p[1..] == p;
    }
  }

  /** A text shorter than the separator cannot hold it. */
  lemma BeforeFirstShort(s: string, sep: string)
    requires sep != [] && |s| < |sep|
    ensures BeforeFirst(s, sep) == s
  {
    var r := BeforeFirst(s, sep);
    assert |r| == |s|;
  }

  /** The text of `s` before the first occurrence of `sep`, or all of `s`
      when `sep` does not occur: the second piece of `x.split(sep)` when `x`
      is `sep + s`. */
  function BeforeFirst(s: string, sep: string): (r: string)
    requires sep != []
    ensures |r| <= |s| && r == s[..|r|]
    ensures |r| == |s| || StartsWith(s[|r|..], sep)
    ensures forall i :: 0 <= i < |r| ==> !StartsWith(s[i..], sep)
  {
    if StartsWith(s, sep) || s == [] then []
    else
      var r := [s[0]] + BeforeFirst(s[1..], sep);
      assert forall i :: 1 <= i < |r| ==> s[i..] == s[1..][i - 1..];
      r
  }

  /** The default `sort()` order on strings: lexicographic by character. */
  predicate LexLess(a: string, b: string) {
    if a == [] then b != []
    else if b == [] then false
    else if a[0] != b[0] then a[0] < b[0]
    else LexLess(a[1..], b[1..])
  }

  lemma {:induction false} LexLessIrreflexive(a: string)
    ensures !LexLess(a, a)
  {
    if a != [] { LexLessIrreflexive(a[1..]); }
  }

  lemma {:induction false} LexLessTransitive(a: string, b: string, c: string)
    requires LexLess(a, b) && LexLess(b, c)
    ensures LexLess(a, c)
  {
    if a != [] && b != [] && c != [] && a[0] == b[0] == c[0] {
      LexLessTransitive(a[1..], b[1..], c[1..]);
    }
  }

  lemma {:induction false} LexLessTotal(a: string, b: string)
    requires a != b
    ensures LexLess(a, b) || LexLess(b, a)
  {
    if a != [] && b != [] && a[0] == b[0] {
      assert a == [a[0]] + a[1..] && b == [b[0]] + b[1..];
      LexLessTotal(a[1..], b[1..]);
    }
  }

  lemma {:induction false} LexLessAsymmetric(a: string, b: string)
    requires LexLess(a, b)
    ensures !LexLess(b, a)
  {
    if a != [] && b != [] && a[0] == b[0] {
      LexLessAsymmetric(a[1..], b[1..]);
    }
  }

  function DigitChar(d: nat): (c: char)
    requires d < 10
    ensures '0' <= c <= '9'
  {
    ['0', '1', '2', '3', '4', '5', '6', '7', '8', '9'][d]
  }

  /** Decimal text of a natural number, as `String(n)` writes it: digits
      that denote `n`, with no leading zero. */
  function NatToString(n: nat): (r: string)
    ensures r != []
    ensures forall i :: 0 <= i < |r| ==> '0' <= r[i] <= '9'
    ensures DigitsValue(r) == n
    ensures r[0] == '0' ==> r == "0"
  {
    if n < 10 then [DigitChar(n)]
    else
      var r := NatToString(n / 10) + [DigitChar(n % 10)];
      assert r[..|r| - 1] == NatToString(n / 10);
      r
  }

  /** The number a text of decimal digits denotes. */
  function DigitsValue(s: string): nat
    requires forall i :: 0 <= i < |s| ==> '0' <= s[i] <= '9'
  {
    if s == [] then 0 else 10 * DigitsValue(s[..|s| - 1]) + (s[|s| - 1] as int - '0' as int)
  }
}
