/** Character classes and string operations of ECMAScript that the modelled
    code relies on: `\s`, `\w`, `trim`, `split` and `join`. */
module Strings {

  /** ECMAScript WhiteSpace and LineTerminator code points: exactly the
      characters that the regular-expression class `\s` matches and that
      `String.prototype.trim` removes. */
  predicate IsSpace(c: char) {
    ('\t' <= c <= '\r') || c == ' ' || c == '\U{00A0}' || c == '\U{1680}'
    || ('\U{2000}' <= c <= '\U{200A}') || c == '\U{2028}' || c == '\U{2029}'
    || c == '\U{202F}' || c == '\U{205F}' || c == '\U{3000}' || c == '\U{FEFF}'
  }

  /** The regular-expression class `\w`, which is `[A-Za-z0-9_]`. */
  predicate IsWordChar(c: char) {
    ('a' <= c <= 'z') || ('A' <= c <= 'Z') || ('0' <= c <= '9') || c == '_'
  }

  predicate IsLowerAscii(c: char) { 'a' <= c <= 'z' }
  predicate IsUpperAscii(c: char) { 'A' <= c <= 'Z' }
  predicate IsDigit(c: char) { '0' <= c <= '9' }

  /** `toUpperCase` on one character, restricted to the ASCII letters. */
  function ToUpper(c: char): (u: char)
    ensures IsLowerAscii(c) ==> IsUpperAscii(u) && u as int == c as int - 32
    ensures !IsLowerAscii(c) ==> u == c
  {
    if IsLowerAscii(c) then (c as int - 32) as char else c
  }

  /** `toLowerCase` on one character, restricted to the ASCII letters. */
  function ToLower(c: char): (l: char)
    ensures IsUpperAscii(c) ==> IsLowerAscii(l) && l as int == c as int + 32
    ensures !IsUpperAscii(c) ==> l == c
  {
    if IsUpperAscii(c) then (c as int + 32) as char else c
  }

  predicate NoSpace(s: string) {
    forall k :: 0 <= k < |s| ==> !IsSpace(s[k])
  }

  predicate AllSpace(s: string) {
    forall k :: 0 <= k < |s| ==> IsSpace(s[k])
  }

  /** Length of the longest prefix of `s` whose characters are all white space
      (`space`) or all non-white space (`!space`). */
  function SpanLen(s: string, space: bool): (n: nat)
    ensures n <= |s|
    ensures forall k :: 0 <= k < n ==> IsSpace(s[k]) == space
    ensures n < |s| ==> IsSpace(s[n]) != space
  {
    if |s| == 0 || IsSpace(s[0]) != space then 0 else 1 + SpanLen(s[1..], space)
  }

  /** Number of white-space characters at the end of `s`. */
  function TrailingSpaces(s: string): (n: nat)
    ensures n <= |s|
    ensures forall k :: |s| - n <= k < |s| ==> IsSpace(s[k])
    ensures n < |s| ==> !IsSpace(s[|s| - 1 - n])
  {
    if |s| == 0 || !IsSpace(s[|s| - 1]) then 0 else 1 + TrailingSpaces(s[..|s| - 1])
  }

  /** `String.prototype.trim`: the text between the leading white space
      (`SpanLen(s, true)` characters) and the trailing white space. */
  function Trim(s: string): (r: string)
    ensures |r| > 0 ==> !IsSpace(r[0]) && !IsSpace(r[|r| - 1])
    ensures |r| == 0 <==> AllSpace(s)
    ensures SpanLen(s, true) + |r| <= |s|
    ensures r == s[SpanLen(s, true)..SpanLen(s, true) + |r|]
    ensures AllSpace(s[SpanLen(s, true) + |r|..])
  {
    var i := SpanLen(s, true);
    var t := s[i..];
    var r := t[..|t| - TrailingSpaces(t)];
    TrimEnds(s, i, t, r);
    TrimEmpty(s, i, t, r);
    TrimRest(s, i, t, r);
    r
  }

  /** The trimmed text neither starts nor ends with white space. */
  lemma TrimEnds(s: string, i: nat, t: string, r: string)
    requires i == SpanLen(s, true) && t == s[i..] && r == t[..|t| - TrailingSpaces(t)]
    ensures |r| > 0 ==> !IsSpace(r[0]) && !IsSpace(r[|r| - 1])
  {
    if |r| > 0 {
      assert r[0] == s[i];
      assert r[|r| - 1] == t[|t| - 1 - TrailingSpaces(t)];
    }
  }

  /** Nothing is left exactly when everything is white space. */
  lemma TrimEmpty(s: string, i: nat, t: string, r: string)
    requires i == SpanLen(s, true) && t == s[i..] && r == t[..|t| - TrailingSpaces(t)]
    ensures |r| == 0 <==> AllSpace(s)
  {
    if AllSpace(s) {
      assert i == |s|;
    }
  }

  /** The trimmed text is the slice after the leading white space, and only
      white space follows it. */
  lemma TrimRest(s: string, i: nat, t: string, r: string)
    requires i == SpanLen(s, true) && t == s[i..] && r == t[..|t| - TrailingSpaces(t)]
    ensures i + |r| <= |s| && r == s[i..i + |r|]
    ensures AllSpace(s[i + |r|..])
  {
    var n := TrailingSpaces(t);
    var j := i + |r|;
    assert |r| == |t| - n && j + n == |s|;
    assert r == s[i..j];
    var rest := s[j..];
    assert rest == t[|r|..];
    forall k | 0 <= k < |rest| ensures IsSpace(rest[k]) {
      assert rest[k] == t[|t| - n + k];
    }
  }

  /** Trimming leaves a string that neither starts nor ends with white space
      unchanged. */
  lemma TrimNoop(s: string)
    requires |s| == 0 || (!IsSpace(s[0]) && !IsSpace(s[|s| - 1]))
    ensures Trim(s) == s
  {
  }

  /** Number of occurrences of `c` in `s`. */
  function Count(s: string, c: char): (n: nat)
    ensures n <= |s|
    ensures n == 0 <==> c !in s
  {
    if |s| == 0 then 0 else (if s[0] == c then 1 else 0) + Count(s[1..], c)
  }

  /** Length of the longest prefix of `s` that does not contain `c`. */
  function LenUntil(s: string, c: char): (n: nat)
    ensures n <= |s|
    ensures c !in s[..n]
    ensures n < |s| ==> s[n] == c
  {
    if |s| == 0 || s[0] == c then 0 else 1 + LenUntil(s[1..], c)
  }

  /** `String.prototype.split` with a one-character separator. */
  function Split(s: string, c: char): (pieces: seq<string>)
    ensures |pieces| > 0
    decreases |s|
  {
    var k := LenUntil(s, c);
    if k == |s| then [s] else [s[..k]] + Split(s[k + 1..], c)
  }

  /** `Array.prototype.join`. */
  function Join(xs: seq<string>, sep: string): string {
    if |xs| == 0 then "" else if |xs| == 1 then xs[0] else xs[0] + sep + Join(xs[1..], sep)
  }

  /** Splitting yields one more piece than there are separators, and no
      piece contains the separator. */
  lemma {:induction false} SplitShape(s: string, c: char)
    ensures |Split(s, c)| == Count(s, c) + 1
    ensures forall p :: p in Split(s, c) ==> c !in p
    decreases |s|
  {
    var k := LenUntil(s, c);
    if k < |s| {
      SplitShape(s[k + 1..], c);
      CountSplit(s, k, c);
    } else {
      assert s[..k] == s;
    }
  }

  lemma {:induction false} CountSplit(s: string, k: nat, c: char)
    requires k < |s| && s[k] == c && c !in s[..k]
    ensures Count(s, c) == 1 + Count(s[k + 1..], c)
  {
    if k > 0 {
      assert s[1..][..k - 1] == s[1..k];
      CountSplit(s[1..], k - 1, c);
      assert s[1..][k..] == s[k + 1..];
    } else {
      assert s[1..] == s[k + 1..];
    }
  }

  /** The first separator divides a text into its first piece and the rest. */
  lemma SplitAt(s: string, c: char, k: nat)
    requires k == LenUntil(s, c) < |s|
    ensures c !in s[..k] && s[k] == c
    ensures Split(s, c) == [s[..k]] + Split(s[k + 1..], c)
  {
  }

  /** A text is the part before position `k`, the character there and the
      part after it. */
  lemma AroundIndex(s: string, k: nat)
    requires k < |s|
    ensures s == s[..k] + ([s[k]] + s[k + 1..])
  {
    assert s == s[..k] + [s[k]] + s[k + 1..];
  }

  /** Joining the pieces with the separator gives back the original string. */
  lemma {:induction false} JoinSplit(s: string, c: char)
    ensures Join(Split(s, c), [c]) == s
    decreases |s|
  {
    var k := LenUntil(s, c);
    if k < |s| {
      var rest := Split(s[k + 1..], c);
      assert Split(s, c) == [s[..k]] + rest;
      JoinSplit(s[k + 1..], c);
      JoinCons(s[..k], rest, [c]);
      assert s == s[..k] + [c] + s[k + 1..];
    } else {
      assert s[..k] == s;
      assert Split(s, c) == [s];
    }
  }

  /** Splitting a join of separator-free pieces gives back the pieces. */
  lemma {:induction false} SplitJoin(xs: seq<string>, c: char)
    requires |xs| > 0
    requires forall i :: 0 <= i < |xs| ==> c !in xs[i]
    ensures Split(Join(xs, [c]), c) == xs
    decreases |xs|
  {
    var s := Join(xs, [c]);
    LenUntilPrefix(xs[0], if |xs| == 1 then [] else [c] + Join(xs[1..], [c]), c);
    if |xs| > 1 {
      assert s == xs[0] + ([c] + Join(xs[1..], [c]));
      assert s[|xs[0]| + 1..] == Join(xs[1..], [c]);
      SplitJoin(xs[1..], c);
    } else {
      assert s == xs[0] + [];
    }
  }

  lemma {:induction false} LenUntilPrefix(a: string, b: string, c: char)
    requires c !in a
    requires |b| == 0 || b[0] == c
    ensures LenUntil(a + b, c) == |a|
    decreases |a|
  {
    if |a| > 0 {
      assert (a + b)[1..] == a[1..] + b;
      LenUntilPrefix(a[1..], b, c);
    }
  }

  /** Index of the first occurrence of `x` in `xs`, or -1 when there is none
      (`Array.prototype.indexOf`). */
  function IndexOf<T(==)>(xs: seq<T>, x: T): (i: int)
    ensures -1 <= i < |xs|
    ensures i == -1 <==> x !in xs
    ensures 0 <= i ==> xs[i] == x && x !in xs[..i]
  {
    if |xs| == 0 then -1
    else if xs[0] == x then 0
    else
      var j := IndexOf(xs[1..], x);
      if j == -1 then -1
      else assert xs[..j + 1] == [xs[0]] + xs[1..][..j]; j + 1
  }

  /** A text made of a run of white space and then a non-space character has
      exactly that run as its leading white space. */
  lemma {:induction false} SpanOfSpaces(a: string, b: string)
    requires AllSpace(a) && (|b| == 0 || !IsSpace(b[0]))
    ensures SpanLen(a + b, true) == |a|
    decreases |a|
  {
    if |a| > 0 {
      assert (a + b)[1..] == a[1..] + b;
      SpanOfSpaces(a[1..], b);
    } else {
      assert a + b == b;
    }
  }

  /** The prefix `SpanLen` measures is all white space or has none. */
  lemma SpanPrefix(s: string, space: bool)
    ensures var n := SpanLen(s, space); if space then AllSpace(s[..n]) else NoSpace(s[..n])
  {
    var n := SpanLen(s, space);
    forall k | 0 <= k < n ensures IsSpace(s[..n][k]) == space {
      assert s[..n][k] == s[k];
    }
  }

  /** `trim` removes exactly the white space around a text whose ends are
      not white space. */
  lemma TrimAround(a: string, m: string, z: string)
    requires AllSpace(a) && AllSpace(z) && |m| > 0 && !IsSpace(m[0]) && !IsSpace(m[|m| - 1])
    ensures Trim(a + (m + z)) == m
  {
    var s := a + (m + z);
    assert s == a + m + z;
    SpanOfSpaces(a, m + z);
    var r := Trim(s);
    assert r == s[|a|..|a| + |m|] == m;
  }

  lemma ThreeParts(t: string, i: nat, j: nat)
    requires i <= j <= |t|
    ensures t == t[..i] + t[i..j] + t[j..]
  {
    assert t[..i] + t[i..j] == t[..j];
  }

  lemma JoinCons(w: string, p: seq<string>, sep: string)
    requires |p| > 0
    ensures Join([w] + p, sep) == w + sep + Join(p, sep)
  {
    assert ([w] + p)[1..] == p;
  }
}
