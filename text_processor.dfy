/** The string helper class of TextProcessor.ts: a chainable processor whose
    `text` field the transforms rewrite, and static validators and
    extractors. Regular expressions are written out as character scans. */
module TextProcessor {
  import opened Strings

  // ---------------------------------------------------------------------
  // truncate

  /** Clamps an index into `[0, n]`, as `String.prototype.substring` does. */
  function Clamp(i: int, n: nat): (r: nat)
    ensures r <= n
    ensures 0 <= i <= n ==> r == i
  {
    if i < 0 then 0 else if i > n then n else i
  }

  /** `s.substring(start, end)`: both ends clamped, swapped when reversed. */
  function Substring(s: string, start: int, end: int): string {
    var a := Clamp(start, |s|);
    var b := Clamp(end, |s|);
    if a <= b then s[a..b] else s[b..a]
  }

  /** What `truncate(maxLength)` makes of `s`. A text longer than the limit
      keeps its first `maxLength - 3` characters (none when that is negative)
      followed by an ellipsis; then its length is the limit, or 3 for a limit
      below 3. */
  function Truncated(s: string, maxLength: int): (r: string)
    ensures |s| <= maxLength ==> r == s
    ensures |s| > maxLength ==> r == s[..if maxLength >= 3 then maxLength - 3 else 0] + "..."
    ensures |s| > maxLength ==> |r| == if maxLength >= 3 then maxLength else 3
  {
    if |s| > maxLength then Substring(s, 0, maxLength - 3) + "..." else s
  }

  /** Truncating twice with the same limit is truncating once. */
  lemma TruncateIdempotent(s: string, maxLength: int)
    ensures Truncated(Truncated(s, maxLength), maxLength) == Truncated(s, maxLength)
  {
    if |s| > maxLength && maxLength < 3 {
      assert Truncated(s, maxLength) == "...";
    }
  }

  // ---------------------------------------------------------------------
  // sanitizeHTML

  /** `s.replace(/c/g, rep)`: every occurrence of `c` replaced by `rep`. */
  function ReplaceAll(s: string, c: char, rep: string): (r: string)
    ensures c !in s ==> r == s
  {
    if |s| == 0 then ""
    else (if s[0] == c then rep else [s[0]]) + ReplaceAll(s[1..], c, rep)
  }

  lemma {:induction false} ReplaceAllConcat(a: string, b: string, c: char, rep: string)
    ensures ReplaceAll(a + b, c, rep) == ReplaceAll(a, c, rep) + ReplaceAll(b, c, rep)
    decreases |a|
  {
    if |a| > 0 {
      assert (a + b)[1..] == a[1..] + b;
      ReplaceAllConcat(a[1..], b, c, rep);
    } else {
      assert a + b == b;
    }
  }

  /** The two passes of `sanitizeHTML`: `<` to `&lt;`, then `>` to `&gt;`. */
  function Sanitized(s: string): string {
    ReplaceAll(ReplaceAll(s, '<', "&lt;"), '>', "&gt;")
  }

  /** The HTML escape of a single character. */
  function Escape(c: char): string {
    if c == '<' then "&lt;" else if c == '>' then "&gt;" else [c]
  }

  /** Reference definition: every character escaped on its own, in order. */
  function EscapeEach(s: string): string {
    if |s| == 0 then "" else Escape(s[0]) + EscapeEach(s[1..])
  }

  /** The two global replacements escape each character independently. */
  lemma {:induction false} SanitizedIsEscapeEach(s: string)
    ensures Sanitized(s) == EscapeEach(s)
    decreases |s|
  {
    if |s| > 0 {
      var head := if s[0] == '<' then "&lt;" else [s[0]];
      assert ReplaceAll(s, '<', "&lt;") == head + ReplaceAll(s[1..], '<', "&lt;");
      ReplaceAllConcat(head, ReplaceAll(s[1..], '<', "&lt;"), '>', "&gt;");
      assert ReplaceAll(head, '>', "&gt;") == Escape(s[0]) by {
        if s[0] != '<' {
          assert head[1..] == [];
        }
      }
      SanitizedIsEscapeEach(s[1..]);
    }
  }

  lemma {:induction false} EscapeEachSafe(s: string)
    ensures '<' !in EscapeEach(s) && '>' !in EscapeEach(s)
    ensures ('<' !in s && '>' !in s) ==> EscapeEach(s) == s
    decreases |s|
  {
    if |s| > 0 {
      EscapeEachSafe(s[1..]);
      if '<' !in s && '>' !in s {
        assert s == [s[0]] + s[1..];
      }
    }
  }

  /** Sanitized text contains no angle bracket, and sanitizing changes a text
      exactly when it contains one. */
  lemma SanitizeSafe(s: string)
    ensures '<' !in Sanitized(s) && '>' !in Sanitized(s)
    ensures Sanitized(s) == s <==> ('<' !in s && '>' !in s)
  {
    SanitizedIsEscapeEach(s);
    EscapeEachSafe(s);
  }

  /** Sanitizing twice is sanitizing once. */
  lemma SanitizeIdempotent(s: string)
    ensures Sanitized(Sanitized(s)) == Sanitized(s)
  {
    SanitizeSafe(s);
    SanitizeSafe(Sanitized(s));
  }

  /** Sanitizing works piecewise: it commutes with concatenation. */
  lemma SanitizeConcat(a: string, b: string)
    ensures Sanitized(a + b) == Sanitized(a) + Sanitized(b)
  {
    ReplaceAllConcat(a, b, '<', "&lt;");
    ReplaceAllConcat(ReplaceAll(a, '<', "&lt;"), ReplaceAll(b, '<', "&lt;"), '>', "&gt;");
  }

  // ---------------------------------------------------------------------
  // capitalizeWords

  /** Where `\b\w` matches: a word character with no word character before it. */
  predicate IsWordStart(s: string, i: int) {
    0 <= i < |s| && IsWordChar(s[i]) && (i == 0 || !IsWordChar(s[i - 1]))
  }

  /** `replace(/\b\w/g, c => c.toUpperCase())` over `s`, where `afterWord`
      says whether the character before `s` is a word character. */
  function CapitalizeFrom(s: string, afterWord: bool): string {
    if |s| == 0 then ""
    else [if IsWordChar(s[0]) && !afterWord then ToUpper(s[0]) else s[0]]
         + CapitalizeFrom(s[1..], IsWordChar(s[0]))
  }

  function Capitalized(s: string): string {
    CapitalizeFrom(s, false)
  }

  /** The character at `i` of `CapitalizeFrom(s, afterWord)`. */
  function CapitalizedChar(s: string, afterWord: bool, i: nat): char
    requires i < |s|
  {
    if IsWordChar(s[i]) && !(if i == 0 then afterWord else IsWordChar(s[i - 1]))
    then ToUpper(s[i]) else s[i]
  }

  lemma {:induction false} CapitalizeFromAt(s: string, afterWord: bool)
    ensures |CapitalizeFrom(s, afterWord)| == |s|
    ensures forall i :: 0 <= i < |s| ==> CapitalizeFrom(s, afterWord)[i] == CapitalizedChar(s, afterWord, i)
    decreases |s|
  {
    if |s| > 0 {
      var rest := CapitalizeFrom(s[1..], IsWordChar(s[0]));
      CapitalizeFromAt(s[1..], IsWordChar(s[0]));
      forall i | 0 <= i < |s|
        ensures CapitalizeFrom(s, afterWord)[i] == CapitalizedChar(s, afterWord, i)
      {
        if i > 0 {
          assert CapitalizeFrom(s, afterWord)[i] == rest[i - 1];
          assert CapitalizedChar(s, afterWord, i) == CapitalizedChar(s[1..], IsWordChar(s[0]), i - 1);
        }
      }
    }
  }

  /** `capitalizeWords` keeps the length and upper-cases exactly the
      characters that start a word; every other character is kept. */
  lemma CapitalizedAt(s: string)
    ensures |Capitalized(s)| == |s|
    ensures forall i :: 0 <= i < |s| ==>
      Capitalized(s)[i] == if IsWordStart(s, i) then ToUpper(s[i]) else s[i]
  {
    CapitalizeFromAt(s, false);
    forall i | 0 <= i < |s|
      ensures Capitalized(s)[i] == if IsWordStart(s, i) then ToUpper(s[i]) else s[i]
    {
      assert Capitalized(s)[i] == CapitalizedChar(s, false, i);
    }
  }

  /** Capitalizing twice is capitalizing once. */
  lemma CapitalizeIdempotent(s: string)
    ensures Capitalized(Capitalized(s)) == Capitalized(s)
  {
    var c := Capitalized(s);
    CapitalizedAt(s);
    CapitalizedAt(c);
    forall i | 0 <= i < |s| ensures Capitalized(c)[i] == c[i] {
      assert IsWordChar(c[i]) == IsWordChar(s[i]);
      assert i > 0 ==> IsWordChar(c[i - 1]) == IsWordChar(s[i - 1]);
    }
  }

  /** The documented example of `capitalizeWords`. */
  lemma CapitalizeExample()
    ensures Capitalized("hello world") == "Hello World"
  {
    var s := "hello world";
    CapitalizedAt(s);
    assert forall i :: 0 <= i < |s| ==> Capitalized(s)[i] == "Hello World"[i];
  }

  // ---------------------------------------------------------------------
  // normalizeWhitespace

  /** Every white-space character is a plain space and no two are adjacent. */
  predicate SingleSpaced(s: string) {
    (forall k :: 0 <= k < |s| && IsSpace(s[k]) ==> s[k] == ' ')
    && (forall k :: 0 <= k < |s| - 1 ==> !(IsSpace(s[k]) && IsSpace(s[k + 1])))
  }

  /** `replace(/\s+/g, " ")`: each maximal run of white space becomes one space. */
  function CollapseSpaces(s: string): (r: string)
    ensures |r| == 0 <==> |s| == 0
    ensures |s| > 0 ==> (IsSpace(r[0]) <==> IsSpace(s[0]))
    ensures SingleSpaced(r)
    decreases |s|
  {
    if |s| == 0 then ""
    else if IsSpace(s[0]) then " " + CollapseSpaces(s[SpanLen(s, true)..])
    else [s[0]] + CollapseSpaces(s[1..])
  }

  /** What `normalizeWhitespace` makes of `s`: collapsed, then trimmed. */
  function Normalized(s: string): (r: string)
    ensures SingleSpaced(r)
    ensures |r| > 0 ==> !IsSpace(r[0]) && !IsSpace(r[|r| - 1])
  {
    var c := CollapseSpaces(s);
    var r := Trim(c);
    SingleSpacedSlice(c, SpanLen(c, true), SpanLen(c, true) + |r|);
    r
  }

  lemma SingleSpacedSlice(s: string, i: nat, j: nat)
    requires SingleSpaced(s) && i <= j <= |s|
    ensures SingleSpaced(s[i..j])
  {
    assert forall k :: 0 <= k < j - i ==> s[i..j][k] == s[i + k];
  }

  lemma {:induction false} CollapseNoop(s: string)
    requires SingleSpaced(s)
    ensures CollapseSpaces(s) == s
    decreases |s|
  {
    if |s| > 0 {
      assert SingleSpaced(s[1..]);
      CollapseNoop(s[1..]);
      if IsSpace(s[0]) {
        assert SpanLen(s, true) == 1 by {
          assert |s| > 1 ==> !IsSpace(s[1]);
        }
      }
    }
  }

  /** Normalizing twice is normalizing once. */
  lemma NormalizeIdempotent(s: string)
    ensures Normalized(Normalized(s)) == Normalized(s)
  {
    var n := Normalized(s);
    CollapseNoop(n);
    TrimNoop(n);
  }

  /** The non-white-space characters of `s`, in order. */
  function NonSpaces(s: string): string {
    if |s| == 0 then "" else (if IsSpace(s[0]) then "" else [s[0]]) + NonSpaces(s[1..])
  }

  lemma {:induction false} NonSpacesConcat(a: string, b: string)
    ensures NonSpaces(a + b) == NonSpaces(a) + NonSpaces(b)
    decreases |a|
  {
    if |a| > 0 {
      assert (a + b)[1..] == a[1..] + b;
      NonSpacesConcat(a[1..], b);
    } else {
      assert a + b == b;
    }
  }

  lemma {:induction false} NonSpacesAllSpace(a: string)
    requires AllSpace(a)
    ensures NonSpaces(a) == ""
    decreases |a|
  {
    if |a| > 0 {
      NonSpacesAllSpace(a[1..]);
    }
  }

  lemma {:induction false} CollapseKeepsNonSpaces(s: string)
    ensures NonSpaces(CollapseSpaces(s)) == NonSpaces(s)
    decreases |s|
  {
    if |s| > 0 {
      if IsSpace(s[0]) {
        var j := SpanLen(s, true);
        CollapseKeepsNonSpaces(s[j..]);
        NonSpacesConcat(" ", CollapseSpaces(s[j..]));
        assert s == s[..j] + s[j..];
        NonSpacesConcat(s[..j], s[j..]);
        NonSpacesAllSpace(s[..j]);
      } else {
        CollapseKeepsNonSpaces(s[1..]);
        NonSpacesConcat([s[0]], CollapseSpaces(s[1..]));
      }
    }
  }

  lemma TrimKeepsNonSpaces(s: string)
    ensures NonSpaces(Trim(s)) == NonSpaces(s)
  {
    var r := Trim(s);
    var i := SpanLen(s, true);
    assert s == s[..i] + r + s[i + |r|..];
    NonSpacesConcat(s[..i] + r, s[i + |r|..]);
    NonSpacesConcat(s[..i], r);
    NonSpacesAllSpace(s[..i]);
    NonSpacesAllSpace(s[i + |r|..]);
  }

  /** Normalizing touches nothing but white space: the other characters come
      out unchanged and in order. */
  lemma NormalizeKeepsNonSpaces(s: string)
    ensures NonSpaces(Normalized(s)) == NonSpaces(s)
  {
    CollapseKeepsNonSpaces(s);
    TrimKeepsNonSpaces(CollapseSpaces(s));
  }

  /** The white space at the end of `z`, collapsed. */
  function Tail(z: string): string {
    if |z| == 0 then "" else " "
  }

  lemma {:induction false} CollapseWordPrefix(a: string, b: string)
    requires NoSpace(a)
    ensures CollapseSpaces(a + b) == a + CollapseSpaces(b)
    decreases |a|
  {
    if |a| > 0 {
      assert (a + b)[1..] == a[1..] + b;
      CollapseWordPrefix(a[1..], b);
    } else {
      assert a + b == b;
    }
  }

  lemma CollapseSpacePrefix(a: string, b: string)
    requires |a| > 0 && AllSpace(a) && (|b| == 0 || !IsSpace(b[0]))
    ensures CollapseSpaces(a + b) == " " + CollapseSpaces(b)
  {
    SpanOfSpaces(a, b);
    assert (a + b)[|a|..] == b;
  }

  /** A run of white space in front of a text that does not start with white
      space collapses to one space. */
  lemma CollapseLead(a: string, b: string)
    requires AllSpace(a) && (|b| == 0 || !IsSpace(b[0]))
    ensures CollapseSpaces(a + b) == Tail(a) + CollapseSpaces(b)
  {
    if |a| > 0 {
      CollapseSpacePrefix(a, b);
    } else {
      assert a + b == b;
    }
  }

  lemma CollapseAllSpace(z: string)
    requires AllSpace(z)
    ensures CollapseSpaces(z) == Tail(z)
  {
    CollapseLead(z, "");
    assert z + "" == z;
  }

  lemma CollapseStep(w: string, sp: string, rest: string, z: string)
    requires NoSpace(w) && |sp| > 0 && AllSpace(sp) && |rest| > 0 && !IsSpace(rest[0])
    ensures CollapseSpaces(w + sp + rest + z) == w + " " + CollapseSpaces(rest + z)
  {
    var b := rest + z;
    assert w + sp + rest + z == w + (sp + b);
    CollapseWordPrefix(w, sp + b);
    assert b[0] == rest[0];
    CollapseSpacePrefix(sp, b);
    calc {
      CollapseSpaces(w + sp + rest + z);
      CollapseSpaces(w + (sp + b));
      w + CollapseSpaces(sp + b);
      w + (" " + CollapseSpaces(b));
      w + " " + CollapseSpaces(b);
    }
  }

  /** The first word, the white space after it and the rest of a text. */
  lemma SplitPieces(t: string, i: nat, j: nat)
    requires i == SpanLen(t, false) < |t| && j == i + SpanLen(t[i..], true) && j < |t|
    ensures t == t[..i] + t[i..j] + t[j..]
    ensures NoSpace(t[..i]) && i < j && AllSpace(t[i..j]) && !IsSpace(t[j])
  {
    SpanPrefix(t, false);
    SpanSpaces(t, i, j);
    ThreeParts(t, i, j);
  }

  lemma SpanSpaces(t: string, i: nat, j: nat)
    requires i < |t| && IsSpace(t[i]) && j == i + SpanLen(t[i..], true) && j < |t|
    ensures i < j && AllSpace(t[i..j]) && !IsSpace(t[j])
  {
    var u := t[i..];
    assert u[0] == t[i];
    forall k | 0 <= k < j - i ensures IsSpace(t[i..j][k]) {
      assert t[i..j][k] == u[k];
    }
    assert u[j - i] == t[j];
  }

  /** Gluing a word, a space, the rest and a tail, seen two ways. */
  lemma WordThenRest(w: string, q: string, e: string)
    requires |w| > 0 && !IsSpace(w[0]) && |q| > 0 && !IsSpace(q[|q| - 1])
    ensures w + " " + (q + e) == w + " " + q + e
    ensures var r := w + " " + q; |r| > 0 && !IsSpace(r[0]) && !IsSpace(r[|r| - 1])
  {
    var r := w + " " + q;
    assert r[0] == w[0];
    assert r[|r| - 1] == q[|q| - 1];
  }

  lemma {:induction false} CollapseTrimmed(t: string, z: string)
    requires |t| > 0 && !IsSpace(t[0]) && !IsSpace(t[|t| - 1]) && AllSpace(z)
    ensures CollapseSpaces(t + z) == Join(SplitOnSpaces(t), " ") + Tail(z)
    ensures var j := Join(SplitOnSpaces(t), " "); |j| > 0 && !IsSpace(j[0]) && !IsSpace(j[|j| - 1])
    decreases |t|
  {
    var i := SpanLen(t, false);
    if i == |t| {
      CollapseOneWord(t, z);
    } else {
      var j := i + SpanLen(t[i..], true);
      var w, sp, rest := t[..i], t[i..j], t[j..];
      SplitPieces(t, i, j);
      assert SplitOnSpaces(t) == [w] + SplitOnSpaces(rest);
      assert w[0] == t[0];
      assert rest[0] == t[j] && rest[|rest| - 1] == t[|t| - 1];
      CollapseTrimmed(rest, z);
      CollapseTrimmedStep(t, z, w, sp, rest);
    }
  }

  /** A single word followed by white space. */
  lemma CollapseOneWord(t: string, z: string)
    requires |t| > 0 && SpanLen(t, false) == |t| && AllSpace(z)
    ensures CollapseSpaces(t + z) == Join(SplitOnSpaces(t), " ") + Tail(z)
  {
    assert SplitOnSpaces(t) == [t];
    SpanPrefix(t, false);
    assert t[..|t|] == t;
    CollapseWordPrefix(t, z);
    CollapseAllSpace(z);
  }

  lemma CollapseTrimmedStep(t: string, z: string, w: string, sp: string, rest: string)
    requires t == w + sp + rest && AllSpace(z)
    requires |w| > 0 && NoSpace(w) && |sp| > 0 && AllSpace(sp) && |rest| > 0 && !IsSpace(rest[0])
    requires SplitOnSpaces(t) == [w] + SplitOnSpaces(rest)
    requires CollapseSpaces(rest + z) == Join(SplitOnSpaces(rest), " ") + Tail(z)
    requires var q := Join(SplitOnSpaces(rest), " "); |q| > 0 && !IsSpace(q[0]) && !IsSpace(q[|q| - 1])
    ensures CollapseSpaces(t + z) == Join(SplitOnSpaces(t), " ") + Tail(z)
    ensures var q := Join(SplitOnSpaces(t), " "); |q| > 0 && !IsSpace(q[0]) && !IsSpace(q[|q| - 1])
  {
    var p := SplitOnSpaces(rest);
    JoinCons(w, p, " ");
    CollapseStep(w, sp, rest, z);
    WordThenRest(w, Join(p, " "), Tail(z));
  }

  /** `normalizeWhitespace` joins the words of `trim().split(/\s+/)` with
      single spaces. */
  lemma NormalizeJoinsWords(s: string)
    ensures Normalized(s) == Join(SplitOnSpaces(Trim(s)), " ")
  {
    var t := Trim(s);
    var i := SpanLen(s, true);
    var a, z := s[..i], s[i + |t|..];
    ThreeParts(s, i, i + |t|);
    SpanPrefix(s, true);
    if |t| == 0 {
      assert SplitOnSpaces(t) == [t];
      CollapseAllSpace(s);
    } else {
      NormalizeAround(s, a, t, z);
    }
  }

  lemma NormalizeAround(s: string, a: string, t: string, z: string)
    requires s == a + t + z && AllSpace(a) && AllSpace(z)
    requires |t| > 0 && !IsSpace(t[0]) && !IsSpace(t[|t| - 1])
    ensures Normalized(s) == Join(SplitOnSpaces(t), " ")
  {
    var q := Join(SplitOnSpaces(t), " ");
    CollapseTrimmed(t, z);
    CollapseAround(s, a, t, z, q);
    TailSpace(a);
    TailSpace(z);
    TrimAround(Tail(a), q, Tail(z));
  }

  lemma CollapseAround(s: string, a: string, t: string, z: string, q: string)
    requires s == a + t + z && AllSpace(a) && |t| > 0 && !IsSpace(t[0])
    requires CollapseSpaces(t + z) == q + Tail(z)
    ensures CollapseSpaces(s) == Tail(a) + (q + Tail(z))
  {
    assert s == a + (t + z);
    CollapseLead(a, t + z);
  }

  lemma TailSpace(z: string)
    ensures AllSpace(Tail(z))
  {
  }

  // ---------------------------------------------------------------------
  // wordCount

  /** `t.split(/\s+/)`: the pieces between maximal runs of white space. */
  function SplitOnSpaces(t: string): (pieces: seq<string>)
    ensures |pieces| > 0
    decreases |t|
  {
    var i := SpanLen(t, false);
    if i == |t| then [t]
    else [t[..i]] + SplitOnSpaces(t[i + SpanLen(t[i..], true)..])
  }

  /** What `wordCount` returns for a text: the number of pieces of the
      trimmed text split on white space. */
  function WordCountOf(s: string): nat {
    |SplitOnSpaces(Trim(s))|
  }

  /** Reference definition: the number of maximal runs of non-white-space
      characters in `s`, where `afterSpace` says whether `s` is preceded by
      white space (or by nothing). */
  function Runs(s: string, afterSpace: bool): nat {
    if |s| == 0 then 0
    else (if afterSpace && !IsSpace(s[0]) then 1 else 0) + Runs(s[1..], IsSpace(s[0]))
  }

  function Words(s: string): nat {
    Runs(s, true)
  }

  lemma {:induction false} RunsConcat(x: string, y: string, p: bool)
    ensures Runs(x + y, p) == Runs(x, p) + Runs(y, if |x| == 0 then p else IsSpace(x[|x| - 1]))
    decreases |x|
  {
    if |x| > 0 {
      assert (x + y)[1..] == x[1..] + y;
      RunsConcat(x[1..], y, IsSpace(x[0]));
    } else {
      assert x + y == y;
    }
  }

  lemma {:induction false} RunsAllSpace(x: string, p: bool)
    requires AllSpace(x)
    ensures Runs(x, p) == 0
    decreases |x|
  {
    if |x| > 0 {
      RunsAllSpace(x[1..], true);
    }
  }

  lemma {:induction false} RunsNoSpace(x: string, p: bool)
    requires NoSpace(x) && |x| > 0
    ensures Runs(x, p) == if p then 1 else 0
    decreases |x|
  {
    if |x| > 1 {
      RunsNoSpace(x[1..], false);
    }
  }

  /** On a text with no white space at either end, splitting on white space
      yields one piece per maximal non-white-space run. */
  lemma {:induction false} SplitCountsRuns(t: string)
    requires |t| > 0 && !IsSpace(t[0]) && !IsSpace(t[|t| - 1])
    ensures |SplitOnSpaces(t)| == Runs(t, true)
    decreases |t|
  {
    var i := SpanLen(t, false);
    if i == |t| {
      assert t[..i] == t;
      RunsNoSpace(t, true);
    } else {
      var j := i + SpanLen(t[i..], true);
      assert j < |t|;
      var a, b, c := t[..i], t[i..j], t[j..];
      SplitPieces(t, i, j);
      assert c[0] == t[j] && c[|c| - 1] == t[|t| - 1];
      assert SplitOnSpaces(t) == [a] + SplitOnSpaces(c);
      RunsWordThenSpace(a, b, c);
      SplitCountsRuns(c);
    }
  }

  /** A word and the white space after it add one run. */
  lemma RunsWordThenSpace(a: string, b: string, c: string)
    requires |a| > 0 && NoSpace(a) && |b| > 0 && AllSpace(b)
    ensures Runs(a + b + c, true) == 1 + Runs(c, true)
  {
    RunsConcat(a, b, true);
    RunsNoSpace(a, true);
    RunsAllSpace(b, false);
    assert (a + b)[|a + b| - 1] == b[|b| - 1];
    RunsConcat(a + b, c, true);
  }

  /** The runs of a text are the runs of its trimmed form. */
  lemma TrimKeepsRuns(s: string)
    ensures Runs(Trim(s), true) == Runs(s, true)
  {
    var r := Trim(s);
    var i := SpanLen(s, true);
    var a, z := s[..i], s[i + |r|..];
    ThreeParts(s, i, i + |r|);
    SpanPrefix(s, true);
    RunsBeforeSpaces(a + r, z, true);
    RunsAfterSpaces(a, r);
  }

  /** White space in front of a text adds no run. */
  lemma RunsAfterSpaces(a: string, r: string)
    requires AllSpace(a)
    ensures Runs(a + r, true) == Runs(r, true)
  {
    RunsConcat(a, r, true);
    RunsAllSpace(a, true);
    if |a| > 0 {
      assert IsSpace(a[|a| - 1]);
    }
  }

  /** White space after a text adds no run. */
  lemma RunsBeforeSpaces(x: string, z: string, p: bool)
    requires AllSpace(z)
    ensures Runs(x + z, p) == Runs(x, p)
  {
    RunsConcat(x, z, p);
    RunsAllSpace(z, if |x| == 0 then p else IsSpace(x[|x| - 1]));
  }

  /** `wordCount` is never 0: it is 1 for a text of white space only, and the
      number of maximal non-white-space runs otherwise. */
  lemma WordCountSpec(s: string)
    ensures WordCountOf(s) >= 1
    ensures AllSpace(s) ==> WordCountOf(s) == 1
    ensures !AllSpace(s) ==> WordCountOf(s) == Words(s)
  {
    var t := Trim(s);
    if !AllSpace(s) {
      SplitCountsRuns(t);
      TrimKeepsRuns(s);
    } else {
      assert t == [];
    }
  }

  // ---------------------------------------------------------------------
  // isValidEmail: /^[^\s@]+@[^\s@]+\.[^\s@]+$/

  /** The class `[^\s@]`. */
  predicate IsEmailChar(c: char) {
    !IsSpace(c) && c != '@'
  }

  predicate AllEmailChars(s: string) {
    forall k :: 0 <= k < |s| ==> IsEmailChar(s[k])
  }

  /** Length of the longest prefix of `s` in the class `[^\s@]`. */
  function EmailSpan(s: string): (n: nat)
    ensures n <= |s|
    ensures AllEmailChars(s[..n])
    ensures n < |s| ==> !IsEmailChar(s[n])
  {
    if |s| == 0 || !IsEmailChar(s[0]) then 0 else 1 + EmailSpan(s[1..])
  }

  /** The part of the pattern after `@`: `[^\s@]+\.[^\s@]+` matched against
      the whole rest, that is `[^\s@]` characters holding a `.` neither first
      nor last. */
  predicate IsDomain(d: string) {
    |d| >= 3 && AllEmailChars(d) && '.' in d[1..|d| - 1]
  }

  /** `isValidEmail`: the local part is the longest leading run of `[^\s@]`
      (non-empty), then `@`, then a domain. */
  function IsValidEmail(s: string): bool {
    var k := EmailSpan(s);
    0 < k < |s| && s[k] == '@' && IsDomain(s[k + 1..])
  }

  /** `s` splits as local `@` left `.` right with the `@` at `i`, the `.` at
      `j` and three non-empty parts in `[^\s@]`: the language of the pattern. */
  predicate EmailSplitAt(s: string, i: int, j: int) {
    0 < i && i + 1 < j && j + 1 < |s| && s[i] == '@' && s[j] == '.'
    && AllEmailChars(s[..i]) && AllEmailChars(s[i + 1..j]) && AllEmailChars(s[j + 1..])
  }

  /** Every character after an `@` at `i` split as the pattern says is in `[^\s@]`. */
  lemma AfterAtEmailChars(s: string, i: int, j: int)
    requires EmailSplitAt(s, i, j)
    ensures AllEmailChars(s[i + 1..])
  {
    forall x | i + 1 <= x < |s| ensures IsEmailChar(s[x]) {
      if x < j {
        assert s[x] == s[i + 1..j][x - i - 1];
      } else if x > j {
        assert s[x] == s[j + 1..][x - j - 1];
      }
    }
  }

  /** The scan accepts exactly the strings the pattern matches. */
  lemma IsValidEmailIff(s: string)
    ensures IsValidEmail(s) <==> exists i, j :: EmailSplitAt(s, i, j)
  {
    if IsValidEmail(s) {
      var j := ValidEmailSplits(s);
    }
    if exists i, j :: EmailSplitAt(s, i, j) {
      var i, j :| EmailSplitAt(s, i, j);
      SplitEmailValid(s, i, j);
    }
  }

  /** An accepted address splits as the pattern says, with the `@` where the
      scan stopped. */
  lemma ValidEmailSplits(s: string) returns (j: int)
    requires IsValidEmail(s)
    ensures EmailSplitAt(s, EmailSpan(s), j)
  {
    var k := EmailSpan(s);
    var d := s[k + 1..];
    var m := IndexOf(d[1..|d| - 1], '.');
    j := k + 2 + m;
    assert d[1 + m] == '.';
    assert s[j] == '.';
    assert forall x :: k + 1 <= x < |s| ==> s[x] == d[x - k - 1];
    AllEmailCharsSlice(s, k + 1, j);
    AllEmailCharsSlice(s, j + 1, |s|);
    assert s[j + 1..] == s[j + 1..|s|];
  }

  /** A string that splits as the pattern says is accepted. */
  lemma SplitEmailValid(s: string, i: int, j: int)
    requires EmailSplitAt(s, i, j)
    ensures IsValidEmail(s)
  {
    EmailSpanStopsAt(s, i);
    AfterAtEmailChars(s, i, j);
    var d := s[i + 1..];
    assert d[1..|d| - 1][j - i - 2] == '.';
  }

  lemma {:induction false} EmailSpanStopsAt(s: string, i: nat)
    requires i < |s| && AllEmailChars(s[..i]) && !IsEmailChar(s[i])
    ensures EmailSpan(s) == i
  {
    if i > 0 {
      assert s[1..][..i - 1] == s[1..i];
      EmailSpanStopsAt(s[1..], i - 1);
    }
  }

  lemma AllEmailCharsSlice(s: string, a: nat, b: nat)
    requires a <= b <= |s|
    requires forall x :: a <= x < b ==> IsEmailChar(s[x])
    ensures AllEmailChars(s[a..b])
  {
  }

  lemma NoAtCount(s: string)
    requires AllEmailChars(s)
    ensures Count(s, '@') == 0
  {
  }

  /** A valid address has no white space and exactly one `@`. */
  lemma ValidEmailShape(s: string)
    requires IsValidEmail(s)
    ensures NoSpace(s)
    ensures Count(s, '@') == 1
  {
    IsValidEmailIff(s);
    var i, j :| EmailSplitAt(s, i, j);
    var a, b := s[..i], s[i + 1..];
    AfterAtEmailChars(s, i, j);
    assert s == a + (['@'] + b);
    forall x | 0 <= x < |s| ensures !IsSpace(s[x]) {
      if x < i { assert s[x] == a[x]; } else if x > i { assert s[x] == b[x - i - 1]; }
    }
    CountConcat(a, ['@'] + b, '@');
    CountConcat(['@'], b, '@');
    NoAtCount(a);
    NoAtCount(b);
  }

  lemma {:induction false} CountConcat(a: string, b: string, c: char)
    ensures Count(a + b, c) == Count(a, c) + Count(b, c)
    decreases |a|
  {
    if |a| > 0 {
      assert (a + b)[1..] == a[1..] + b;
      CountConcat(a[1..], b, c);
    } else {
      assert a + b == b;
    }
  }

  // ---------------------------------------------------------------------
  // extractHashtags and extractMentions: /#[a-zA-Z0-9_]+/g and /@[a-zA-Z0-9_]+/g

  /** Length of the longest prefix of `s` made of `\w` characters. */
  function WordSpan(s: string): (n: nat)
    ensures n <= |s|
    ensures forall k :: 0 <= k < n ==> IsWordChar(s[k])
    ensures n < |s| ==> !IsWordChar(s[n])
  {
    if |s| == 0 || !IsWordChar(s[0]) then 0 else 1 + WordSpan(s[1..])
  }

  /** A match of `sigil` followed by one or more word characters starts at `i`. */
  predicate IsTokenStart(s: string, sigil: char, i: int) {
    0 <= i && i + 1 < |s| && s[i] == sigil && IsWordChar(s[i + 1])
  }

  predicate AllWordChars(s: string) {
    forall k :: 0 <= k < |s| ==> IsWordChar(s[k])
  }

  /** The greedy match starting at `i`: the sigil and every word character
      after it. */
  function Token(s: string, sigil: char, i: int): (t: string)
    requires IsTokenStart(s, sigil, i)
    ensures 2 <= |t| && i + |t| <= |s|
  {
    s[i..i + 1 + WordSpan(s[i + 1..])]
  }

  /** A token is the text at its position, the sigil followed by word
      characters only, and the character after it (if any) is no word
      character: the match is greedy. */
  lemma TokenShape(s: string, sigil: char, i: int)
    requires IsTokenStart(s, sigil, i)
    ensures Token(s, sigil, i) == s[i..i + |Token(s, sigil, i)|]
    ensures Token(s, sigil, i)[0] == sigil && AllWordChars(Token(s, sigil, i)[1..])
    ensures i + |Token(s, sigil, i)| == |s| || !IsWordChar(s[i + |Token(s, sigil, i)|])
  {
    var n := WordSpan(s[i + 1..]);
    assert s[i..i + 1 + n][1..] == s[i + 1..][..n];
  }

  /** The scan of `text.match(/sigil\w+/g)` from position `i`: at a token
      start take the token and resume after it, otherwise move on by one. */
  function ExtractFrom(s: string, sigil: char, i: nat): seq<string>
    decreases |s| - i
  {
    if i >= |s| then []
    else if IsTokenStart(s, sigil, i) then [Token(s, sigil, i)] + ExtractFrom(s, sigil, i + |Token(s, sigil, i)|)
    else ExtractFrom(s, sigil, i + 1)
  }

  /** `extractHashtags`: the matches, or `[]` when there is none. */
  function ExtractHashtags(s: string): seq<string> {
    ExtractFrom(s, '#', 0)
  }

  /** `extractMentions`: the matches, or `[]` when there is none. */
  function ExtractMentions(s: string): seq<string> {
    ExtractFrom(s, '@', 0)
  }

  /** Every position in `r` is a token start. */
  predicate AllStarts(s: string, sigil: char, r: seq<nat>) {
    forall k :: 0 <= k < |r| ==> IsTokenStart(s, sigil, r[k])
  }

  /** The positions in `r` strictly increase from at least `i`. */
  predicate IncreasingFrom(r: seq<nat>, i: nat) {
    (forall k :: 0 <= k < |r| ==> i <= r[k])
    && (forall k :: 0 <= k < |r| - 1 ==> r[k] < r[k + 1])
  }

  /** Reference definition: every token start at or after `i`, in increasing order. */
  function StartsFrom(s: string, sigil: char, i: nat): (r: seq<nat>)
    ensures AllStarts(s, sigil, r)
    ensures IncreasingFrom(r, i)
    decreases |s| - i
  {
    if i >= |s| then []
    else if IsTokenStart(s, sigil, i) then
      var rest := StartsFrom(s, sigil, i + 1);
      var r := [i] + rest;
      assert forall k :: 0 < k < |r| ==> r[k] == rest[k - 1];
      r
    else StartsFrom(s, sigil, i + 1)
  }

  /** No token start at or after `i` is missing from `StartsFrom(s, sigil, i)`. */
  lemma {:induction false} StartsComplete(s: string, sigil: char, i: nat, j: nat)
    requires i <= j && IsTokenStart(s, sigil, j)
    ensures j in StartsFrom(s, sigil, i)
    decreases j - i
  {
    if i < j {
      StartsComplete(s, sigil, i + 1, j);
    }
  }

  /** The tokens at the given start positions. */
  function TokensAt(s: string, sigil: char, starts: seq<nat>): (r: seq<string>)
    requires AllStarts(s, sigil, starts)
    ensures |r| == |starts|
  {
    if |starts| == 0 then [] else [Token(s, sigil, starts[0])] + TokensAt(s, sigil, starts[1..])
  }

  lemma {:induction false} TokensAtIndex(s: string, sigil: char, starts: seq<nat>, k: nat)
    requires AllStarts(s, sigil, starts) && k < |starts|
    ensures TokensAt(s, sigil, starts)[k] == Token(s, sigil, starts[k])
  {
    if k > 0 {
      TokensAtIndex(s, sigil, starts[1..], k - 1);
    }
  }

  lemma {:induction false} NoStartsBetween(s: string, sigil: char, a: nat, b: nat)
    requires a <= b
    requires forall j :: a <= j < b ==> !IsTokenStart(s, sigil, j)
    ensures StartsFrom(s, sigil, a) == StartsFrom(s, sigil, b)
    decreases b - a
  {
    if a < b {
      NoStartsBetween(s, sigil, a + 1, b);
    }
  }

  /** As the sigil is no word character, no token start lies inside another token. */
  lemma NoStartInsideToken(s: string, sigil: char, i: nat)
    requires !IsWordChar(sigil) && IsTokenStart(s, sigil, i)
    ensures forall j :: i + 1 <= j < i + |Token(s, sigil, i)| ==> !IsTokenStart(s, sigil, j)
  {
    var t := Token(s, sigil, i);
    TokenShape(s, sigil, i);
    forall j | i + 1 <= j < i + |t| ensures s[j] != sigil {
      assert s[j] == t[1..][j - i - 1];
    }
  }

  /** At a token start, the list of starts skips the token. */
  lemma StepOverToken(s: string, sigil: char, i: nat)
    requires !IsWordChar(sigil) && IsTokenStart(s, sigil, i)
    ensures StartsFrom(s, sigil, i) == [i] + StartsFrom(s, sigil, i + |Token(s, sigil, i)|)
  {
    var e := i + |Token(s, sigil, i)|;
    NoStartInsideToken(s, sigil, i);
    NoStartsBetween(s, sigil, i + 1, e);
    assert StartsFrom(s, sigil, i + 1) == StartsFrom(s, sigil, e);
    assert StartsFrom(s, sigil, i) == [i] + StartsFrom(s, sigil, i + 1);
  }

  /** Away from a token start, the scan and the list of starts both move on by one. */
  lemma StepOverOther(s: string, sigil: char, i: nat)
    requires i < |s| && !IsTokenStart(s, sigil, i)
    ensures ExtractFrom(s, sigil, i) == ExtractFrom(s, sigil, i + 1)
    ensures StartsFrom(s, sigil, i) == StartsFrom(s, sigil, i + 1)
  {
  }

  lemma TokensAtCons(s: string, sigil: char, i: nat, rest: seq<nat>)
    requires IsTokenStart(s, sigil, i)
    requires AllStarts(s, sigil, rest)
    ensures TokensAt(s, sigil, [i] + rest) == [Token(s, sigil, i)] + TokensAt(s, sigil, rest)
  {
    assert ([i] + rest)[1..] == rest;
  }

  /** Where the scan resumes after position `i`. */
  function Resume(s: string, sigil: char, i: nat): (j: nat)
    requires i < |s|
    ensures i < j <= |s|
  {
    if IsTokenStart(s, sigil, i) then i + |Token(s, sigil, i)| else i + 1
  }

  /** The inductive step: if the claim holds where the scan resumes, it holds at `i`. */
  lemma ExtractStep(s: string, sigil: char, i: nat)
    requires !IsWordChar(sigil) && i < |s|
    requires ExtractFrom(s, sigil, Resume(s, sigil, i)) == TokensAt(s, sigil, StartsFrom(s, sigil, Resume(s, sigil, i)))
    ensures ExtractFrom(s, sigil, i) == TokensAt(s, sigil, StartsFrom(s, sigil, i))
  {
    if IsTokenStart(s, sigil, i) {
      StepOverToken(s, sigil, i);
      TokensAtCons(s, sigil, i, StartsFrom(s, sigil, i + |Token(s, sigil, i)|));
    } else {
      StepOverOther(s, sigil, i);
    }
  }

  /** The scan returns the token at every match start, left to right, and
      nothing else; as the sigil is no word character, no match start lies
      inside another match. */
  lemma {:induction false} ExtractIsTokensAtStarts(s: string, sigil: char, i: nat)
    requires !IsWordChar(sigil)
    ensures ExtractFrom(s, sigil, i) == TokensAt(s, sigil, StartsFrom(s, sigil, i))
    decreases |s| - i
  {
    if i < |s| {
      ExtractIsTokensAtStarts(s, sigil, Resume(s, sigil, i));
      ExtractStep(s, sigil, i);
    }
  }

  /** `extractHashtags` returns `[]` exactly when no `#` is followed by a word
      character, and otherwise one well-formed token per match start. */
  lemma HashtagsSpec(s: string)
    ensures ExtractHashtags(s) == TokensAt(s, '#', StartsFrom(s, '#', 0))
    ensures ExtractHashtags(s) == [] <==> forall j :: !IsTokenStart(s, '#', j)
  {
    ExtractIsTokensAtStarts(s, '#', 0);
    if j :| IsTokenStart(s, '#', j) {
      StartsComplete(s, '#', 0, j);
    }
  }

  /** `extractMentions` returns `[]` exactly when no `@` is followed by a word
      character, and otherwise one well-formed token per match start. */
  lemma MentionsSpec(s: string)
    ensures ExtractMentions(s) == TokensAt(s, '@', StartsFrom(s, '@', 0))
    ensures ExtractMentions(s) == [] <==> forall j :: !IsTokenStart(s, '@', j)
  {
    ExtractIsTokensAtStarts(s, '@', 0);
    if j :| IsTokenStart(s, '@', j) {
      StartsComplete(s, '@', 0, j);
    }
  }

  // ---------------------------------------------------------------------
  // toSlug

  predicate IsSlugChar(c: char) {
    IsLowerAscii(c) || IsDigit(c)
  }

  /** Only characters of `[a-z0-9-]`. */
  predicate SlugAlphabet(s: string) {
    forall k :: 0 <= k < |s| ==> IsSlugChar(s[k]) || s[k] == '-'
  }

  /** No two adjacent dashes. */
  predicate NoDoubleDash(s: string) {
    forall k :: 0 <= k < |s| - 1 ==> !(s[k] == '-' && s[k + 1] == '-')
  }

  /** A slug: only `[a-z0-9-]`, no `--`, no `-` at either end. */
  predicate IsSlug(s: string) {
    SlugAlphabet(s) && NoDoubleDash(s) && (|s| > 0 ==> s[0] != '-' && s[|s| - 1] != '-')
  }

  /** `toLowerCase` (ASCII letters only). */
  function Lowered(s: string): (r: string)
    ensures |r| == |s| && forall k :: 0 <= k < |s| ==> r[k] == ToLower(s[k])
  {
    seq(|s|, k requires 0 <= k < |s| => ToLower(s[k]))
  }

  /** `replace(/[^a-z0-9]/g, "-")`. */
  function Dashed(s: string): (r: string)
    ensures |r| == |s| && forall k :: 0 <= k < |s| ==> r[k] == if IsSlugChar(s[k]) then s[k] else '-'
  {
    seq(|s|, k requires 0 <= k < |s| => if IsSlugChar(s[k]) then s[k] else '-')
  }

  /** `replace(/-+/g, "-")`: each run of dashes becomes one dash, by
      dropping every dash that another dash follows. */
  function CollapseDashes(s: string): (r: string)
    ensures |r| == 0 <==> |s| == 0
    ensures |s| > 0 ==> (r[0] == '-' <==> s[0] == '-')
    decreases |s|
  {
    if |s| == 0 then ""
    else if |s| > 1 && s[0] == '-' && s[1] == '-' then CollapseDashes(s[1..])
    else [s[0]] + CollapseDashes(s[1..])
  }

  /** Collapsing leaves no two dashes in a row and adds no new character. */
  lemma {:induction false} CollapseDashesShape(s: string)
    ensures NoDoubleDash(CollapseDashes(s))
    ensures forall k :: 0 <= k < |CollapseDashes(s)| ==> CollapseDashes(s)[k] in s
    ensures SlugAlphabet(s) ==> SlugAlphabet(CollapseDashes(s))
    decreases |s|
  {
    CollapseDashesKeepsChars(s);
    if |s| > 0 {
      var r := CollapseDashes(s);
      var t := s[1..];
      var rt := CollapseDashes(t);
      CollapseDashesShape(t);
      assert SlugAlphabet(s) ==> SlugAlphabet(t) by {
        if SlugAlphabet(s) {
          forall k | 0 <= k < |t|
            ensures IsSlugChar(t[k]) || t[k] == '-'
          {
            assert t[k] == s[k + 1];
          }
        }
      }
      if !(|s| > 1 && s[0] == '-' && s[1] == '-') {
        assert r == [s[0]] + rt;
        forall k | 0 <= k < |r| - 1
          ensures !(r[k] == '-' && r[k + 1] == '-')
        {
          assert r[k + 1] == rt[k];
          if k > 0 {
            assert r[k] == rt[k - 1];
          }
        }
        if SlugAlphabet(s) {
          forall k | 0 <= k < |r|
            ensures IsSlugChar(r[k]) || r[k] == '-'
          {
            if k > 0 {
              assert r[k] == rt[k - 1];
            }
          }
        }
      }
    }
  }

  /** Every character of the collapsed text is a character of the input. */
  lemma {:induction false} CollapseDashesKeepsChars(s: string)
    ensures forall k :: 0 <= k < |CollapseDashes(s)| ==> CollapseDashes(s)[k] in s
    decreases |s|
  {
    if |s| > 0 {
      var r, t := CollapseDashes(s), s[1..];
      var rt := CollapseDashes(t);
      CollapseDashesKeepsChars(t);
      forall k | 0 <= k < |r|
        ensures r[k] in s
      {
        if |s| > 1 && s[0] == '-' && s[1] == '-' {
          assert r[k] == rt[k];
          assert r[k] in t;
        } else if k == 0 {
          assert r[0] == s[0];
        } else {
          assert r[k] == rt[k - 1];
          assert r[k] in t;
        }
        assert r[k] in t ==> r[k] in s;
      }
    }
  }

  /** `replace(/^-|-$/g, "")`: one leading and one trailing dash removed; on a
      lone `-` the two alternatives see the same character, removed once. */
  function StripDashes(s: string): string {
    DropTrailingDash(DropLeadingDash(s))
  }

  /** The `^-` alternative. */
  function DropLeadingDash(s: string): string {
    if |s| > 0 && s[0] == '-' then s[1..] else s
  }

  /** The `-$` alternative. */
  function DropTrailingDash(s: string): string {
    if |s| > 0 && s[|s| - 1] == '-' then s[..|s| - 1] else s
  }

  /** `toSlug`: lower-case, dash every other character, collapse dashes,
      strip the end dashes. */
  function ToSlug(s: string): string {
    StripDashes(CollapseDashes(Dashed(Lowered(s))))
  }

  /** Every slug has the slug shape. */
  lemma ToSlugIsSlug(s: string)
    ensures IsSlug(ToSlug(s))
  {
    var c := CollapseDashes(Dashed(Lowered(s)));
    CollapseDashesShape(Dashed(Lowered(s)));
    var a := if |c| > 0 && c[0] == '-' then c[1..] else c;
    assert NoDoubleDash(a);
    assert |a| > 0 ==> a[0] != '-' || |a| == 1 by {
      if |c| > 1 && c[0] == '-' { assert c[1] != '-'; }
    }
  }

  /** A string without two dashes in a row is left as it is. */
  lemma {:induction false} CollapseDashesNoop(s: string)
    requires NoDoubleDash(s)
    ensures CollapseDashes(s) == s
    decreases |s|
  {
    if |s| > 0 {
      assert NoDoubleDash(s[1..]) by {
        forall k | 0 <= k < |s[1..]| - 1
          ensures !(s[1..][k] == '-' && s[1..][k + 1] == '-')
        {
          assert s[1..][k] == s[k + 1] && s[1..][k + 1] == s[k + 2];
        }
      }
      CollapseDashesNoop(s[1..]);
      assert |s| > 1 ==> !(s[0] == '-' && s[1] == '-');
    }
  }

  /** `toSlug` leaves a slug unchanged, so applying it twice is applying it once. */
  lemma ToSlugIdempotent(s: string)
    ensures ToSlug(ToSlug(s)) == ToSlug(s)
  {
    var r := ToSlug(s);
    ToSlugIsSlug(s);
    assert Lowered(r) == r;
    assert Dashed(r) == r;
    CollapseDashesNoop(r);
  }

  /** Collapsing distributes over a concatenation that does not join two dashes. */
  lemma {:induction false} CollapseDashesConcat(a: string, b: string)
    requires |a| == 0 || |b| == 0 || a[|a| - 1] != '-' || b[0] != '-'
    ensures CollapseDashes(a + b) == CollapseDashes(a) + CollapseDashes(b)
    decreases |a|
  {
    if |a| == 0 {
      assert a + b == b;
    } else {
      assert (a + b)[1..] == a[1..] + b;
      if |a| == 1 {
        assert a[1..] == [];
        assert !(|a + b| > 1 && (a + b)[0] == '-' && (a + b)[1] == '-');
      } else {
        assert (a + b)[1] == a[1];
        CollapseDashesConcat(a[1..], b);
      }
    }
  }

  lemma DashedExample()
    ensures Dashed(Lowered("Hello World! 2024")) == "hello-world--2024"
  {
    var l := Lowered("Hello World! 2024");
    assert l == "hello world! 2024";
  }

  /** A double dash between two dash-free ends collapses to one. */
  lemma CollapseJoin(a: string, c: string)
    requires NoDoubleDash(a) && NoDoubleDash(c)
    requires |a| > 0 && a[|a| - 1] != '-' && |c| > 0 && c[0] != '-'
    ensures CollapseDashes(a + "--" + c) == a + "-" + c
  {
    var b := "--";
    assert b[1..] == "-" && CollapseDashes("-") == "-";
    assert CollapseDashes(b) == "-";
    CollapseDashesConcat(a + b, c);
    CollapseDashesConcat(a, b);
    CollapseDashesNoop(a);
    CollapseDashesNoop(c);
  }

  lemma CollapseExample()
    ensures CollapseDashes("hello-world--2024") == "hello-world-2024"
  {
    var a, c := "hello-world", "2024";
    assert a + "--" + c == "hello-world--2024";
    assert a + "-" + c == "hello-world-2024";
    CollapseJoin(a, c);
  }

  /** The documented example of `toSlug`. */
  lemma ToSlugExample()
    ensures ToSlug("Hello World! 2024") == "hello-world-2024"
  {
    DashedExample();
    CollapseExample();
  }

  /** The non-empty strings of `xs`, in order (`filter(Boolean)`). */
  function NonEmpty(xs: seq<string>): (r: seq<string>)
    ensures forall k :: 0 <= k < |r| ==> r[k] != ""
  {
    if |xs| == 0 then []
    else
      var rest := NonEmpty(xs[1..]);
      var r := (if xs[0] == "" then [] else [xs[0]]) + rest;
      assert forall k :: 0 < k < |r| && xs[0] != "" ==> r[k] == rest[k - 1];
      r
  }

  /** A slug is the groups of `[a-z0-9]` characters of the lower-cased text,
      in order, joined by single dashes: `toSlug(s)` is
      `s.toLowerCase().split(/[^a-z0-9]/)` with the empty pieces dropped,
      joined with `-`. */
  lemma ToSlugJoinsPieces(s: string)
    ensures ToSlug(s) == Join(NonEmpty(Split(Dashed(Lowered(s)), '-')), "-")
  {
    SlugJoinsPieces(Dashed(Lowered(s)));
  }

  /** Collapsing and stripping dashes keeps the dash-free pieces of a text and
      puts one dash between each two of them. */
  lemma {:induction false} SlugJoinsPieces(d: string)
    ensures StripDashes(CollapseDashes(d)) == Join(NonEmpty(Split(d, '-')), "-")
    decreases |d|
  {
    var k := LenUntil(d, '-');
    if k == |d| {
      SlugOnePiece(d);
    } else {
      var w, e := d[..k], d[k + 1..];
      SplitAt(d, '-', k);
      AroundIndex(d, k);
      SlugJoinsPieces(e);
      SlugStep(w, e);
    }
  }

  /** A text without a dash is its own slug piece. */
  lemma SlugOnePiece(d: string)
    requires LenUntil(d, '-') == |d|
    ensures StripDashes(CollapseDashes(d)) == Join(NonEmpty(Split(d, '-')), "-")
  {
    assert d[..|d|] == d;
    NoDashCollapse(d);
    assert Split(d, '-') == [d];
    assert NonEmpty([d]) == if d == "" then [] else [d];
  }

  /** A text without dashes is left alone by collapsing and stripping. */
  lemma NoDashCollapse(w: string)
    requires '-' !in w
    ensures CollapseDashes(w) == w && StripDashes(w) == w
  {
    assert NoDoubleDash(w) by {
      forall k | 0 <= k < |w| - 1 ensures w[k] != '-' {
        assert w[k] in w;
      }
    }
    CollapseDashesNoop(w);
    if |w| > 0 {
      assert w[0] in w && w[|w| - 1] in w;
    }
  }

  /** A dash in front collapses with the leading dash of the rest. */
  lemma CollapseDashLead(e: string)
    ensures CollapseDashes("-" + e) == "-" + DropLeadingDash(CollapseDashes(e))
  {
    assert ("-" + e)[1..] == e;
  }

  /** The collapsed text has no dash left in front once one is dropped. */
  lemma DropLeadOfCollapsed(e: string)
    ensures var m := DropLeadingDash(CollapseDashes(e)); |m| > 0 ==> m[0] != '-'
  {
    var c := CollapseDashes(e);
    CollapseDashesShape(e);
    if |c| > 1 && c[0] == '-' {
      assert c[1] != '-';
    }
  }

  lemma DropTrailingDashAfter(u: string, m: string)
    requires |m| > 0
    ensures DropTrailingDash(u + m) == u + DropTrailingDash(m)
  {
    assert (u + m)[|u + m| - 1] == m[|m| - 1];
    assert (u + m)[..|u + m| - 1] == u + m[..|m| - 1];
  }

  /** A join of non-empty strings is empty exactly when there are none. */
  lemma JoinNonEmpty(xs: seq<string>, sep: string)
    requires forall k :: 0 <= k < |xs| ==> xs[k] != ""
    ensures Join(xs, sep) == "" <==> |xs| == 0
  {
    if |xs| > 1 {
      assert |Join(xs, sep)| >= |xs[0]| > 0;
    }
  }

  /** One dash-free piece, a dash, and the rest. */
  lemma SlugStep(w: string, e: string)
    requires '-' !in w
    requires StripDashes(CollapseDashes(e)) == Join(NonEmpty(Split(e, '-')), "-")
    ensures StripDashes(CollapseDashes(w + ("-" + e))) == Join(NonEmpty([w] + Split(e, '-')), "-")
  {
    var m := DropLeadingDash(CollapseDashes(e));
    var p := NonEmpty(Split(e, '-'));
    CollapseAfterPiece(w, e);
    DropLeadOfCollapsed(e);
    assert ([w] + Split(e, '-'))[1..] == Split(e, '-');
    assert NonEmpty([w] + Split(e, '-')) == (if w == "" then [] else [w]) + p;
    JoinNonEmpty(p, "-");
    StripAfterPiece(w, m, p);
  }

  lemma CollapseAfterPiece(w: string, e: string)
    requires '-' !in w
    ensures CollapseDashes(w + ("-" + e)) == w + ("-" + DropLeadingDash(CollapseDashes(e)))
  {
    CollapseDashesConcat(w, "-" + e);
    NoDashCollapse(w);
    CollapseDashLead(e);
  }

  lemma StripAfterPiece(w: string, m: string, p: seq<string>)
    requires '-' !in w && (|m| > 0 ==> m[0] != '-')
    requires DropTrailingDash(m) == Join(p, "-") && (Join(p, "-") == "" <==> |p| == 0)
    ensures StripDashes(w + ("-" + m)) == Join((if w == "" then [] else [w]) + p, "-")
  {
    if w == "" {
      assert w + ("-" + m) == "-" + m;
      assert ([] + p) == p;
    } else if m == "" {
      StripAfterWord(w);
    } else {
      StripAfterWordAndMore(w, m, p);
    }
  }

  lemma StripAfterWord(w: string)
    requires '-' !in w && w != ""
    ensures StripDashes(w + ("-" + "")) == w
  {
    assert w[0] in w;
    var x := w + ("-" + "");
    assert x == w + "-";
    assert x[0] == w[0];
    assert x[..|x| - 1] == w;
  }

  lemma StripAfterWordAndMore(w: string, m: string, p: seq<string>)
    requires '-' !in w && w != "" && m != "" && m[0] != '-'
    requires DropTrailingDash(m) == Join(p, "-") && (Join(p, "-") == "" <==> |p| == 0)
    ensures StripDashes(w + ("-" + m)) == Join([w] + p, "-")
  {
    var x := w + ("-" + m);
    assert |p| > 0 by {
      KeepsFirst(m);
    }
    assert StripDashes(x) == DropTrailingDash(x) by {
      NoLeadingDash(w, "-" + m);
    }
    assert DropTrailingDash(x) == (w + "-") + Join(p, "-") by {
      assert x == (w + "-") + m;
      DropTrailingDashAfter(w + "-", m);
    }
    JoinCons(w, p, "-");
  }

  lemma NoLeadingDash(w: string, y: string)
    requires '-' !in w && w != ""
    ensures DropLeadingDash(w + y) == w + y
  {
    assert w[0] in w;
    assert (w + y)[0] == w[0];
  }

  /** Dropping a trailing dash keeps a first character that is no dash. */
  lemma KeepsFirst(m: string)
    requires m != "" && m[0] != '-'
    ensures DropTrailingDash(m) != ""
  {
  }

  // ---------------------------------------------------------------------
  // The chainable processor

  class TextProcessor {
    var text: string

    constructor (text: string)
      ensures this.text == text
    {
      this.text := text;
    }

    /** `truncate(maxLength)`: rewrites `text`, returns the receiver. */
    method Truncate(maxLength: int) returns (self: TextProcessor)
      modifies this
      ensures text == Truncated(old(text), maxLength)
      ensures self == this
    {
      text := if |text| > maxLength then Substring(text, 0, maxLength - 3) + "..." else text;
      self := this;
    }

    /** `sanitizeHTML()`: rewrites `text`, returns the receiver. */
    method SanitizeHTML() returns (self: TextProcessor)
      modifies this
      ensures text == Sanitized(old(text))
      ensures '<' !in text && '>' !in text
      ensures self == this
    {
      text := ReplaceAll(text, '<', "&lt;");
      text := ReplaceAll(text, '>', "&gt;");
      SanitizeSafe(old(text));
      self := this;
    }

    /** `capitalizeWords()`: rewrites `text`, returns the receiver. */
    method CapitalizeWords() returns (self: TextProcessor)
      modifies this
      ensures text == Capitalized(old(text))
      ensures |text| == |old(text)|
      ensures self == this
    {
      text := CapitalizeFrom(text, false);
      CapitalizedAt(old(text));
      self := this;
    }

    /** `normalizeWhitespace()`: rewrites `text`, returns the receiver. */
    method NormalizeWhitespace() returns (self: TextProcessor)
      modifies this
      ensures text == Normalized(old(text))
      ensures SingleSpaced(text)
      ensures |text| > 0 ==> !IsSpace(text[0]) && !IsSpace(text[|text| - 1])
      ensures self == this
    {
      text := Trim(CollapseSpaces(text));
      self := this;
    }

    /** `wordCount()`: reads `text` and does not change it. */
    function WordCount(): (n: nat)
      reads this
      ensures n >= 1
      ensures AllSpace(text) ==> n == 1
      ensures !AllSpace(text) ==> n == Words(text)
    {
      WordCountSpec(text);
      |SplitOnSpaces(Trim(text))|
    }

    /** `value()`: the current text, read without change. */
    function Value(): (v: string)
      reads this
      ensures v == text
    {
      text
    }
  }

  // ---------------------------------------------------------------------
  // The usage chain at the end of TextProcessor.ts

  /** The comment the usage code processes,
      `<script>alert("hi")</script>Too long comment here #example #test @user`,
      written as the pieces that escaping and truncating to 20 treat apart. */
  const Comment: string := "<" + "script" + ">" + "ale" + "rt(\"hi\")</script>Too long comment here #example #test @user"

  /** What the chain shows, `&lt;script&gt;ale...`: the first 17 characters of
      the escaped comment and an ellipsis. */
  const Shown: string := "&lt;" + "script" + "&gt;" + "ale" + "..."

  /** `comment.sanitizeHTML().truncate(20).value()`, then `comment.wordCount()`
      on the same, now rewritten, processor. */
  method CommentUsage() returns (shown: string, words: nat)
    ensures shown == Shown
    ensures words == 1
  {
    var comment := new TextProcessor(Comment);
    var p := comment.SanitizeHTML();
    p := p.Truncate(20);
    shown := p.Value();
    CommentShown();
    ShownIsOneWord();
    words := comment.WordCount();
  }

  /** Escaping never shortens a text. */
  lemma {:induction false} EscapeEachLonger(s: string)
    ensures |EscapeEach(s)| >= |s|
    decreases |s|
  {
    if |s| > 0 {
      EscapeEachLonger(s[1..]);
    }
  }

  /** A text that starts with a tag whose name and the text after it hold no
      angle bracket shows, escaped and truncated just after that text, the
      escaped tag, the text and an ellipsis. */
  lemma TruncateEscapedTag(b: string, d: string, q: string, n: int)
    requires '<' !in b && '>' !in b && '<' !in d && '>' !in d
    requires |q| > 3 && n == |b| + |d| + 11
    ensures Truncated(Sanitized("<" + b + ">" + d + q), n) == "&lt;" + b + "&gt;" + d + "..."
  {
    SanitizeConcat("<" + b + ">", d);
    SanitizeConcat("<" + b, ">");
    SanitizeConcat("<", b);
    SanitizeSafe(b);
    SanitizeSafe(d);
    assert Sanitized("<") == "&lt;";
    assert Sanitized(">") == "&gt;";
    TruncateEscaped("<" + b + ">" + d, q, n);
  }

  /** A text whose escaped head fills the limit less three, followed by more
      than three characters, truncates to that head and an ellipsis. */
  lemma TruncateEscaped(p: string, q: string, n: int)
    requires n >= 3 && |Sanitized(p)| == n - 3 && |q| > 3
    ensures Truncated(Sanitized(p + q), n) == Sanitized(p) + "..."
  {
    SanitizeConcat(p, q);
    SanitizedIsEscapeEach(q);
    EscapeEachLonger(q);
    var x := Sanitized(p + q);
    assert x[..n - 3] == Sanitized(p);
  }

  /** Escaped, the comment is longer than 20 characters, so truncating to 20
      keeps the first 17 characters of the escaped text. */
  lemma CommentShown()
    ensures Truncated(Sanitized(Comment), 20) == Shown
  {
    TruncateEscapedTag("script", "ale", "rt(\"hi\")</script>Too long comment here #example #test @user", 20);
  }

  lemma ShownIsOneWord()
    ensures !AllSpace(Shown) && Words(Shown) == 1
  {
    assert NoSpace(Shown);
    RunsNoSpace(Shown, true);
  }
}
