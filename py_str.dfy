/** The few Python `str` operations the conversation script relies on:
    `isspace`, `strip`/`lstrip`/`rstrip`, `lstrip(chars)`, `splitlines`,
    `startswith` and `"\n".join`, written out over `seq<char>`. */
module PyStr {

  /** Python's `str.isspace` for one character: the characters `strip()`
      removes when called without arguments. */
  predicate IsSpace(c: char) {
    || ('\t' <= c <= '\r')
    || ('\U{1C}' <= c <= '\U{1F}')
    || c == ' '
    || c == '\U{85}'
    || c == '\U{A0}'
    || c == '\U{1680}'
    || ('\U{2000}' <= c <= '\U{200A}')
    || c == '\U{2028}'
    || c == '\U{2029}'
    || c == '\U{202F}'
    || c == '\U{205F}'
    || c == '\U{3000}'
  }

  /** The characters `str.splitlines` treats as line boundaries
      (`\r\n` is one boundary made of two of them). */
  predicate IsLineBreak(c: char) {
    || ('\n' <= c <= '\r')
    || ('\U{1C}' <= c <= '\U{1E}')
    || c == '\U{85}'
    || ('\U{2028}' <= c <= '\U{2029}')
  }

  predicate AllSpace(s: string) {
    forall i :: 0 <= i < |s| ==> IsSpace(s[i])
  }

  predicate NoBreaks(s: string) {
    forall i :: 0 <= i < |s| ==> !IsLineBreak(s[i])
  }

  /** No whitespace at either end, as after `strip()`. */
  predicate Trimmed(s: string) {
    s == [] || (!IsSpace(s[0]) && !IsSpace(s[|s| - 1]))
  }

  /** `s.startswith(c)` for a one-character prefix. */
  predicate StartsWith(s: string, c: char) {
    |s| > 0 && s[0] == c
  }

  /** `s.lstrip()`: the longest suffix of `s` that does not start with whitespace. */
  function LStrip(s: string): (r: string)
    ensures |r| <= |s| && r == s[|s| - |r|..]
    ensures r == [] || !IsSpace(r[0])
    ensures forall i :: 0 <= i < |s| - |r| ==> IsSpace(s[i])
  {
    if s != [] && IsSpace(s[0]) then LStrip(s[1..]) else s
  }

  /** `s.rstrip()`: the longest prefix of `s` that does not end with whitespace. */
  function RStrip(s: string): (r: string)
    ensures |r| <= |s| && r == s[..|r|]
    ensures r == [] || !IsSpace(r[|r| - 1])
    ensures forall i :: |r| <= i < |s| ==> IsSpace(s[i])
  {
    if s != [] && IsSpace(s[|s| - 1]) then RStrip(s[..|s| - 1]) else s
  }

  /** `s.strip()`: `s` without its leading and trailing whitespace. */
  function Strip(s: string): (r: string)
    ensures r == [] || (!IsSpace(r[0]) && !IsSpace(r[|r| - 1]))
    ensures var n := |s| - |LStrip(s)|;
      && n + |r| <= |s|
      && r == s[n..n + |r|]
      && (forall i :: 0 <= i < n ==> IsSpace(s[i]))
      && (forall i :: n + |r| <= i < |s| ==> IsSpace(s[i]))
    ensures r == [] <==> AllSpace(s)
  {
    RStrip(LStrip(s))
  }

  /** `s.lstrip(c)` for a one-character set: `s` without its leading run of `c`. */
  function LStripChar(s: string, c: char): (r: string)
    ensures |r| <= |s| && r == s[|s| - |r|..]
    ensures r == [] || r[0] != c
    ensures forall i :: 0 <= i < |s| - |r| ==> s[i] == c
  {
    if s != [] && s[0] == c then LStripChar(s[1..], c) else s
  }

  /** `"\n".join(lines)`. */
  function JoinLines(lines: seq<string>): string {
    if lines == [] then []
    else if |lines| == 1 then lines[0]
    else lines[0] + "\n" + JoinLines(lines[1..])
  }

  /** Joining one more line adds a "\n" and the line. */
  lemma {:induction false} JoinLinesSnoc(lines: seq<string>, l: string)
    requires lines != []
    ensures JoinLines(lines + [l]) == JoinLines(lines) + "\n" + l
    decreases |lines|
  {
    if |lines| > 1 {
      assert (lines + [l])[1..] == lines[1..] + [l];
      JoinLinesSnoc(lines[1..], l);
    }
  }

  /** The index of the first line boundary in `s`, or `|s|` when there is none. */
  function FirstBreak(s: string): (i: nat)
    ensures i <= |s|
    ensures i < |s| ==> IsLineBreak(s[i])
  {
    if s == [] then 0
    else if IsLineBreak(s[0]) then 0
    else 1 + FirstBreak(s[1..])
  }

  /** Where the line after the boundary at `i` starts: `\r\n` is one
      boundary of two characters. */
  function BreakEnd(s: string, i: nat): (next: nat)
    requires i < |s|
    ensures i < next <= |s|
  {
    if s[i] == '\r' && i + 1 < |s| && s[i + 1] == '\n' then i + 2 else i + 1
  }

  /** `s.splitlines()`: the lines of `s` without their boundaries; a final
      boundary does not start an empty last line, and `""` has no lines. */
  function SplitLines(s: string): (r: seq<string>)
    ensures r == [] <==> s == []
    decreases |s|
  {
    if s == [] then []
    else
      var i := FirstBreak(s);
      if i == |s| then [s] else [s[..i]] + SplitLines(s[BreakEnd(s, i)..])
  }

  // ---------------------------------------------------------------------
  // Lemmas

  /** No boundary comes before the first one. */
  lemma {:induction false} FirstBreakClean(s: string)
    ensures NoBreaks(s[..FirstBreak(s)])
    decreases |s|
  {
    if s != [] && !IsLineBreak(s[0]) {
      FirstBreakClean(s[1..]);
      assert s[..FirstBreak(s)] == [s[0]] + s[1..][..FirstBreak(s[1..])];
    }
  }

  /** No line holds a boundary. */
  lemma {:induction false} SplitLinesClean(s: string)
    ensures forall l :: l in SplitLines(s) ==> NoBreaks(l)
    decreases |s|
  {
    if s != [] {
      var i := FirstBreak(s);
      FirstBreakClean(s);
      if i < |s| {
        SplitLinesClean(s[BreakEnd(s, i)..]);
      } else {
        assert s[..i] == s;
      }
    }
  }

  /** Splitting lines that were joined with "\n" gives the lines back, provided
      no line holds a boundary and the last one is not empty. */
  lemma {:induction false} SplitJoin(lines: seq<string>)
    requires forall l :: l in lines ==> NoBreaks(l)
    requires lines != [] ==> lines[|lines| - 1] != []
    ensures SplitLines(JoinLines(lines)) == lines
  {
    if lines == [] {
    } else if |lines| == 1 {
      FirstBreakNone(lines[0]);
    } else {
      var l := lines[0];
      var s := JoinLines(lines);
      assert s == l + "\n" + JoinLines(lines[1..]);
      assert s[..|l|] == l;
      assert s[|l|] == '\n';
      assert FirstBreak(s) == |l| by {
        FirstBreakAt(s, |l|);
      }
      assert s[|l| + 1..] == JoinLines(lines[1..]);
      SplitJoin(lines[1..]);
    }
  }

  /** The first boundary is at `i` when `s[..i]` holds none and `s[i]` is one. */
  lemma {:induction false} FirstBreakAt(s: string, i: nat)
    requires i < |s| && IsLineBreak(s[i]) && NoBreaks(s[..i])
    ensures FirstBreak(s) == i
  {
    if i > 0 {
      assert !IsLineBreak(s[..i][0]);
      assert s[1..][..i - 1] == s[..i][1..];
      FirstBreakAt(s[1..], i - 1);
    }
  }

  /** A text without boundaries has its first boundary at its end. */
  lemma {:induction false} FirstBreakNone(s: string)
    requires NoBreaks(s)
    ensures FirstBreak(s) == |s|
  {
    if s != [] {
      FirstBreakNone(s[1..]);
    }
  }

  /** When `a` is not empty and does not end in a boundary, "\n" separates the
      lines of `a` from those of `b`. */
  lemma {:induction false} SplitAppend(a: string, b: string)
    requires a != [] && !IsLineBreak(a[|a| - 1])
    ensures SplitLines(a + "\n" + b) == SplitLines(a) + SplitLines(b)
    decreases |a|
  {
    if FirstBreak(a) == |a| {
      SplitAppendLine(a, b);
    } else {
      var next := SplitAppendStep(a, b);
      var c := a[next..];
      assert c[|c| - 1] == a[|a| - 1];
      SplitAppend(c, b);
      AppendAssoc([a[..FirstBreak(a)]], SplitLines(c), SplitLines(b));
    }
  }

  /** Text stripped at its end does not end in a line boundary. */
  lemma RStripNoBreak(s: string)
    requires RStrip(s) != []
    ensures var r := RStrip(s); !IsLineBreak(r[|r| - 1])
  {
  }

  /** Concatenation is associative. Stated once for any element type, it
      spares the solver from comparing nested sequences element by element. */
  lemma AppendAssoc<T>(x: seq<T>, y: seq<T>, z: seq<T>)
    ensures x + (y + z) == (x + y) + z
  {
  }

  lemma AppendAssoc4<T>(w: seq<T>, x: seq<T>, y: seq<T>, z: seq<T>)
    ensures w + (x + y + z) == w + x + y + z
  {
  }

  /** Moving the boundary between a shared prefix and the rest. */
  lemma Regroup<T>(x: seq<T>, y: seq<T>, q: seq<T>, m: seq<T>, rest: seq<T>)
    requires x == q + (m + rest) && y == q + m
    ensures x == y + rest
  {
  }

  /** A nonempty sequence is its prefix followed by its last element. */
  lemma SnocLast<T>(s: seq<T>)
    requires s != []
    ensures s[..|s| - 1] + [s[|s| - 1]] == s
  {
  }

  lemma SplitAt<T>(s: seq<T>, n: nat)
    requires n <= |s|
    ensures s[..n] + s[n..] == s
  {
  }

  lemma LastOfSnoc<T>(s: seq<T>, x: T)
    ensures var t := s + [x]; t != [] && t[|t| - 1] == x
  {
  }

  /** Extending a prefix by the next element. */
  lemma TakeNext<T>(s: seq<T>, i: nat)
    requires i < |s|
    ensures s[..i + 1] == s[..i] + [s[i]]
  {
  }

  lemma AppendEmpty<T>(x: seq<T>)
    ensures [] + x == x && x + [] == x
  {
  }

  /** One step of SplitAppend: the first line of `a` comes off both sides. */
  lemma SplitAppendStep(a: string, b: string) returns (next: nat)
    requires a != [] && !IsLineBreak(a[|a| - 1]) && FirstBreak(a) < |a|
    ensures 0 < next < |a|
    ensures var l := a[..FirstBreak(a)];
      && SplitLines(a + "\n" + b) == [l] + SplitLines(a[next..] + "\n" + b)
      && SplitLines(a) == [l] + SplitLines(a[next..])
  {
    next := SplitFirstLine(a, "\n" + b, FirstBreak(a));
    AppendAssoc(a, "\n", b);
    AppendAssoc(a[next..], "\n", b);
  }

  /** The base case of SplitAppend: `a` is a single line. */
  lemma SplitAppendLine(a: string, b: string)
    requires a != [] && FirstBreak(a) == |a|
    ensures SplitLines(a + "\n" + b) == SplitLines(a) + SplitLines(b)
  {
    var s := a + "\n" + b;
    FirstBreakClean(a);
    assert a[..|a|] == a;
    assert s[..|a|] == a;
    FirstBreakAt(s, |a|);
    assert BreakEnd(s, |a|) == |a| + 1;
    assert s[|a| + 1..] == b;
    SplitLinesUnfold(s);
  }

  /** A leading "\n" is an empty first line. */
  lemma SplitNewlineFirst(b: string)
    ensures SplitLines("\n" + b) == [""] + SplitLines(b)
  {
    var s := "\n" + b;
    assert FirstBreak(s) == 0;
    assert s[1..] == b;
  }

  /** Every line of a whitespace-only text is whitespace-only. */
  lemma {:induction false} SplitSpaces(s: string)
    requires AllSpace(s)
    ensures forall l :: l in SplitLines(s) ==> AllSpace(l)
    decreases |s|
  {
    if s != [] {
      var i := FirstBreak(s);
      if i < |s| {
        SplitSpaces(s[BreakEnd(s, i)..]);
      }
    }
  }

  /** Whitespace appended to a text changes neither end of its strip. */
  lemma {:induction false} StripAppendSpace(s: string, w: string)
    requires AllSpace(w)
    ensures Strip(s + w) == Strip(s)
  {
    if AllSpace(s) {
      assert AllSpace(s + w);
    } else {
      LStripAppend(s, w);
      RStripAppendSpace(LStrip(s), w);
    }
  }

  lemma {:induction false} LStripAppend(s: string, w: string)
    requires !AllSpace(s)
    ensures LStrip(s + w) == LStrip(s) + w
    decreases |s|
  {
    assert s != [];
    if IsSpace(s[0]) {
      assert (s + w)[1..] == s[1..] + w;
      LStripAppend(s[1..], w);
    }
  }

  lemma {:induction false} RStripAppendSpace(s: string, w: string)
    requires AllSpace(w)
    ensures RStrip(s + w) == RStrip(s)
    decreases |w|
  {
    if w != [] {
      assert (s + w)[..|s + w| - 1] == s + w[..|w| - 1];
      RStripAppendSpace(s, w[..|w| - 1]);
    } else {
      assert s + w == s;
    }
  }

  /** Stripping a leading run of `c` commutes with appending text that does
      not start with `c`. */
  lemma {:induction false} LStripCharAppend(s: string, w: string, c: char)
    requires w == [] || w[0] != c
    ensures LStripChar(s + w, c) == LStripChar(s, c) + w
    decreases |s|
  {
    if s == [] {
      assert s + w == w;
    } else if s[0] == c {
      assert (s + w)[0] == c;
      assert (s + w)[1..] == s[1..] + w;
      LStripCharAppend(s[1..], w, c);
    } else {
      assert (s + w)[0] != c;
    }
  }

  /** Every line boundary is whitespace. */
  lemma BreakIsSpace(c: char)
    requires IsLineBreak(c)
    ensures IsSpace(c)
  {
  }

  /** The last line of a text that does not end in a boundary ends with the
      text's last character. */
  lemma {:induction false} SplitLastChar(a: string)
    requires a != [] && !IsLineBreak(a[|a| - 1])
    ensures var la := SplitLines(a);
      la != [] && la[|la| - 1] != [] && la[|la| - 1][|la[|la| - 1]| - 1] == a[|a| - 1]
    decreases |a|
  {
    var i := FirstBreak(a);
    if i < |a| {
      var next := SplitFirstLine(a, "", i);
      var c := a[next..];
      assert c[|c| - 1] == a[|a| - 1];
      SplitLastChar(c);
      var lc := SplitLines(c);
      var la := SplitLines(a);
      assert la == [a[..i]] + lc;
      assert la[|la| - 1] == lc[|lc| - 1];
    } else {
      SplitLinesUnfoldLast(a);
    }
  }

  /** Whitespace appended to a text that ends in a non-space character
      lengthens its last line `x` by a whitespace-only `tail` and adds the
      lines of a whitespace-only `rest`. */
  lemma {:induction false} SplitTrailingSpace(a: string, w: string) returns (pre: seq<string>, x: string, tail: string, rest: string)
    requires a != [] && !IsSpace(a[|a| - 1]) && AllSpace(w)
    ensures AllSpace(tail) && AllSpace(rest)
    ensures SplitLines(a) == pre + [x]
    ensures SplitLines(a + w) == pre + [x + tail] + SplitLines(rest)
    decreases |a|
  {
    var i := FirstBreak(a);
    if i == |a| {
      FirstBreakClean(a);
      assert a[..|a|] == a;
      pre, x := [], a;
      tail, rest := SplitLastLineSpace(a, w);
      AppendEmpty([a + tail]);
      AppendEmpty([a]);
    } else {
      if IsLineBreak(a[|a| - 1]) {
        BreakIsSpace(a[|a| - 1]);
      }
      var next := SplitFirstLine(a, w, i);
      var pre';
      pre', x, tail, rest := SplitTrailingSpace(a[next..], w);
      pre := [a[..i]] + pre';
      AppendAssoc([a[..i]], pre', [x]);
      AppendAssoc4([a[..i]], pre', [x + tail], SplitLines(rest));
    }
  }

  /** SplitTrailingSpace, with the last line nonempty and ending in the
      text's last character. */
  lemma SplitTrailing(a: string, w: string) returns (pre: seq<string>, x: string, tail: string, rest: string)
    requires a != [] && !IsSpace(a[|a| - 1]) && AllSpace(w)
    ensures AllSpace(tail) && forall l :: l in SplitLines(rest) ==> AllSpace(l)
    ensures x != [] && !IsSpace(x[|x| - 1])
    ensures SplitLines(a) == pre + [x]
    ensures SplitLines(a + w) == pre + [x + tail] + SplitLines(rest)
  {
    pre, x, tail, rest := SplitTrailingSpace(a, w);
    SplitSpaces(rest);
    if IsLineBreak(a[|a| - 1]) {
      BreakIsSpace(a[|a| - 1]);
    }
    SplitLastChar(a);
    assert (pre + [x])[|pre + [x]| - 1] == x;
  }

  /** The base case of SplitTrailingSpace: `a` is a single line. */
  lemma SplitLastLineSpace(a: string, w: string) returns (tail: string, rest: string)
    requires a != [] && NoBreaks(a) && AllSpace(w)
    ensures AllSpace(tail) && AllSpace(rest)
    ensures SplitLines(a) == [a]
    ensures SplitLines(a + w) == [a + tail] + SplitLines(rest)
  {
    FirstBreakNone(a);
    var j := FirstBreak(w);
    FirstBreakClean(w);
    NoBreaksAppend(a, w[..j]);
    if j == |w| {
      assert w[..j] == w;
      FirstBreakNone(a + w);
      tail, rest := w, "";
    } else {
      var next := SplitAtBreak(a, w, j);
      tail, rest := w[..j], w[next..];
    }
  }

  /** `a + w` breaks first at the first boundary of `w` when `a` has none. */
  lemma SplitAtBreak(a: string, w: string, j: nat) returns (next: nat)
    requires j == FirstBreak(w) && j < |w| && NoBreaks(a + w[..j])
    ensures j < next <= |w|
    ensures SplitLines(a + w) == [a + w[..j]] + SplitLines(w[next..])
  {
    var s := a + w;
    assert s[..|a| + j] == a + w[..j];
    FirstBreakAt(s, |a| + j);
    next := BreakEnd(w, j);
    BreakEndShift(a, w, j);
    assert s[|a| + next..] == w[next..];
    SplitLinesAt(s, |a| + j, |a| + next, a + w[..j], w[next..]);
  }

  /** A boundary at `j` in `w` ends at the same place in `a + w`. */
  lemma BreakEndShift(a: string, w: string, j: nat)
    requires j < |w|
    ensures BreakEnd(a + w, |a| + j) == |a| + BreakEnd(w, j)
  {
    assert (a + w)[|a| + j] == w[j];
    if j + 1 < |w| {
      assert (a + w)[|a| + j + 1] == w[j + 1];
    }
  }

  /** A boundary before the last character of `a` ends at the same place in
      `a + w`. */
  lemma BreakEndPrefix(a: string, w: string, i: nat)
    requires i + 1 < |a|
    ensures BreakEnd(a + w, i) == BreakEnd(a, i)
  {
    assert (a + w)[i] == a[i] && (a + w)[i + 1] == a[i + 1];
  }

  /** One step of `splitlines` at the first boundary of `s`. */
  lemma SplitLinesUnfold(s: string)
    requires FirstBreak(s) < |s|
    ensures SplitLines(s) == [s[..FirstBreak(s)]] + SplitLines(s[BreakEnd(s, FirstBreak(s))..])
  {
  }

  /** SplitLinesUnfold with the first line and the rest named. */
  lemma SplitLinesAt(s: string, i: nat, next: nat, l: string, rest: string)
    requires i == FirstBreak(s) && i < |s| && next == BreakEnd(s, i)
    requires l == s[..i] && rest == s[next..]
    ensures SplitLines(s) == [l] + SplitLines(rest)
  {
  }

  /** A text without a boundary is its only line. */
  lemma SplitLinesUnfoldLast(s: string)
    requires s != [] && FirstBreak(s) == |s|
    ensures SplitLines(s) == [s]
  {
  }

  lemma NoBreaksAppend(a: string, b: string)
    requires NoBreaks(a) && NoBreaks(b)
    ensures NoBreaks(a + b)
  {
  }

  /** The first line of `a + w` is the first line of `a` when `a` has a boundary
      that is not its last character. */
  lemma SplitFirstLine(a: string, w: string, i: nat) returns (next: nat)
    requires i == FirstBreak(a) && i < |a| && !IsLineBreak(a[|a| - 1])
    ensures 0 < next < |a|
    ensures SplitLines(a + w) == [a[..i]] + SplitLines(a[next..] + w)
    ensures SplitLines(a) == [a[..i]] + SplitLines(a[next..])
  {
    var s := a + w;
    assert i + 1 < |a|;
    FirstBreakClean(a);
    assert s[..i] == a[..i];
    FirstBreakAt(s, i);
    next := BreakEnd(a, i);
    if i + 2 == |a| {
      assert a[i + 1] != '\n';
    }
    assert next < |a|;
    BreakEndPrefix(a, w, i);
    assert s[next..] == a[next..] + w;
    SplitLinesUnfold(s);
    SplitLinesUnfold(a);
  }
}
