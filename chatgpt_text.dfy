/** The pure helpers of the Markdown conversation script: line
    classification, block normalisation and reply formatting. */
module ChatGptText {
  import opened PyStr

  /** The kinds of text in a Markdown conversation. `Undefined` is never the
      kind of a line; the segmenter uses it before the first message. */
  datatype Kind = Undefined | Header | User | Assistant | Space

  /** The string value of a kind (`StrEnum` with `auto()` gives the lower-case
      member name); it is the role sent with each message. */
  function KindValue(k: Kind): string {
    match k
    case Undefined => "undefined"
    case Header => "header"
    case User => "user"
    case Assistant => "assistant"
    case Space => "space"
  }

  /** The kind of one line. Checks are made in order: a `#` first is a header,
      then a `>` first is the assistant, then a whitespace-only line is space,
      and anything else is the user. */
  function Classify(line: string): (k: Kind)
    ensures k != Undefined
    ensures k == Space <==> AllSpace(line)
    ensures k == Header <==> StartsWith(line, '#')
    ensures k == Assistant <==> StartsWith(line, '>')
    ensures k == User <==> !AllSpace(line) && !StartsWith(line, '#') && !StartsWith(line, '>')
    ensures k == User ==> line != [] && line[0] != '#' && line[0] != '>'
  {
    if StartsWith(line, '#') then Header
    else if StartsWith(line, '>') then Assistant
    else if Strip(line) == "" then Space
    else User
  }

  lemma ClassifyEmpty()
    ensures Classify("") == Space
  {
    assert AllSpace("");
  }

  /** A line of a block as it goes into the message: without its leading run
      of `>` and without surrounding whitespace. */
  function Clean(line: string): string {
    Strip(LStripChar(line, '>'))
  }

  /** `f` applied to every element of `xs`, in order. */
  function Each<T, U>(f: T -> U, xs: seq<T>): (r: seq<U>)
    ensures |r| == |xs| && forall i :: 0 <= i < |xs| ==> r[i] == f(xs[i])
  {
    if xs == [] then [] else [f(xs[0])] + Each(f, xs[1..])
  }

  lemma {:induction false} EachAppend<T, U>(f: T -> U, a: seq<T>, b: seq<T>)
    ensures Each(f, a + b) == Each(f, a) + Each(f, b)
  {
    if a == [] {
      assert a + b == b;
    } else {
      assert (a + b)[1..] == a[1..] + b;
      EachAppend(f, a[1..], b);
    }
  }

  function CleanAll(lines: seq<string>): (r: seq<string>)
    ensures |r| == |lines| && forall i :: 0 <= i < |lines| ==> r[i] == Clean(lines[i])
  {
    Each(Clean, lines)
  }

  /** Three newlines in a row start at index `i` of `s`. */
  predicate NewlineRun3At(s: string, i: int) {
    0 <= i && i + 2 < |s| && s[i] == '\n' && s[i + 1] == '\n' && s[i + 2] == '\n'
  }

  /** No three newlines in a row. */
  predicate NoNewlineRun3(s: string) {
    forall i | 0 <= i < |s| :: !NewlineRun3At(s, i)
  }

  lemma NoNewlineRun3Prepend(p: string, t: string)
    requires NoNewlineRun3(t)
    requires p == "\n" || p == "\n\n" || (|p| == 1 && p[0] != '\n')
    requires p != [] && p[0] == '\n' ==> t == [] || t[0] != '\n'
    ensures NoNewlineRun3(p + t)
  {
    var s := p + t;
    forall i | 0 <= i
      ensures !NewlineRun3At(s, i)
    {
      if i >= |p| {
        assert !NewlineRun3At(t, i - |p|);
      }
    }
  }

  /** The number of newlines `s` starts with. */
  function LeadingNewlines(s: string): (n: nat)
    ensures n <= |s|
    ensures forall i :: 0 <= i < n ==> s[i] == '\n'
    ensures n < |s| ==> s[n] != '\n'
  {
    if s != [] && s[0] == '\n' then 1 + LeadingNewlines(s[1..]) else 0
  }

  /** The substitution of the pattern `\n(\n+)` by "\n\n": every run of two or
      more newlines becomes exactly two. The ends of the text are kept. */
  function Collapse(s: string): (r: string)
    ensures |r| <= |s|
    ensures NoNewlineRun3(r)
    ensures s != [] ==> r != [] && r[0] == s[0] && r[|r| - 1] == s[|s| - 1]
    decreases |s|
  {
    if s == [] then []
    else if s[0] != '\n' then
      CollapsedChar(s, Collapse(s[1..]));
      [s[0]] + Collapse(s[1..])
    else
      var n := LeadingNewlines(s);
      var p := if n >= 2 then "\n\n" else "\n";
      CollapsedNewlines(s, n, p, Collapse(s[n..]));
      p + Collapse(s[n..])
  }

  /** What Collapse promises, of `r` collapsed from `s`. */
  predicate CollapsedFrom(s: string, r: string) {
    && |r| <= |s|
    && NoNewlineRun3(r)
    && (s != [] ==> r != [] && r[0] == s[0] && r[|r| - 1] == s[|s| - 1])
  }

  lemma CollapsedChar(s: string, c: string)
    requires s != [] && s[0] != '\n' && CollapsedFrom(s[1..], c)
    ensures CollapsedFrom(s, [s[0]] + c)
  {
    NoNewlineRun3Prepend([s[0]], c);
  }

  lemma CollapsedNewlines(s: string, n: nat, p: string, c: string)
    requires s != [] && s[0] == '\n'
    requires n == LeadingNewlines(s) && p == if n >= 2 then "\n\n" else "\n"
    requires CollapsedFrom(s[n..], c)
    ensures CollapsedFrom(s, p + c)
  {
    NoNewlineRun3Prepend(p, c);
    if c == [] {
      assert s[|s| - 1] == '\n';
    } else {
      assert (p + c)[|p + c| - 1] == c[|c| - 1];
    }
  }

  /** The text of a block as it goes into the message: each line cleaned, the
      lines joined, the result stripped and its blank-line runs collapsed. */
  function ContentFrom(lines: seq<string>): (r: string)
    ensures Trimmed(r)
    ensures NoNewlineRun3(r)
  {
    var joined := JoinLines(CleanAll(lines));
    CollapseStripped(joined);
    Collapse(Strip(joined))
  }

  /** A stripped text stays stripped once collapsed. */
  lemma CollapseStripped(s: string)
    ensures Trimmed(Collapse(Strip(s)))
  {
    var t := Strip(s);
    assert Trimmed(t);
    CollapseTrimmed(t);
  }

  lemma CollapseTrimmed(t: string)
    requires Trimmed(t)
    ensures Trimmed(Collapse(t))
  {
    var r := Collapse(t);
    if r != [] {
      assert r[0] == t[0] && r[|r| - 1] == t[|t| - 1];
    }
  }

  /** Every line of a reply prefixed with "> ". */
  function Quote(lines: seq<string>): (r: seq<string>)
    ensures |r| == |lines| && forall i :: 0 <= i < |lines| ==> r[i] == "> " + lines[i]
  {
    seq(|lines|, i requires 0 <= i < |lines| => "> " + lines[i])
  }

  /** A reply of the service as a Markdown blockquote. */
  function FormatReply(text: string): (r: string)
    ensures r == [] <==> text == []
  {
    JoinLines(Quote(SplitLines(text)))
  }

  // ---------------------------------------------------------------------
  // Normalisation

  /** The characters of `s` other than newlines. */
  function DropNewlines(s: string): string {
    if s == [] then []
    else if s[0] == '\n' then DropNewlines(s[1..])
    else [s[0]] + DropNewlines(s[1..])
  }

  lemma {:induction false} DropNewlinesAppend(a: string, b: string)
    ensures DropNewlines(a + b) == DropNewlines(a) + DropNewlines(b)
  {
    if a != [] {
      assert (a + b)[1..] == a[1..] + b;
      DropNewlinesAppend(a[1..], b);
    } else {
      assert a + b == b;
    }
  }

  lemma {:induction false} DropNewlinesOfNewlines(s: string, n: nat)
    requires n <= |s| && forall i :: 0 <= i < n ==> s[i] == '\n'
    ensures DropNewlines(s) == DropNewlines(s[n..])
  {
    if n > 0 {
      DropNewlinesOfNewlines(s[1..], n - 1);
      assert s[1..][n - 1..] == s[n..];
    }
  }

  /** Collapsing changes nothing but the length of newline runs. */
  lemma {:induction false} CollapseKeepsText(s: string)
    ensures DropNewlines(Collapse(s)) == DropNewlines(s)
    decreases |s|
  {
    if s == [] {
    } else if s[0] != '\n' {
      CollapseKeepsText(s[1..]);
      DropNewlinesAppend([s[0]], Collapse(s[1..]));
    } else {
      var n := LeadingNewlines(s);
      var p: string := if n >= 2 then "\n\n" else "\n";
      CollapseKeepsText(s[n..]);
      DropNewlinesAppend(p, Collapse(s[n..]));
      DropNewlinesOfNewlines(p, |p|);
      DropNewlinesOfNewlines(s, n);
    }
  }

  /** `n` newlines. */
  function Newlines(n: nat): string {
    seq(n, _ => '\n')
  }

  /** A whole run of newlines, between text that does not end in one and
      text that does not start with one, becomes exactly "\n\n" when it is
      two or more long, and stays "\n" otherwise; the text on both sides is
      collapsed on its own. */
  lemma CollapseRun(a: string, n: nat, b: string)
    requires n >= 1
    requires a == [] || a[|a| - 1] != '\n'
    requires b == [] || b[0] != '\n'
    ensures Collapse(a + Newlines(n) + b) == Collapse(a) + (if n >= 2 then "\n\n" else "\n") + Collapse(b)
  {
    var p := if n >= 2 then "\n\n" else "\n";
    AppendAssoc(a, Newlines(n), b);
    CollapseRunStart(n, b);
    CollapseBefore(a, Newlines(n) + b, p + Collapse(b));
    AppendAssoc(Collapse(a), p, Collapse(b));
  }

  /** Collapsing `a` followed by a text `w` that starts with a newline run:
      the part collapsed from `w` (`rest`) is the same whatever comes before,
      as long as `a` does not end in a newline. */
  lemma {:induction false} CollapseBefore(a: string, w: string, rest: string)
    requires a == [] || a[|a| - 1] != '\n'
    requires w != [] && w[0] == '\n' && Collapse(w) == rest
    ensures Collapse(a + w) == Collapse(a) + rest
    decreases |a|
  {
    if a == [] {
      AppendEmpty(w);
      AppendEmpty(rest);
    } else if a[0] != '\n' {
      CollapseBefore(a[1..], w, rest);
      CollapseCharBefore(a, w, rest);
    } else {
      var k := LeadingNewlines(a);
      LeadingBefore(a, w);
      CollapseBefore(a[k..], w, rest);
      CollapseNewlinesBefore(a, w, rest);
    }
  }

  lemma CollapseCharBefore(a: string, w: string, rest: string)
    requires a != [] && a[0] != '\n'
    requires Collapse(a[1..] + w) == Collapse(a[1..]) + rest
    ensures Collapse(a + w) == Collapse(a) + rest
  {
    var s, t := a + w, a[1..];
    assert s[1..] == t + w;
    CollapseAtChar(s, [a[0]], t + w);
    CollapseAtChar(a, [a[0]], t);
    Regroup(Collapse(s), Collapse(a), [a[0]], Collapse(t), rest);
  }

  lemma CollapseNewlinesBefore(a: string, w: string, rest: string)
    requires a != [] && a[0] == '\n'
    requires LeadingNewlines(a) < |a| && LeadingNewlines(a + w) == LeadingNewlines(a)
    requires Collapse(a[LeadingNewlines(a)..] + w) == Collapse(a[LeadingNewlines(a)..]) + rest
    ensures Collapse(a + w) == Collapse(a) + rest
  {
    var k := LeadingNewlines(a);
    var q := if k >= 2 then "\n\n" else "\n";
    var t := a[k..];
    CollapseNewlinesBoth(a, w, k, q, t);
    Regroup(Collapse(a + w), Collapse(a), q, Collapse(t), rest);
  }

  /** The same leading newline run collapses the same way in `a` and in
      `a + w`. */
  lemma CollapseNewlinesBoth(a: string, w: string, k: nat, q: string, t: string)
    requires a != [] && a[0] == '\n' && k < |a| && t == a[k..]
    requires k == LeadingNewlines(a) && k == LeadingNewlines(a + w)
    requires q == if k >= 2 then "\n\n" else "\n"
    ensures Collapse(a + w) == q + Collapse(t + w)
    ensures Collapse(a) == q + Collapse(t)
  {
    var s := a + w;
    assert s[k..] == t + w;
    CollapseAtNewline(s, k, q, t + w);
    CollapseAtNewline(a, k, q, t);
  }

  /** The text after a whole newline run of length `n` collapses to one or
      two newlines followed by the rest collapsed. */
  lemma CollapseRunStart(n: nat, b: string)
    requires n >= 1
    requires b == [] || b[0] != '\n'
    ensures Collapse(Newlines(n) + b) == (if n >= 2 then "\n\n" else "\n") + Collapse(b)
  {
    var w := Newlines(n) + b;
    LeadingRun(n, b);
    assert w[n..] == b;
    CollapseAtNewline(w, n, if n >= 2 then "\n\n" else "\n", b);
  }

  /** Collapsing keeps a first character that is not a newline. */
  lemma CollapseAtChar(s: string, c: string, t: string)
    requires s != [] && s[0] != '\n' && c == [s[0]] && t == s[1..]
    ensures Collapse(s) == c + Collapse(t)
  {
  }

  /** Collapsing turns a leading run of `k` newlines into one or two. */
  lemma CollapseAtNewline(s: string, k: nat, q: string, t: string)
    requires s != [] && s[0] == '\n' && k == LeadingNewlines(s) && t == s[k..]
    requires q == if k >= 2 then "\n\n" else "\n"
    ensures Collapse(s) == q + Collapse(t)
  {
  }

  lemma {:induction false} LeadingRun(n: nat, b: string)
    requires b == [] || b[0] != '\n'
    ensures LeadingNewlines(Newlines(n) + b) == n
  {
    var s := Newlines(n) + b;
    if n == 0 {
      assert s == b;
    } else {
      assert s[1..] == Newlines(n - 1) + b;
      LeadingRun(n - 1, b);
    }
  }

  lemma LeadingBefore(a: string, w: string)
    requires a == [] || a[|a| - 1] != '\n'
    ensures LeadingNewlines(a) < |a| || a == []
    ensures LeadingNewlines(a + w) == LeadingNewlines(a) || a == []
  {
    if a != [] {
      var k := LeadingNewlines(a);
      var m := LeadingNewlines(a + w);
      assert k < |a|;
      assert (a + w)[k] == a[k];
      assert forall i :: 0 <= i < k ==> (a + w)[i] == a[i];
    }
  }

  /** A text is left unchanged by collapsing exactly when it has no run of
      three newlines. */
  lemma CollapseFixpoint(s: string)
    ensures Collapse(s) == s <==> NoNewlineRun3(s)
  {
    if NoNewlineRun3(s) {
      CollapseNoRun(s);
    }
  }

  lemma {:induction false} CollapseNoRun(s: string)
    requires NoNewlineRun3(s)
    ensures Collapse(s) == s
    decreases |s|
  {
    if s == [] {
    } else if s[0] != '\n' {
      NoNewlineRun3Suffix(s, 1);
      CollapseNoRun(s[1..]);
      CollapseKeepsChar(s);
    } else {
      var n := LeadingNewlines(s);
      NoNewlineRun3Suffix(s, n);
      CollapseNoRun(s[n..]);
      CollapseKeepsNewlines(s);
    }
  }

  lemma CollapseKeepsChar(s: string)
    requires s != [] && s[0] != '\n' && Collapse(s[1..]) == s[1..]
    ensures Collapse(s) == s
  {
    assert s == [s[0]] + s[1..];
  }

  lemma CollapseKeepsNewlines(s: string)
    requires NoNewlineRun3(s) && s != [] && s[0] == '\n'
    requires var n := LeadingNewlines(s); Collapse(s[n..]) == s[n..]
    ensures Collapse(s) == s
  {
    var n := LeadingNewlines(s);
    var p: string := if n >= 2 then "\n\n" else "\n";
    ShortNewlineRun(s);
    assert Collapse(s) == p + Collapse(s[n..]);
    SplitAt(s, n);
  }

  /** A text without three newlines in a row starts with at most two. */
  lemma ShortNewlineRun(s: string)
    requires NoNewlineRun3(s) && s != [] && s[0] == '\n'
    ensures var n := LeadingNewlines(s);
      s[..n] == if n >= 2 then "\n\n" else "\n"
  {
    var n := LeadingNewlines(s);
    assert !NewlineRun3At(s, 0);
    assert n <= 2;
  }

  lemma NoNewlineRun3Suffix(s: string, k: nat)
    requires k <= |s| && NoNewlineRun3(s)
    ensures NoNewlineRun3(s[k..])
  {
    forall i | 0 <= i
      ensures !NewlineRun3At(s[k..], i)
    {
      assert !NewlineRun3At(s, k + i);
    }
  }

  /** Collapsing twice is collapsing once. */
  lemma CollapseIdempotent(s: string)
    ensures Collapse(Collapse(s)) == Collapse(s)
  {
    CollapseFixpoint(Collapse(s));
  }

  /** Each line of a block loses every leading `>` and then its surrounding
      whitespace; nothing else of it changes. */
  lemma CleanLine(line: string)
    ensures var k := |line| - |LStripChar(line, '>')|;
      && (forall i :: 0 <= i < k ==> line[i] == '>')
      && (k == |line| || line[k] != '>')
      && Clean(line) == Strip(line[k..])
    ensures Trimmed(Clean(line))
  {
  }

  // ---------------------------------------------------------------------
  // Trailing whitespace

  /** Whitespace after the last non-space character of a line does not change
      its kind. */
  lemma ClassifyAppendSpace(x: string, tail: string)
    requires x != [] && !IsSpace(x[|x| - 1]) && AllSpace(tail)
    ensures Classify(x + tail) == Classify(x)
  {
    assert (x + tail)[0] == x[0];
    assert !AllSpace(x + tail) by { assert (x + tail)[|x| - 1] == x[|x| - 1]; }
  }

  /** Whitespace after a line is removed again when the line is cleaned. */
  lemma CleanAppendSpace(x: string, tail: string)
    requires AllSpace(tail)
    ensures Clean(x + tail) == Clean(x)
  {
    assert tail == [] || IsSpace(tail[0]);
    LStripCharAppend(x, tail, '>');
    StripAppendSpace(LStripChar(x, '>'), tail);
  }

  /** A blank line cleans to the empty string. */
  lemma CleanBlank(l: string)
    requires AllSpace(l)
    ensures Clean(l) == ""
  {
    assert l == [] || IsSpace(l[0]);
  }

  /** Joining more empty lines only adds newlines. */
  lemma {:induction false} JoinEmptyLines(c: seq<string>, e: seq<string>) returns (w: string)
    requires forall i :: 0 <= i < |e| ==> e[i] == ""
    ensures AllSpace(w) && JoinLines(c + e) == JoinLines(c) + w
    decreases |e|
  {
    if e == [] {
      assert c + e == c;
      w := "";
    } else {
      var e' := e[..|e| - 1];
      var w' := JoinEmptyLines(c, e');
      assert c + e == (c + e') + [""];
      if c + e' == [] {
        assert c == [];
        w := "";
      } else {
        JoinLinesSnoc(c + e', "");
        w := w' + "\n";
      }
    }
  }

  /** Blank lines at the end of a block do not change its message. */
  lemma ContentFromBlankLines(lines: seq<string>, blank: seq<string>)
    requires forall l :: l in blank ==> AllSpace(l)
    ensures ContentFrom(lines + blank) == ContentFrom(lines)
  {
    var e := CleanAll(blank);
    CleanAllBlank(blank);
    CleanAllAppend(lines, blank);
    var w := JoinEmptyLines(CleanAll(lines), e);
    StripAppendSpace(JoinLines(CleanAll(lines)), w);
  }

  lemma CleanAllBlank(blank: seq<string>)
    requires forall l :: l in blank ==> AllSpace(l)
    ensures forall i :: 0 <= i < |blank| ==> CleanAll(blank)[i] == ""
  {
    forall i | 0 <= i < |blank|
      ensures CleanAll(blank)[i] == ""
    {
      assert blank[i] in blank;
      CleanBlank(blank[i]);
    }
  }

  lemma CleanAllAppend(a: seq<string>, b: seq<string>)
    ensures CleanAll(a + b) == CleanAll(a) + CleanAll(b)
  {
    EachAppend(Clean, a, b);
  }

  /** One empty line at the end of a block does not change its message. */
  lemma ContentFromEmptyLine(lines: seq<string>)
    ensures ContentFrom(lines + [""]) == ContentFrom(lines)
  {
    assert AllSpace("");
    assert forall l :: l in [""] ==> l == "";
    ContentFromBlankLines(lines, [""]);
  }

  /** Two blocks whose last lines clean alike give the same message. */
  lemma ContentFromLastLine(lines: seq<string>, y: string, z: string)
    requires Clean(y) == Clean(z)
    ensures ContentFrom(lines + [y]) == ContentFrom(lines + [z])
  {
    CleanAllLastLine(lines, y, z);
  }

  lemma CleanAllLastLine(lines: seq<string>, y: string, z: string)
    requires Clean(y) == Clean(z)
    ensures CleanAll(lines + [y]) == CleanAll(lines + [z])
  {
    CleanAllSnoc(lines, y);
    CleanAllSnoc(lines, z);
  }

  lemma CleanAllSnoc(lines: seq<string>, y: string)
    ensures CleanAll(lines + [y]) == CleanAll(lines) + [Clean(y)]
  {
    EachAppend(Clean, lines, [y]);
    assert Each(Clean, [y]) == [Clean(y)];
  }

  // ---------------------------------------------------------------------
  // Replies

  /** A quoted line is cleaned back to the stripped reply line. */
  lemma CleanQuoted(l: string)
    ensures Clean("> " + l) == Strip(l)
  {
    var q := "> " + l;
    assert q[1..] == " " + l;
    assert LStripChar(q, '>') == " " + l;
    assert (" " + l)[1..] == l;
    assert LStrip(" " + l) == LStrip(l);
  }

  /** The lines of a formatted reply are the reply's lines, each prefixed with
      "> ", so every one of them classifies as assistant. */
  lemma FormatReplyLines(text: string)
    ensures SplitLines(FormatReply(text)) == Quote(SplitLines(text))
    ensures forall l :: l in SplitLines(FormatReply(text)) ==> Classify(l) == Assistant
  {
    var ls := SplitLines(text);
    SplitLinesClean(text);
    var q := Quote(ls);
    forall l | l in q
      ensures NoBreaks(l)
    {
      var i :| 0 <= i < |q| && q[i] == l;
      assert l == "> " + ls[i];
      assert NoBreaks(ls[i]);
    }
    SplitJoin(q);
  }

  /** The message made from a formatted reply is the reply with each line
      stripped, then joined, stripped and collapsed. */
  lemma ContentOfQuoted(lines: seq<string>)
    ensures ContentFrom(Quote(lines)) == Collapse(Strip(JoinLines(StripAll(lines))))
  {
    forall i | 0 <= i < |lines|
      ensures CleanAll(Quote(lines))[i] == StripAll(lines)[i]
    {
      CleanQuoted(lines[i]);
    }
    assert CleanAll(Quote(lines)) == StripAll(lines);
  }

  function StripAll(lines: seq<string>): (r: seq<string>)
    ensures |r| == |lines| && forall i :: 0 <= i < |lines| ==> r[i] == Strip(lines[i])
  {
    seq(|lines|, i requires 0 <= i < |lines| => Strip(lines[i]))
  }

  // ---------------------------------------------------------------------
  // The text of a message

  /** The lines run together, with nothing between them. */
  function Flatten(ls: seq<string>): string {
    if ls == [] then [] else ls[0] + Flatten(ls[1..])
  }

  /** The text of a message is the text of its cleaned lines, in order:
      joining, stripping and collapsing change nothing but newlines. */
  lemma ContentFromText(lines: seq<string>)
    ensures DropNewlines(ContentFrom(lines)) == DropNewlines(Flatten(CleanAll(lines)))
  {
    var c := CleanAll(lines);
    forall i | 0 <= i < |c|
      ensures Trimmed(c[i])
    {
      CleanLine(lines[i]);
    }
    var j := JoinLines(c);
    var k := LStripJoined(c);
    RStripJoined(c[k..]);
    assert Strip(j) == RStrip(JoinLines(c[k..]));
    CollapseKeepsText(Strip(j));
    JoinDropNewlines(c);
  }

  /** A message is empty exactly when every line of its block cleans to
      nothing. */
  lemma ContentFromEmpty(lines: seq<string>)
    ensures ContentFrom(lines) == [] <==> forall i :: 0 <= i < |lines| ==> Clean(lines[i]) == []
  {
    var c := CleanAll(lines);
    forall i | 0 <= i < |c|
      ensures Trimmed(c[i])
    {
      CleanLine(lines[i]);
    }
    ContentFromText(lines);
    DropNewlinesTrimmed(ContentFrom(lines));
    FlattenBlank(c);
  }

  lemma {:induction false} JoinDropNewlines(c: seq<string>)
    ensures DropNewlines(JoinLines(c)) == DropNewlines(Flatten(c))
    decreases |c|
  {
    if |c| == 1 {
      assert c[1..] == [];
      AppendEmpty(c[0]);
    } else if |c| > 1 {
      var r := c[1..];
      JoinDropNewlines(r);
      DropNewlinesAppend(c[0] + "\n", JoinLines(r));
      DropNewlinesAppend(c[0], "\n");
      DropNewlinesAppend(c[0], Flatten(r));
      assert DropNewlines("\n") == [] by {
        assert "\n"[1..] == [];
      }
      AppendEmpty(DropNewlines(c[0]));
    }
  }

  /** Leading whitespace of joined trimmed lines is the newlines after its
      leading empty lines. */
  lemma {:induction false} LStripJoined(c: seq<string>) returns (k: nat)
    requires forall i :: 0 <= i < |c| ==> Trimmed(c[i])
    ensures k <= |c| && LStrip(JoinLines(c)) == JoinLines(c[k..])
    ensures DropNewlines(JoinLines(c[k..])) == DropNewlines(JoinLines(c))
    decreases |c|, 1
  {
    if |c| > 1 && c[0] == [] {
      k := LStripBlankFirst(c);
    } else {
      k := 0;
      TextFirstLine(c);
    }
  }

  lemma {:induction false} LStripBlankFirst(c: seq<string>) returns (k: nat)
    requires forall i :: 0 <= i < |c| ==> Trimmed(c[i])
    requires |c| > 1 && c[0] == []
    ensures k <= |c| && LStrip(JoinLines(c)) == JoinLines(c[k..])
    ensures DropNewlines(JoinLines(c[k..])) == DropNewlines(JoinLines(c))
    decreases |c|, 0
  {
    EmptyFirstLine(c);
    var k' := LStripJoined(c[1..]);
    k := k' + 1;
    assert c[1..][k'..] == c[k..];
  }

  lemma EmptyFirstLine(c: seq<string>)
    requires |c| > 1 && c[0] == []
    ensures LStrip(JoinLines(c)) == LStrip(JoinLines(c[1..]))
    ensures DropNewlines(JoinLines(c)) == DropNewlines(JoinLines(c[1..]))
  {
    var t := JoinLines(c[1..]);
    assert JoinLines(c) == [] + "\n" + t;
    AppendEmpty("\n");
    NewlineFirst(t);
  }

  /** A newline in front changes neither the stripped text nor the text
      without newlines. */
  lemma NewlineFirst(t: string)
    ensures LStrip("\n" + t) == LStrip(t)
    ensures DropNewlines("\n" + t) == DropNewlines(t)
  {
    assert ("\n" + t)[1..] == t;
  }

  lemma TextFirstLine(c: seq<string>)
    requires forall i :: 0 <= i < |c| ==> Trimmed(c[i])
    requires |c| <= 1 || c[0] != []
    ensures LStrip(JoinLines(c)) == JoinLines(c[0..])
  {
    assert c[0..] == c;
    if |c| > 1 {
      assert JoinLines(c)[0] == c[0][0];
    } else if |c| == 1 {
      assert Trimmed(c[0]);
    }
  }

  /** Trailing whitespace of joined trimmed lines is newlines. */
  lemma {:induction false} RStripJoined(c: seq<string>)
    requires forall i :: 0 <= i < |c| ==> Trimmed(c[i])
    ensures DropNewlines(RStrip(JoinLines(c))) == DropNewlines(JoinLines(c))
    decreases |c|
  {
    if |c| == 1 {
      assert Trimmed(c[0]);
    } else if |c| > 1 {
      var init, l := c[..|c| - 1], c[|c| - 1];
      SnocLast(c);
      JoinLinesSnoc(init, l);
      if l == [] {
        RStripJoined(init);
        EmptyLastLine(JoinLines(init));
      } else {
        assert Trimmed(l);
        TextLastLine(JoinLines(init), l);
      }
    }
  }

  lemma EmptyLastLine(j: string)
    ensures RStrip(j + "\n" + []) == RStrip(j)
    ensures DropNewlines(j + "\n" + []) == DropNewlines(j)
  {
    AppendEmpty(j + "\n");
    RStripAppendSpace(j, "\n");
    DropNewlinesAppend(j, "\n");
    assert DropNewlines("\n") == [] by {
      assert "\n"[1..] == [];
    }
    AppendEmpty(DropNewlines(j));
  }

  lemma TextLastLine(j: string, l: string)
    requires l != [] && !IsSpace(l[|l| - 1])
    ensures RStrip(j + "\n" + l) == j + "\n" + l
  {
    var s := j + "\n" + l;
    assert s[|s| - 1] == l[|l| - 1];
  }

  lemma DropNewlinesTrimmed(s: string)
    requires Trimmed(s)
    ensures DropNewlines(s) == [] <==> s == []
  {
  }

  lemma {:induction false} FlattenBlank(c: seq<string>)
    requires forall i :: 0 <= i < |c| ==> Trimmed(c[i])
    ensures DropNewlines(Flatten(c)) == [] <==> forall i :: 0 <= i < |c| ==> c[i] == []
    decreases |c|
  {
    if c != [] {
      var r := c[1..];
      FlattenBlank(r);
      DropNewlinesAppend(c[0], Flatten(r));
      DropNewlinesTrimmed(c[0]);
      assert (forall i :: 0 <= i < |c| ==> c[i] == [])
        <==> c[0] == [] && forall i :: 0 <= i < |r| ==> r[i] == [];
    }
  }
}
