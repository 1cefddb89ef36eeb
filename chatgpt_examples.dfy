/** Worked conversations: what `conversation_parts` yields for a few small
    Markdown documents. */
module ChatGptExamples {
  import opened PyStr
  import opened ChatGptText
  import opened ChatGptSegment
  import opened ChatGptProcess

  // ---------------------------------------------------------------------
  // Documents written line by line

  /** The text of a file whose lines are `lines`, each ended by "\n". */
  function Document(lines: seq<string>): string {
    if lines == [] then [] else lines[0] + "\n" + Document(lines[1..])
  }

  /** Printable ASCII only. */
  predicate Plain(s: string) {
    forall c :: c in s ==> ' ' <= c <= '~'
  }

  lemma PlainNoBreaks(s: string)
    requires Plain(s)
    ensures NoBreaks(s)
  {
    forall i | 0 <= i < |s| ensures !IsLineBreak(s[i]) {
      assert s[i] in s;
    }
  }

  /** Splitting a document gives back its lines. */
  lemma {:induction false} SplitDocument(lines: seq<string>)
    requires forall l :: l in lines ==> Plain(l)
    ensures SplitLines(Document(lines)) == lines
    decreases |lines|
  {
    if lines != [] {
      var tail := lines[1..];
      assert forall l :: l in tail ==> l in lines;
      SplitDocument(tail);
      SplitLine(lines[0], Document(tail));
      assert [lines[0]] + tail == lines;
    }
  }

  /** The first line of a document is split off at its "\n". */
  lemma SplitLine(l: string, rest: string)
    requires Plain(l)
    ensures SplitLines(l + "\n" + rest) == [l] + SplitLines(rest)
  {
    if l == [] {
      assert l + "\n" + rest == "\n" + rest;
      SplitNewlineFirst(rest);
    } else {
      PlainNoBreaks(l);
      FirstBreakNone(l);
      assert SplitLines(l) == [l];
      SplitAppendLine(l, rest);
    }
  }

  // ---------------------------------------------------------------------
  // Messages of one or two plain lines

  /** A line that cleans to itself: plain, not quoted, no surrounding spaces. */
  predicate Tidy(l: string) {
    l != [] && l[0] != '>' && Plain(l) && Trimmed(l)
  }

  /** `strip()` leaves a stripped text alone. */
  lemma StripTrimmed(s: string)
    requires Trimmed(s)
    ensures Strip(s) == s
  {
    if s != [] {
      assert !IsSpace(s[0]) && !IsSpace(s[|s| - 1]);
    }
  }

  /** A tidy line is its own message text. */
  lemma CleanTidy(l: string)
    requires Tidy(l)
    ensures Clean(l) == l
  {
    assert LStripChar(l, '>') == l;
    StripTrimmed(l);
  }

  /** A text without line breaks has no run of newlines to collapse. */
  lemma NoRunWithoutBreaks(s: string)
    requires NoBreaks(s)
    ensures NoNewlineRun3(s)
  {
    forall i | 0 <= i < |s| ensures !NewlineRun3At(s, i) {
      assert IsLineBreak('\n');
    }
  }

  /** A message of one tidy line is that line. */
  lemma ContentFromTidyLine(l: string)
    requires Tidy(l)
    ensures ContentFrom([l]) == l
  {
    CleanTidy(l);
    assert CleanAll([l]) == [l];
    StripTrimmed(l);
    PlainNoBreaks(l);
    NoRunWithoutBreaks(l);
    CollapseFixpoint(l);
  }

  /** A quoted tidy line is the line without its "> ". */
  lemma ContentFromQuotedLine(l: string)
    requires Tidy(l)
    ensures ContentFrom(["> " + l]) == l
  {
    CleanQuoted(l);
    StripTrimmed(l);
    assert CleanAll(["> " + l]) == [l];
    PlainNoBreaks(l);
    NoRunWithoutBreaks(l);
    CollapseFixpoint(l);
  }

  /** A message of two tidy lines keeps them on two lines. */
  lemma ContentFromTidyLines(x: string, y: string)
    requires Tidy(x) && Tidy(y)
    ensures ContentFrom([x, y]) == x + "\n" + y
  {
    var s := x + "\n" + y;
    CleanAllTidy([x, y]);
    assert [x, y][1..] == [y];
    assert JoinLines([x, y]) == s;
    TrimmedJoin(x, y, s);
    StripTrimmed(s);
    PlainNoBreaks(x);
    PlainNoBreaks(y);
    OneBreakNoRun(x, y, s);
    CollapseFixpoint(s);
  }

  /** Lines that are all tidy are cleaned to themselves. */
  lemma CleanAllTidy(ls: seq<string>)
    requires forall l :: l in ls ==> Tidy(l)
    ensures CleanAll(ls) == ls
  {
    forall i | 0 <= i < |ls| ensures CleanAll(ls)[i] == ls[i] {
      CleanTidy(ls[i]);
    }
  }

  /** Two stripped lines joined by a newline make a stripped text. */
  lemma TrimmedJoin(x: string, y: string, s: string)
    requires x != [] && y != [] && Trimmed(x) && Trimmed(y) && s == x + "\n" + y
    ensures Trimmed(s)
  {
    assert s[0] == x[0] && s[|s| - 1] == y[|y| - 1];
  }

  /** Two lines without breaks joined by one newline have no run of three. */
  lemma OneBreakNoRun(x: string, y: string, s: string)
    requires NoBreaks(x) && NoBreaks(y) && s == x + "\n" + y
    ensures NoNewlineRun3(s)
  {
    forall i | 0 <= i < |s| && i != |x| ensures s[i] != '\n' {
      if i < |x| { assert s[i] == x[i]; } else { assert s[i] == y[i - |x| - 1]; }
    }
  }

  // ---------------------------------------------------------------------
  // Shapes of conversations

  /** A document without a header or blank line before its first message,
      whose only messages are a run of user lines, yields one user message. */
  lemma OneSpeaker(pre: seq<string>, us: seq<string>)
    requires forall l :: l in pre ==> !IsMessageKind(Classify(l))
    requires us != [] && forall l :: l in us ==> Classify(l) == User
    ensures Parts(pre + us) == [Part(User, ContentFrom(us))]
  {
    LeadingSkipped(pre, us);
    FeedRun(Start, User, us);
    AppendEmpty(us);
  }

  /** The messages of two blocks. */
  lemma TwoParts(b1: Block, b2: Block)
    ensures ToParts([b1, b2]) == [PartOf(b1), PartOf(b2)]
  { }

  /** A user line, the blank lines after it and an assistant line make two
      blocks: the question with its blank lines, and the answer. */
  lemma BlocksQuestionAnswer(u: string, blank: seq<string>, a: string, q: seq<string>)
    requires Classify(u) == User && Classify(a) == Assistant
    requires forall l :: l in blank ==> Classify(l) == Space
    requires q == [u] + blank
    ensures Blocks(q + [a]) == [Block(User, q), Block(Assistant, [a])]
  {
    FeedQuestion(u, blank);
    FeedAppend(Start, q, [a]);
    AnswerAfterQuestion(q, a);
  }

  /** An assistant line closes the open user block. */
  lemma AnswerAfterQuestion(q: seq<string>, a: string)
    requires Classify(a) == Assistant
    ensures Finish(Feed(Scan(User, q, []), [a])) == [Block(User, q), Block(Assistant, [a])]
  {
    FeedOne(Scan(User, q, []), a);
    assert [] + [Block(User, q)] == [Block(User, q)];
  }

  /** A user line and the blank lines after it make one open user block. */
  lemma FeedQuestion(u: string, blank: seq<string>)
    requires Classify(u) == User
    requires forall l :: l in blank ==> Classify(l) == Space
    ensures Feed(Start, [u] + blank) == Scan(User, [u] + blank, [])
  {
    FeedAppend(Start, [u], blank);
    FeedOne(Start, u);
    AppendEmpty([u]);
    if blank == [] {
      AppendEmpty([u]);
    } else {
      FeedRun(Scan(User, [u], []), Space, blank);
    }
  }

  /** The segmenter fed a single line. */
  lemma FeedOne(st: Scan, l: string)
    ensures Feed(st, [l]) == Advance(st, Classify(l), [l])
  {
    assert [l][..0] == [];
  }

  // ---------------------------------------------------------------------
  // Worked documents

  /** A tidy line that is not a header is a user line. */
  lemma ClassifyTidy(l: string)
    requires Tidy(l) && l[0] != '#'
    ensures Classify(l) == User
  {
    StripTrimmed(l);
  }

  /** The texts of documents of two and of five lines, written out. */
  lemma DocumentTwo(x: string, y: string)
    ensures Document([x, y]) == x + "\n" + y + "\n"
  {
    assert [x, y][1..] == [y];
    assert [y][1..] == [];
    assert Document([y]) == y + "\n" + [];
    AppendEmpty(y + "\n");
    AppendAssoc(x + "\n", y, "\n");
  }

  lemma DocumentFive(v: string, w: string, x: string, y: string, z: string)
    ensures Document([v, w, x, y, z]) == v + "\n" + w + "\n" + x + "\n" + y + "\n" + z + "\n"
  {
    var ls := [v, w, x, y, z];
    assert ls[1..] == [w, x, y, z] && ls[1..][1..] == [x, y, z];
    assert ls[1..][1..][1..] == [y, z];
    DocumentTwo(y, z);
    var d2 := y + "\n" + z + "\n";
    assert Document([x, y, z]) == x + "\n" + d2;
    assert Document([w, x, y, z]) == w + "\n" + (x + "\n" + d2);
    assert Document(ls) == v + "\n" + (w + "\n" + (x + "\n" + d2));
  }

  /** A title, then a question and its quoted answer, each followed by a
      blank line: the title is dropped, the blank lines do not reach the
      messages, and the answer loses its "> ". */
  lemma TitleThenExchange()
    ensures Parts(SplitLines("# Title\n\nHello\n\n> Hi there\n")) ==
      [Part(User, "Hello"), Part(Assistant, "Hi there")]
  {
    DocumentFive("# Title", "", "Hello", "", "> Hi there");
    assert "# Title" + "\n" + "" + "\n" + "Hello" + "\n" + "" + "\n" + "> Hi there" + "\n" == "# Title\n\nHello\n\n> Hi there\n";
    TitleLine();
    HelloLine();
    HiThereLine();
    BlankLine();
    ExchangeShape("# Title", "", "Hello", "> Hi there", "Hi there");
  }

  /** The shape of the first worked document: a header, a blank line, a user
      line, a blank line and a quoted line. */
  lemma ExchangeShape(h: string, b: string, u: string, a: string, reply: string)
    requires Plain(h) && Classify(h) == Header && Plain(b) && Classify(b) == Space
    requires Tidy(u) && Classify(u) == User
    requires Tidy(reply) && Plain(a) && Classify(a) == Assistant && a == "> " + reply
    ensures Parts(SplitLines(Document([h, b, u, b, a]))) == [Part(User, u), Part(Assistant, reply)]
  {
    SplitFive(h, b, u, b, a);
    ExchangeParts(h, b, u, a);
    ExchangeContents(b, u, a, reply);
  }

  /** A document of five plain lines splits back into them. */
  lemma SplitFive(a: string, b: string, c: string, d: string, e: string)
    requires Plain(a) && Plain(b) && Plain(c) && Plain(d) && Plain(e)
    ensures SplitLines(Document([a, b, c, d, e])) == [a, b, c, d, e]
  {
    SplitDocument([a, b, c, d, e]);
  }

  /** The lines before the question are skipped; the blank line after it
      stays with the question. */
  lemma ExchangeParts(h: string, b: string, u: string, a: string)
    requires Classify(h) == Header && Classify(b) == Space
    requires Classify(u) == User && Classify(a) == Assistant
    ensures Parts([h, b, u, b, a]) == [Part(User, ContentFrom([u] + [b])), Part(Assistant, ContentFrom([a]))]
  {
    var q := [u] + [b];
    FiveLines(h, b, u, b, a);
    SkipTwo(h, b, q + [a]);
    OneBlank(b);
    BlocksQuestionAnswer(u, [b], a, q);
    TwoParts(Block(User, q), Block(Assistant, [a]));
  }

  /** Two lines that hold no message before the rest are skipped. */
  lemma SkipTwo(x: string, y: string, rest: seq<string>)
    requires !IsMessageKind(Classify(x)) && !IsMessageKind(Classify(y))
    ensures Blocks([x, y] + rest) == Blocks(rest)
  {
    assert forall l :: l in [x, y] ==> l == x || l == y;
    LeadingSkipped([x, y], rest);
  }

  /** The texts of the two messages: the question without its blank line and
      the answer without its "> ". */
  lemma ExchangeContents(b: string, u: string, a: string, reply: string)
    requires Classify(b) == Space && Tidy(u) && Tidy(reply) && a == "> " + reply
    ensures ContentFrom([u] + [b]) == u && ContentFrom([a]) == reply
  {
    QuestionContent(u, b);
    ContentFromQuotedLine(reply);
  }

  /** A tidy question followed by a blank line is the question. */
  lemma QuestionContent(u: string, b: string)
    requires AllSpace(b) && Tidy(u)
    ensures ContentFrom([u] + [b]) == u
  {
    BlankLineContent([u], b);
    ContentFromTidyLine(u);
  }

  /** A trailing blank line adds nothing to a message. */
  lemma BlankLineContent(ls: seq<string>, b: string)
    requires AllSpace(b)
    ensures ContentFrom(ls + [b]) == ContentFrom(ls)
  {
    assert forall l :: l in [b] ==> l == b;
    ContentFromBlankLines(ls, [b]);
  }

  /** Two user lines in a row are one user message, still on two lines. */
  lemma ConsecutiveUserLines()
    ensures Parts(SplitLines("Question one.\nQuestion two still user.\n")) ==
      [Part(User, "Question one.\nQuestion two still user.")]
  {
    QuestionsJoined();
    QuestionsEnded();
    QuestionOneLine();
    QuestionTwoLine();
    TwoUserLines("Question one.", "Question two still user.", "Question one.\nQuestion two still user.");
  }

  /** The shape of the second worked document: two tidy user lines. */
  lemma TwoUserLines(x: string, y: string, j: string)
    requires Tidy(x) && Classify(x) == User && Tidy(y) && Classify(y) == User
    requires j == x + "\n" + y
    ensures Parts(SplitLines(j + "\n")) == [Part(User, j)]
  {
    DocumentTwo(x, y);
    SplitDocument([x, y]);
    AppendEmpty([x, y]);
    TwoUsers(x, y);
    OneSpeaker([], [x, y]);
    ContentFromTidyLines(x, y);
  }

  /** Three blank lines between a question and its answer: they stay with
      the question and vanish from its text. */
  lemma BlankLinesBeforeReply()
    ensures Parts(SplitLines("Q\n\n\n\n> A\n")) == [Part(User, "Q"), Part(Assistant, "A")]
  {
    DocumentFive("Q", "", "", "", "> A");
    assert "Q" + "\n" + "" + "\n" + "" + "\n" + "" + "\n" + "> A" + "\n" == "Q\n\n\n\n> A\n";
    QLine();
    ALine();
    BlankLine();
    ReplyAfterBlanks("Q", "", "> A", "A");
  }

  /** The shape of the third worked document: a user line, three blank
      lines and a quoted line. */
  lemma ReplyAfterBlanks(u: string, b: string, a: string, reply: string)
    requires Tidy(u) && Classify(u) == User && Plain(b) && Classify(b) == Space
    requires Tidy(reply) && Plain(a) && Classify(a) == Assistant && a == "> " + reply
    ensures Parts(SplitLines(Document([u, b, b, b, a]))) == [Part(User, u), Part(Assistant, reply)]
  {
    SplitFive(u, b, b, b, a);
    ReplyAfterBlanksParts(u, b, a);
    ReplyAfterBlanksContents(u, b, a, reply);
  }

  /** The three blank lines stay with the question. */
  lemma ReplyAfterBlanksParts(u: string, b: string, a: string)
    requires Classify(u) == User && Classify(b) == Space && Classify(a) == Assistant
    ensures Parts([u, b, b, b, a]) == [Part(User, ContentFrom([u] + [b, b, b])), Part(Assistant, ContentFrom([a]))]
  {
    var q := [u] + [b, b, b];
    QuestionFirst(u, b, b, b, a);
    ThreeBlanks(b);
    BlocksQuestionAnswer(u, [b, b, b], a, q);
    TwoParts(Block(User, q), Block(Assistant, [a]));
  }

  /** The texts of its two messages. */
  lemma ReplyAfterBlanksContents(u: string, b: string, a: string, reply: string)
    requires Classify(b) == Space && Tidy(u) && Tidy(reply) && a == "> " + reply
    ensures ContentFrom([u] + [b, b, b]) == u && ContentFrom([a]) == reply
  {
    ThreeSpaces(b);
    ContentFromBlankLines([u], [b, b, b]);
    ContentFromTidyLine(u);
    ContentFromQuotedLine(reply);
  }

  // ---------------------------------------------------------------------
  // Facts about the literal lines
  //
  // The worked documents above are proved from their general shapes; what
  // ties a shape to a literal document is the handful of facts below about
  // each literal line and text. Each is its own lemma so that the verifier
  // evaluates a string literal with nothing else in view, which keeps it
  // cheap; beside the shape lemmas' contracts the same facts cost far more.

  /** The lines of the first and third worked documents. */
  lemma TitleLine() ensures Plain("# Title") && Classify("# Title") == Header {
    assert "# Title"[0] == '#';
  }

  lemma HelloLine() ensures Tidy("Hello") && Classify("Hello") == User {
    ClassifyTidy("Hello");
  }

  lemma HiThereLine()
    ensures Tidy("Hi there") && Plain("> Hi there") && Classify("> Hi there") == Assistant
    ensures "> Hi there" == "> " + "Hi there"
  {
    assert "> Hi there"[0] == '>';
  }

  lemma BlankLine() ensures Plain("") && Classify("") == Space { ClassifyEmpty(); }

  /** The text and the lines of the second worked document. */
  lemma QuestionsJoined()
    ensures "Question one." + "\n" + "Question two still user." == "Question one.\nQuestion two still user."
  { }

  lemma QuestionsEnded()
    ensures "Question one.\nQuestion two still user." + "\n" == "Question one.\nQuestion two still user.\n"
  { }

  lemma QuestionOneLine() ensures Tidy("Question one.") && Classify("Question one.") == User {
    ClassifyTidy("Question one.");
  }

  lemma QuestionTwoLine() ensures Tidy("Question two still user.") && Classify("Question two still user.") == User {
    ClassifyTidy("Question two still user.");
  }

  lemma QLine() ensures Tidy("Q") && Classify("Q") == User {
    QTidy();
    ClassifyTidy("Q");
  }

  lemma QTidy() ensures Tidy("Q") { }
  lemma ALine() ensures Tidy("A") && Plain("> A") && Classify("> A") == Assistant && "> A" == "> " + "A" { }

  // ---------------------------------------------------------------------
  // Small displays spelled out
  //
  // How a display of three or five elements regroups, and what membership
  // in a display of one or three copies means. Each is proved on its own,
  // for any elements, so that the lemmas using them need not rediscover
  // these facts among many others.

  lemma FiveLines<T>(v: T, w: T, x: T, y: T, z: T)
    ensures [v, w, x, y, z] == [v, w] + ([x] + [y] + [z])
  { }

  /** Membership in small displays of lines, spelled out. */
  lemma OneBlank(b: string)
    requires Classify(b) == Space
    ensures forall l :: l in [b] ==> Classify(l) == Space
  { }

  lemma TwoUsers(x: string, y: string)
    requires Classify(x) == User && Classify(y) == User
    ensures forall l :: l in [x, y] ==> Classify(l) == User
  { }

  lemma QuestionFirst<T>(v: T, w: T, x: T, y: T, z: T)
    ensures [v, w, x, y, z] == [v] + [w, x, y] + [z]
  { }

  lemma ThreeBlanks(b: string)
    requires Classify(b) == Space
    ensures forall l :: l in [b, b, b] ==> Classify(l) == Space
  { }

  lemma ThreeSpaces(b: string)
    requires AllSpace(b)
    ensures forall l :: l in [b, b, b] ==> AllSpace(l)
  { }

  // ---------------------------------------------------------------------
  // What `process` does with them

  /** A document whose last message is the assistant's is left as it is,
      whatever the service would answer. */
  lemma AnsweredDocumentUnchanged(reply: string)
    ensures Process("# Title\n\nHello\n\n> Hi there\n", reply) == "# Title\n\nHello\n\n> Hi there\n"
  {
    TitleThenExchange();
    NeedsReplyParts("# Title\n\nHello\n\n> Hi there\n");
  }

  /** A document that ends with the user's lines is sent to the service. */
  lemma QuestionNeedsReply()
    ensures NeedsReply("Question one.\nQuestion two still user.\n")
  {
    ConsecutiveUserLines();
    NeedsReplyParts("Question one.\nQuestion two still user.\n");
  }
}
