/** `process`: the messages built from a document, the rule that decides
    whether a reply is wanted, and the document with the reply appended. The
    chat service itself is a parameter: `reply` is the text it answered. */
module ChatGptProcess {
  import opened PyStr
  import opened ChatGptText
  import opened ChatGptSegment

  /** The system message that opens every request. */
  const SystemPrompt := "You are a helpful assistant. Please don't kill me"

  /** One chat message: a role and its text. */
  datatype Message = Message(role: string, content: string)

  /** The messages sent for a document: the system message, then one message
      per part, with the value of the part's kind as its role. */
  function Messages(content: string): (ms: seq<Message>)
    ensures |ms| == |Parts(SplitLines(content))| + 1
    ensures ms[0] == Message("system", SystemPrompt)
    ensures forall i :: 1 <= i < |ms| ==> ms[i].role == "user" || ms[i].role == "assistant"
  {
    PartsAlternate(SplitLines(content));
    MessagesOf(Parts(SplitLines(content)))
  }

  /** The system message followed by one message per part. */
  function MessagesOf(ps: seq<Part>): (ms: seq<Message>)
    ensures |ms| == |ps| + 1
    ensures ms[0] == Message("system", SystemPrompt)
    ensures forall i :: 0 <= i < |ps| ==> ms[i + 1] == Message(KindValue(ps[i].kind), ps[i].content)
    ensures (forall p :: p in ps ==> IsMessageKind(p.kind)) ==>
      forall i :: 1 <= i < |ms| ==> ms[i].role == "user" || ms[i].role == "assistant"
  {
    [Message("system", SystemPrompt)] + seq(|ps|, i requires 0 <= i < |ps| => Message(KindValue(ps[i].kind), ps[i].content))
  }

  /** The service is asked only when the last message is not the assistant's. */
  predicate NeedsReply(content: string) {
    var ms := Messages(content);
    ms[|ms| - 1].role != KindValue(Assistant)
  }

  /** The document, stripped at its end, a blank line and the quoted reply. */
  function Appended(content: string, reply: string): string {
    RStrip(content) + "\n\n" + FormatReply(reply)
  }

  /** `process` with the service's answer given as `reply`. A document whose
      last message is the assistant's comes back unchanged; otherwise the
      quoted reply is appended, and it becomes one more assistant message. */
  function Process(content: string, reply: string): (r: string)
    ensures !NeedsReply(content) ==> r == content
    ensures NeedsReply(content) && reply != "" ==>
      Parts(SplitLines(r)) == Parts(SplitLines(content)) + [Part(Assistant, ContentFrom(Quote(SplitLines(reply))))]
    ensures NeedsReply(content) && reply == "" ==> Parts(SplitLines(r)) == Parts(SplitLines(content))
  {
    if !NeedsReply(content) then content
    else
      if reply == "" then
        AppendedEmptyReply(content);
        Appended(content, reply)
      else
        AppendedParts(content, reply);
        Appended(content, reply)
  }

  // ---------------------------------------------------------------------
  // When a reply is wanted

  /** A reply is wanted exactly when there is no message yet or the last
      message is the user's. */
  lemma NeedsReplyParts(content: string)
    ensures var ps := Parts(SplitLines(content));
      NeedsReply(content) <==> ps == [] || ps[|ps| - 1].kind == User
  {
    var ps := Parts(SplitLines(content));
    PartsAlternate(SplitLines(content));
    LastRole(ps);
  }

  lemma LastRole(ps: seq<Part>)
    requires forall p :: p in ps ==> IsMessageKind(p.kind)
    ensures var ms := MessagesOf(ps);
      ms[|ms| - 1].role != KindValue(Assistant) <==> ps == [] || ps[|ps| - 1].kind == User
  {
    var ms := MessagesOf(ps);
    if ps != [] {
      var i := |ps| - 1;
      assert ps[i] in ps;
      assert ms[i + 1] == Message(KindValue(ps[i].kind), ps[i].content);
    }
  }

  /** The same rule read off the document's lines: a reply is wanted exactly
      when no line is a user or assistant line, or the last such line is a
      user line. */
  lemma NeedsReplyLines(content: string)
    ensures var lines := SplitLines(content);
      var mk := MessageKinds(lines);
      NeedsReply(content) <==> mk == [] || mk[|mk| - 1] == User
  {
    NeedsReplyParts(content);
    PartsEnds(SplitLines(content));
  }

  // ---------------------------------------------------------------------
  // The appended reply

  /** Two segmenter states that yield the same parts once the document ends. */
  predicate SameParts(a: Scan, b: Scan) {
    PartsView(a) == PartsView(b)
  }

  /** What of a state decides the parts it yields: the open kind, the closed
      blocks, the message of the open block and whether it is empty. */
  function PartsView(a: Scan): (Kind, seq<Block>, string, bool) {
    (a.lastKind, a.closed, ContentFrom(a.block), a.block == [])
  }

  /** Two states that yield the same parts and whose open block is empty
      exactly before the first message, so that blank lines treat them alike. */
  predicate BeforeBlank(a: Scan, b: Scan) {
    && SameParts(a, b)
    && (a.lastKind == Undefined ==> a.block == [])
    && (a.lastKind != Undefined ==> a.block != [])
  }

  lemma SamePartsFinish(a: Scan, b: Scan)
    requires SameParts(a, b)
    ensures ToParts(Finish(a)) == ToParts(Finish(b))
  {
    if a.block != [] {
      ToPartsSnoc(a.closed, Block(a.lastKind, a.block));
      ToPartsSnoc(b.closed, Block(b.lastKind, b.block));
    }
  }

  /** Blank lines extend the open block, and are skipped before the first
      message. */
  lemma FeedBlankLines(st: Scan, blank: seq<string>)
    requires forall l :: l in blank ==> AllSpace(l)
    ensures st.lastKind == Undefined ==> Feed(st, blank) == st
    ensures st.lastKind != Undefined ==> Feed(st, blank) == Scan(st.lastKind, st.block + blank, st.closed)
  {
    if blank != [] {
      FeedRun(st, Space, blank);
    } else {
      AppendEmpty(st.block);
    }
  }

  /** One empty line is a blank run of its own. */
  lemma StepBlank(st: Scan)
    ensures st.lastKind == Undefined ==> Step(st, "") == st
    ensures st.lastKind != Undefined ==> Step(st, "") == Scan(st.lastKind, st.block + [""], st.closed)
  {
    ClassifyEmpty();
  }

  /** Trailing whitespace on the last line of the document does not change
      the state of the segmenter as far as the parts go. */
  lemma LastLineStep(st: Scan, x: string, tail: string)
    requires x != [] && !IsSpace(x[|x| - 1]) && AllSpace(tail)
    requires st.lastKind == Undefined ==> st.block == []
    requires st.lastKind != Undefined ==> st.block != []
    ensures BeforeBlank(Step(st, x + tail), Step(st, x))
  {
    ClassifyAppendSpace(x, tail);
    CleanAppendSpace(x, tail);
    AdvanceLastLine(st, Classify(x), x + tail, x);
    var a, b := Step(st, x + tail), Step(st, x);
    if a.block == st.block + [x + tail] && b.block == st.block + [x] {
      ContentFromLastLine(st.block, x + tail, x);
    } else if a.block == [x + tail] && b.block == [x] {
      AppendEmpty([x + tail]);
      AppendEmpty([x]);
      ContentFromLastLine([], x + tail, x);
    }
  }

  /** Advancing over one line or over another leaves states that differ at
      most in that line, at the end of the open block. */
  lemma AdvanceLastLine(st: Scan, k: Kind, y: string, z: string)
    requires k != Undefined
    requires st.lastKind == Undefined ==> st.block == []
    requires st.lastKind != Undefined ==> st.block != []
    ensures var a, b := Advance(st, k, [y]), Advance(st, k, [z]);
      && a.lastKind == b.lastKind && a.closed == b.closed
      && ((a.block == st.block + [y] && b.block == st.block + [z])
          || (a.block == [y] && b.block == [z])
          || (a.block == st.block && b.block == st.block))
      && (a.lastKind == Undefined ==> a.block == [])
      && (a.lastKind != Undefined ==> a.block != [])
  {
  }

  /** Blank lines at the end of the document and the single blank line
      `process` puts before the reply leave states that yield the same parts. */
  lemma TrailingBlank(a: Scan, b: Scan, blank: seq<string>)
    requires BeforeBlank(a, b)
    requires forall l :: l in blank ==> AllSpace(l)
    ensures SameParts(Feed(a, blank), Step(b, ""))
  {
    FeedBlankLines(a, blank);
    StepBlank(b);
    if a.lastKind != Undefined {
      BlankExtends(a, b, blank);
    } else {
      assert Feed(a, blank) == a && Step(b, "") == b;
    }
  }

  lemma BlankExtends(a: Scan, b: Scan, blank: seq<string>)
    requires SameParts(a, b) && a.block != []
    requires forall l :: l in blank ==> AllSpace(l)
    ensures SameParts(Scan(a.lastKind, a.block + blank, a.closed), Scan(b.lastKind, b.block + [""], b.closed))
  {
    ContentFromBlankLines(a.block, blank);
    ContentFromEmptyLine(b.block);
  }

  /** The open block is empty exactly before the first message. */
  lemma FeedOpenBlock(lines: seq<string>)
    ensures var st := Feed(Start, lines);
      && (st.lastKind == Undefined ==> st.block == [] && st.closed == [])
      && (st.lastKind != Undefined ==> st.block != [] && IsMessageKind(st.lastKind))
  {
    FeedInv(lines);
  }

  /** A last line with trailing whitespace followed by blank lines, and the
      same line without the whitespace followed by one empty line, leave
      states that yield the same parts. */
  lemma TrailingSpaceLines(pre: seq<string>, x: string, tail: string, blank: seq<string>,
                            spaced: seq<string>, single: seq<string>)
    requires x != [] && !IsSpace(x[|x| - 1]) && AllSpace(tail)
    requires forall l :: l in blank ==> AllSpace(l)
    requires spaced == pre + [x + tail] + blank && single == pre + [x] + [""]
    ensures SameParts(Feed(Start, spaced), Feed(Start, single))
  {
    var la, lb := pre + [x + tail], pre + [x];
    LastLineFed(pre, x, tail, la, lb);
    FedBlank(la, lb, blank, spaced, single);
  }

  lemma FedBlank(la: seq<string>, lb: seq<string>, blank: seq<string>, spaced: seq<string>, single: seq<string>)
    requires BeforeBlank(Feed(Start, la), Feed(Start, lb))
    requires forall l :: l in blank ==> AllSpace(l)
    requires spaced == la + blank && single == lb + [""]
    ensures SameParts(Feed(Start, spaced), Feed(Start, single))
  {
    TrailingBlank(Feed(Start, la), Feed(Start, lb), blank);
    FeedAppend(Start, la, blank);
    FeedSnoc(Start, lb, "");
  }

  /** LastLineStep for the lines of a whole document. */
  lemma LastLineFed(pre: seq<string>, x: string, tail: string, la: seq<string>, lb: seq<string>)
    requires x != [] && !IsSpace(x[|x| - 1]) && AllSpace(tail)
    requires la == pre + [x + tail] && lb == pre + [x]
    ensures BeforeBlank(Feed(Start, la), Feed(Start, lb))
  {
    FeedOpenBlock(pre);
    FeedSnoc(Start, pre, x + tail);
    FeedSnoc(Start, pre, x);
    LastLineStep(Feed(Start, pre), x, tail);
  }

  lemma FeedSnoc(st: Scan, lines: seq<string>, l: string)
    ensures Feed(st, lines + [l]) == Step(Feed(st, lines), l)
  {
    assert (lines + [l])[..|lines|] == lines;
  }

  /** The lines of a document and those of its stripped text followed by one
      blank line leave states that yield the same parts. */
  lemma RStripBlank(content: string)
    requires RStrip(content) != []
    ensures SameParts(Feed(Start, SplitLines(content)), Feed(Start, SplitLines(RStrip(content)) + [""]))
  {
    var pre, x, tail, blank := RStripLines(content);
    TrailingSpaceLines(pre, x, tail, blank, SplitLines(content), SplitLines(RStrip(content)) + [""]);
  }

  /** The lines of a document whose stripped text is not empty: those of the
      stripped text, the last one followed by whitespace, then blank lines. */
  lemma RStripLines(content: string) returns (pre: seq<string>, x: string, tail: string, blank: seq<string>)
    requires RStrip(content) != []
    ensures x != [] && !IsSpace(x[|x| - 1]) && AllSpace(tail)
    ensures forall l :: l in blank ==> AllSpace(l)
    ensures SplitLines(content) == pre + [x + tail] + blank
    ensures SplitLines(RStrip(content)) + [""] == pre + [x] + [""]
  {
    var r := RStrip(content);
    var w := content[|r|..];
    assert content == r + w;
    var rest;
    pre, x, tail, rest := SplitTrailing(r, w);
    blank := SplitLines(rest);
  }

  /** The lines of the appended document: the lines of the stripped document,
      a blank line, and the quoted lines of the reply. */
  lemma AppendedSplit(content: string, reply: string)
    ensures RStrip(content) == [] ==>
      SplitLines(Appended(content, reply)) == ["", ""] + Quote(SplitLines(reply))
    ensures RStrip(content) != [] ==>
      SplitLines(Appended(content, reply)) == SplitLines(RStrip(content)) + [""] + Quote(SplitLines(reply))
  {
    if RStrip(content) == [] {
      AppendedSplitBlank(content, reply);
    } else {
      AppendedSplitText(content, reply);
    }
  }

  lemma AppendedSplitBlank(content: string, reply: string)
    requires RStrip(content) == []
    ensures SplitLines(Appended(content, reply)) == ["", ""] + Quote(SplitLines(reply))
  {
    var f := FormatReply(reply);
    var q := Quote(SplitLines(reply));
    FormatReplyLines(reply);
    SplitNewlineFirst(f);
    assert Appended(content, reply) == "\n" + ("\n" + f);
    SplitNewlineFirst("\n" + f);
    AppendAssoc([""], [""], q);
    assert [""] + [""] == ["", ""];
  }

  lemma AppendedSplitText(content: string, reply: string)
    requires RStrip(content) != []
    ensures SplitLines(Appended(content, reply)) == SplitLines(RStrip(content)) + [""] + Quote(SplitLines(reply))
  {
    var r, f := RStrip(content), FormatReply(reply);
    FormatReplyLines(reply);
    SplitNewlineFirst(f);
    assert Appended(content, reply) == r + "\n" + ("\n" + f);
    RStripNoBreak(content);
    SplitAppend(r, "\n" + f);
    AppendAssoc(SplitLines(r), [""], Quote(SplitLines(reply)));
  }

  /** A segmenter state a reply can follow: nothing seen yet, or an open
      user message. */
  predicate OpenForReply(t: Scan) {
    && (t.lastKind == Undefined || t.lastKind == User)
    && (t.lastKind == Undefined ==> t.block == [] && t.closed == [])
    && (t.lastKind == User ==> t.block != [])
  }

  /** A reply run after a state that wants a reply becomes one more part. */
  lemma ReplyAfter(t1: Scan, t2: Scan, q: seq<string>)
    requires SameParts(t1, t2)
    requires OpenForReply(t2)
    requires q != []
    ensures ToParts(Finish(Advance(t2, Assistant, q))) == ToParts(Finish(t1)) + [Part(Assistant, ContentFrom(q))]
  {
    AdvanceReply(t2, q);
    ToPartsSnoc(Finish(t2), Block(Assistant, q));
    SamePartsFinish(t1, t2);
  }

  /** The reply run closes an open user block and becomes the open block. */
  lemma AdvanceReply(t: Scan, q: seq<string>)
    requires OpenForReply(t)
    requires q != []
    ensures Finish(Advance(t, Assistant, q)) == Finish(t) + [Block(Assistant, q)]
  {
    if t.lastKind == Undefined {
      AppendEmpty(q);
      assert Advance(t, Assistant, q) == Scan(Assistant, q, []);
      assert Finish(t) == [];
      assert Finish(Scan(Assistant, q, [])) == [] + [Block(Assistant, q)];
    }
  }

  /** A document all of whose text is whitespace has no parts. */
  lemma BlankDocument(content: string)
    requires AllSpace(content)
    ensures Parts(SplitLines(content)) == []
  {
    SplitSpaces(content);
    FeedNoMessage(SplitLines(content));
  }

  /** The lines of a non-empty reply, quoted, are assistant lines. */
  lemma QuotedReply(reply: string)
    requires reply != ""
    ensures var q := Quote(SplitLines(reply));
      q != [] && forall l :: l in q ==> Classify(l) == Assistant
  {
    FormatReplyLines(reply);
  }

  /** After a document that wants a reply, followed by one blank line, the
      segmenter has no open message or an open user message. */
  lemma WantsReplyState(content: string)
    requires NeedsReply(content) && RStrip(content) != []
    ensures OpenForReply(Feed(Start, SplitLines(RStrip(content)) + [""]))
  {
    RStripBlank(content);
    NeedsReplyParts(content);
    WantsReplyLines(SplitLines(content), SplitLines(RStrip(content)) + [""]);
  }

  lemma WantsReplyLines(lc: seq<string>, lr: seq<string>)
    requires SameParts(Feed(Start, lc), Feed(Start, lr))
    requires var ps := Parts(lc); ps == [] || ps[|ps| - 1].kind == User
    ensures OpenForReply(Feed(Start, lr))
  {
    PartsFed(lc);
    FeedOpenBlock(lr);
    OpenKindWantsReply(Feed(Start, lc), Feed(Start, lr));
  }

  lemma PartsFed(lines: seq<string>)
    ensures Parts(lines) == ToParts(Finish(Feed(Start, lines)))
  {
  }

  /** A state whose parts want a reply, seen through one with the same parts. */
  lemma OpenKindWantsReply(t1: Scan, t2: Scan)
    requires SameParts(t1, t2)
    requires t2.lastKind == Undefined ==> t2.block == [] && t2.closed == []
    requires t2.lastKind != Undefined ==> t2.block != [] && IsMessageKind(t2.lastKind)
    requires var ps := ToParts(Finish(t1)); ps == [] || ps[|ps| - 1].kind == User
    ensures OpenForReply(t2)
  {
    if t2.lastKind == Assistant {
      ToPartsSnoc(t1.closed, Block(Assistant, t1.block));
    }
  }

  /** The appended reply becomes exactly one more assistant part, the parts
      before it unchanged. */
  lemma AppendedParts(content: string, reply: string)
    requires NeedsReply(content) && reply != ""
    ensures Parts(SplitLines(Appended(content, reply))) ==
      Parts(SplitLines(content)) + [Part(Assistant, ContentFrom(Quote(SplitLines(reply))))]
  {
    if RStrip(content) == [] {
      AppendedToBlank(content, reply);
    } else {
      AppendedToText(content, reply);
    }
  }

  lemma AppendedToBlank(content: string, reply: string)
    requires reply != "" && RStrip(content) == []
    ensures Parts(SplitLines(Appended(content, reply))) ==
      Parts(SplitLines(content)) + [Part(Assistant, ContentFrom(Quote(SplitLines(reply))))]
  {
    var q := Quote(SplitLines(reply));
    AppendedSplitBlank(content, reply);
    QuotedReply(reply);
    BlankDocument(content);
    ReplyOnly(q);
    AppendEmpty([Part(Assistant, ContentFrom(q))]);
  }

  lemma AppendedToText(content: string, reply: string)
    requires NeedsReply(content) && reply != "" && RStrip(content) != []
    ensures Parts(SplitLines(Appended(content, reply))) ==
      Parts(SplitLines(content)) + [Part(Assistant, ContentFrom(Quote(SplitLines(reply))))]
  {
    AppendedSplitText(content, reply);
    QuotedReply(reply);
    WantsReplyState(content);
    ReplyAfterDocument(content, Quote(SplitLines(reply)));
  }

  /** Blank lines followed by a reply give the reply as the only part. */
  lemma ReplyOnly(q: seq<string>)
    requires q != [] && forall l :: l in q ==> Classify(l) == Assistant
    ensures Parts(["", ""] + q) == [Part(Assistant, ContentFrom(q))]
  {
    LeadingSkipped(["", ""], q);
    FeedRun(Start, Assistant, q);
    AppendEmpty(q);
    ToPartsSnoc([], Block(Assistant, q));
  }

  /** The reply after the stripped document and a blank line becomes one more
      part. */
  lemma ReplyAfterDocument(content: string, q: seq<string>)
    requires RStrip(content) != []
    requires q != [] && forall l :: l in q ==> Classify(l) == Assistant
    requires OpenForReply(Feed(Start, SplitLines(RStrip(content)) + [""]))
    ensures Parts(SplitLines(RStrip(content)) + [""] + q) == Parts(SplitLines(content)) + [Part(Assistant, ContentFrom(q))]
  {
    RStripBlank(content);
    ReplyAfterLines(SplitLines(content), SplitLines(RStrip(content)) + [""], q);
  }

  lemma ReplyAfterLines(lc: seq<string>, lr: seq<string>, q: seq<string>)
    requires SameParts(Feed(Start, lc), Feed(Start, lr))
    requires OpenForReply(Feed(Start, lr))
    requires q != [] && forall l :: l in q ==> Classify(l) == Assistant
    ensures Parts(lr + q) == Parts(lc) + [Part(Assistant, ContentFrom(q))]
  {
    var t2 := Feed(Start, lr);
    FeedAppend(Start, lr, q);
    FeedRun(t2, Assistant, q);
    ReplyAfter(Feed(Start, lc), t2, q);
  }

  /** An empty reply appends only blank lines, which change no part. */
  lemma AppendedEmptyReply(content: string)
    ensures Parts(SplitLines(Appended(content, ""))) == Parts(SplitLines(content))
  {
    AppendedSplit(content, "");
    assert Quote(SplitLines("")) == [];
    if RStrip(content) == [] {
      BlankDocument(content);
      FeedNoMessage(["", ""]);
      AppendEmpty(["", ""]);
    } else {
      var lr := SplitLines(RStrip(content)) + [""];
      RStripBlank(content);
      AppendEmpty(lr);
      SamePartsFinish(Feed(Start, SplitLines(content)), Feed(Start, lr));
    }
  }

  /** Once a reply is appended the conversation ends with the assistant, so
      processing the result again changes nothing. */
  lemma ProcessIdempotent(content: string, reply: string, next: string)
    requires reply != ""
    ensures Process(Process(content, reply), next) == Process(content, reply)
  {
    AnsweredNeedsNoReply(content, reply);
  }

  /** After a non-empty reply the last message is the assistant's. */
  lemma AnsweredNeedsNoReply(content: string, reply: string)
    requires reply != ""
    ensures !NeedsReply(Process(content, reply))
  {
    if NeedsReply(content) {
      var r := Process(content, reply);
      var ps, p := Parts(SplitLines(content)), Part(Assistant, ContentFrom(Quote(SplitLines(reply))));
      assert Parts(SplitLines(r)) == ps + [p];
      LastOfSnoc(ps, p);
      NeedsReplyParts(r);
    }
  }
}
