/** `conversation_parts`: the lines of a Markdown conversation grouped into
    alternating user and assistant messages. */
module ChatGptSegment {
  import opened PyStr
  import opened ChatGptText

  /** Lines tagged with one kind: a run of `itertools.groupby`, or the lines a
      message is made from. */
  datatype Block = Block(kind: Kind, lines: seq<string>)

  /** One yielded `(kind, content)` pair. */
  datatype Part = Part(kind: Kind, content: string)

  /** The state of the segmenter between two runs: the kind of the open block
      (`Undefined` before the first message), its lines, and the blocks
      already flushed. */
  datatype Scan = Scan(lastKind: Kind, block: seq<string>, closed: seq<Block>)

  const Start := Scan(Undefined, [], [])

  predicate IsMessageKind(k: Kind) {
    k == User || k == Assistant
  }

  /** What the segmenter does with a run of `lines` of one `kind`: before the
      first message it skips everything but user and assistant runs; header
      runs are dropped; a run of the open block's kind or a blank run extends
      the open block; any other run flushes it and opens a new one. */
  function Advance(st: Scan, kind: Kind, lines: seq<string>): Scan {
    if st.lastKind == Undefined && !IsMessageKind(kind) then st
    else
      var last := if st.lastKind == Undefined then kind else st.lastKind;
      if kind == Header then st
      else if kind == last || kind == Space then Scan(last, st.block + lines, st.closed)
      else Scan(kind, lines, st.closed + [Block(last, st.block)])
  }

  /** The segmenter fed one line at a time. */
  function Step(st: Scan, line: string): Scan {
    Advance(st, Classify(line), [line])
  }

  function Feed(st: Scan, lines: seq<string>): Scan
    decreases |lines|
  {
    if lines == [] then st
    else Step(Feed(st, lines[..|lines| - 1]), lines[|lines| - 1])
  }

  /** The final flush: the open block is emitted when it holds any line. */
  function Finish(st: Scan): seq<Block> {
    if st.block != [] then st.closed + [Block(st.lastKind, st.block)] else st.closed
  }

  /** The blocks of a document, before their lines are normalised. */
  function Blocks(lines: seq<string>): seq<Block> {
    Finish(Feed(Start, lines))
  }

  /** The message a block yields: its kind and its normalised text. */
  function PartOf(b: Block): Part {
    Part(b.kind, ContentFrom(b.lines))
  }

  function ToParts(blocks: seq<Block>): (parts: seq<Part>)
    ensures |parts| == |blocks|
    ensures forall i :: 0 <= i < |blocks| ==> parts[i] == PartOf(blocks[i])
  {
    Each(PartOf, blocks)
  }

  /** What `conversation_parts` yields for a document's lines. */
  function Parts(lines: seq<string>): seq<Part> {
    ToParts(Blocks(lines))
  }

  // ---------------------------------------------------------------------
  // The reference the segmenter is characterised against

  /** The kinds of the user and assistant lines, in order. */
  function MessageKinds(lines: seq<string>): (ks: seq<Kind>)
    ensures forall k :: k in ks ==> IsMessageKind(k)
    ensures ks == [] <==> forall l :: l in lines ==> !IsMessageKind(Classify(l))
    decreases |lines|
  {
    if lines == [] then []
    else
      var init, l := lines[..|lines| - 1], lines[|lines| - 1];
      assert forall x :: x in lines ==> x in init || x == l;
      var k := Classify(l);
      if IsMessageKind(k) then MessageKinds(init) + [k] else MessageKinds(init)
  }

  predicate Alternating(ks: seq<Kind>) {
    forall i :: 0 <= i < |ks| - 1 ==> ks[i] != ks[i + 1]
  }

  /** `ks` with every run of equal neighbours reduced to one element. */
  function Compress(ks: seq<Kind>): (r: seq<Kind>)
    ensures |r| <= |ks|
    ensures r == [] <==> ks == []
    ensures ks != [] ==> r[0] == ks[0] && r[|r| - 1] == ks[|ks| - 1]
    ensures Alternating(r)
    ensures forall k :: k in r ==> k in ks
    decreases |ks|
  {
    if |ks| <= 1 then ks
    else
      var c := Compress(ks[..|ks| - 1]);
      assert forall k :: k in ks[..|ks| - 1] ==> k in ks;
      if ks[|ks| - 1] == ks[|ks| - 2] then c else c + [ks[|ks| - 1]]
  }

  /** The lines that end up in some message: every line from the first user or
      assistant line on, except the header lines. */
  function Relevant(lines: seq<string>): seq<string>
    decreases |lines|
  {
    if lines == [] then []
    else
      var init, l := lines[..|lines| - 1], lines[|lines| - 1];
      if Classify(l) == Header || MessageKinds(lines) == [] then Relevant(init)
      else Relevant(init) + [l]
  }

  /** The lines of `blocks`, one block after the other. */
  function Concat(blocks: seq<Block>): seq<string>
    decreases |blocks|
  {
    if blocks == [] then []
    else Concat(blocks[..|blocks| - 1]) + blocks[|blocks| - 1].lines
  }

  function KindOf(b: Block): Kind {
    b.kind
  }

  function KindsOf(blocks: seq<Block>): (ks: seq<Kind>)
    ensures |ks| == |blocks| && forall i :: 0 <= i < |blocks| ==> ks[i] == blocks[i].kind
  {
    Each(KindOf, blocks)
  }

  lemma KindsOfSnoc(blocks: seq<Block>, b: Block)
    ensures KindsOf(blocks + [b]) == KindsOf(blocks) + [b.kind]
  {
    EachAppend(KindOf, blocks, [b]);
    assert Each(KindOf, [b]) == [b.kind];
  }

  lemma ConcatSnoc(blocks: seq<Block>, b: Block)
    ensures Concat(blocks + [b]) == Concat(blocks) + b.lines
  {
    assert (blocks + [b])[..|blocks|] == blocks;
  }

  /** A message block: a user or assistant block that starts with a line of
      its own kind and otherwise holds only lines of its kind and blank lines. */
  predicate WellFormedBlock(b: Block) {
    && IsMessageKind(b.kind)
    && b.lines != []
    && Classify(b.lines[0]) == b.kind
    && forall l :: l in b.lines ==> Classify(l) == b.kind || Classify(l) == Space
  }

  // ---------------------------------------------------------------------
  // The segmenter's invariant

  /** What the segmenter knows of the kinds seen so far: nothing is open
      before the first message; afterwards the open block has the kind of
      the last message line, and the kinds of the closed blocks followed by
      it are the message kinds `mk` with repeats merged. */
  ghost predicate KindsInv(st: Scan, mk: seq<Kind>) {
    && (st.lastKind == Undefined <==> mk == [])
    && (st.lastKind == Undefined ==> st.block == [] && st.closed == [])
    && (st.lastKind != Undefined ==> st.lastKind == mk[|mk| - 1])
    && KindsOf(st.closed) + (if st.lastKind == Undefined then [] else [st.lastKind]) == Compress(mk)
  }

  /** Every block, open or closed, is a message block. */
  ghost predicate BlocksInv(st: Scan) {
    && (st.lastKind != Undefined ==> WellFormedBlock(Block(st.lastKind, st.block)))
    && (forall b :: b in st.closed ==> WellFormedBlock(b))
  }

  /** The closed blocks and the open one hold exactly the `relevant` lines. */
  ghost predicate LinesInv(st: Scan, relevant: seq<string>) {
    Concat(st.closed) + st.block == relevant
  }

  ghost predicate ScanInv(st: Scan, lines: seq<string>) {
    KindsInv(st, MessageKinds(lines)) && BlocksInv(st) && LinesInv(st, Relevant(lines))
  }

  lemma MessageKindsSnoc(lines: seq<string>, line: string)
    ensures IsMessageKind(Classify(line)) ==> MessageKinds(lines + [line]) == MessageKinds(lines) + [Classify(line)]
    ensures !IsMessageKind(Classify(line)) ==> MessageKinds(lines + [line]) == MessageKinds(lines)
  {
    SnocLast(lines + [line]);
    assert (lines + [line])[..|lines|] == lines;
  }

  lemma RelevantSnoc(lines: seq<string>, line: string)
    ensures Relevant(lines + [line]) ==
      if Classify(line) == Header || MessageKinds(lines + [line]) == [] then Relevant(lines)
      else Relevant(lines) + [line]
  {
    assert (lines + [line])[..|lines|] == lines;
  }

  lemma CompressSnoc(ks: seq<Kind>, k: Kind)
    requires ks != []
    ensures Compress(ks + [k]) == if ks[|ks| - 1] == k then Compress(ks) else Compress(ks) + [k]
  {
    assert (ks + [k])[..|ks|] == ks;
  }

  lemma StepInv(st: Scan, lines: seq<string>, line: string)
    requires ScanInv(st, lines)
    ensures ScanInv(Step(st, line), lines + [line])
  {
    var k := Classify(line);
    MessageKindsSnoc(lines, line);
    RelevantSnoc(lines, line);
    if (st.lastKind == Undefined && !IsMessageKind(k)) || k == Header {
      StepSkips(st, lines, line);
    } else if st.lastKind == Undefined {
      StepOpens(st, lines, line);
    } else if k == st.lastKind || k == Space {
      StepExtends(st, lines, line);
    } else {
      StepFlushes(st, lines, line);
    }
  }

  lemma StepSkips(st: Scan, lines: seq<string>, line: string)
    requires ScanInv(st, lines)
    requires (st.lastKind == Undefined && !IsMessageKind(Classify(line))) || Classify(line) == Header
    requires MessageKinds(lines + [line]) == MessageKinds(lines)
    requires Relevant(lines + [line]) == Relevant(lines)
    ensures ScanInv(Step(st, line), lines + [line])
  {
    AdvanceSkips(st, Classify(line), [line]);
  }

  lemma StepOpens(st: Scan, lines: seq<string>, line: string)
    requires ScanInv(st, lines) && st.lastKind == Undefined && IsMessageKind(Classify(line))
    requires MessageKinds(lines + [line]) == MessageKinds(lines) + [Classify(line)]
    requires Relevant(lines + [line]) == Relevant(lines) + [line]
    ensures ScanInv(Step(st, line), lines + [line])
  {
    var k := Classify(line);
    AdvanceOpens(st, k, [line]);
    KindsOpen(st, MessageKinds(lines), k);
    BlocksOpen(st, line);
    LinesExtend(st, Relevant(lines), line);
  }

  lemma StepExtends(st: Scan, lines: seq<string>, line: string)
    requires ScanInv(st, lines) && st.lastKind != Undefined
    requires Classify(line) == st.lastKind || Classify(line) == Space
    requires Classify(line) == Space ==> MessageKinds(lines + [line]) == MessageKinds(lines)
    requires Classify(line) != Space ==> MessageKinds(lines + [line]) == MessageKinds(lines) + [Classify(line)]
    requires Relevant(lines + [line]) == Relevant(lines) + [line]
    ensures ScanInv(Step(st, line), lines + [line])
  {
    var k := Classify(line);
    AdvanceExtends(st, k, [line]);
    if k == Space {
      KindsKeep(st, MessageKinds(lines), st.block + [line]);
    } else {
      KindsExtend(st, MessageKinds(lines), k, st.block + [line]);
    }
    BlocksExtend(st, line);
    LinesExtend(st, Relevant(lines), line);
  }

  lemma StepFlushes(st: Scan, lines: seq<string>, line: string)
    requires ScanInv(st, lines) && st.lastKind != Undefined
    requires IsMessageKind(Classify(line)) && Classify(line) != st.lastKind
    requires MessageKinds(lines + [line]) == MessageKinds(lines) + [Classify(line)]
    requires Relevant(lines + [line]) == Relevant(lines) + [line]
    ensures ScanInv(Step(st, line), lines + [line])
  {
    var k := Classify(line);
    AdvanceFlushes(st, k, [line]);
    KindsFlush(st, MessageKinds(lines), k, [line]);
    BlocksFlush(st, line);
    LinesFlush(st, Relevant(lines), line);
  }

  /** Runs before the first message and header runs change nothing. */
  lemma AdvanceSkips(st: Scan, kind: Kind, lines: seq<string>)
    requires (st.lastKind == Undefined && !IsMessageKind(kind)) || kind == Header
    ensures Advance(st, kind, lines) == st
  {
  }

  /** The first user or assistant run opens a block of its kind. */
  lemma AdvanceOpens(st: Scan, kind: Kind, lines: seq<string>)
    requires st.lastKind == Undefined && IsMessageKind(kind)
    ensures Advance(st, kind, lines) == Scan(kind, st.block + lines, st.closed)
  {
  }

  /** A run of the open block's kind, or a blank run, extends the block. */
  lemma AdvanceExtends(st: Scan, kind: Kind, lines: seq<string>)
    requires IsMessageKind(st.lastKind) && (kind == st.lastKind || kind == Space)
    ensures Advance(st, kind, lines) == Scan(st.lastKind, st.block + lines, st.closed)
  {
  }

  /** A message run of the other kind flushes the open block. */
  lemma AdvanceFlushes(st: Scan, kind: Kind, lines: seq<string>)
    requires IsMessageKind(st.lastKind) && IsMessageKind(kind) && kind != st.lastKind
    ensures Advance(st, kind, lines) == Scan(kind, lines, st.closed + [Block(st.lastKind, st.block)])
  {
  }

  lemma KindsOpen(st: Scan, mk: seq<Kind>, k: Kind)
    requires KindsInv(st, mk) && st.lastKind == Undefined && IsMessageKind(k)
    ensures forall block :: KindsInv(Scan(k, block, st.closed), mk + [k])
  {
    assert mk == [] && st.closed == [];
    AppendEmpty([k]);
    assert Compress([k]) == [k];
    assert KindsOf([]) == [];
  }

  lemma KindsKeep(st: Scan, mk: seq<Kind>, block: seq<string>)
    requires KindsInv(st, mk) && st.lastKind != Undefined
    ensures KindsInv(Scan(st.lastKind, block, st.closed), mk)
  {
  }

  lemma KindsExtend(st: Scan, mk: seq<Kind>, k: Kind, block: seq<string>)
    requires KindsInv(st, mk) && st.lastKind != Undefined && k == st.lastKind
    ensures KindsInv(Scan(st.lastKind, block, st.closed), mk + [k])
  {
    CompressSnoc(mk, k);
    assert (mk + [k])[|mk|] == k;
  }

  lemma KindsFlush(st: Scan, mk: seq<Kind>, k: Kind, block: seq<string>)
    requires KindsInv(st, mk) && st.lastKind != Undefined && IsMessageKind(k) && k != st.lastKind
    ensures KindsInv(Scan(k, block, st.closed + [Block(st.lastKind, st.block)]), mk + [k])
  {
    KindsOfSnoc(st.closed, Block(st.lastKind, st.block));
    CompressSnoc(mk, k);
    assert (mk + [k])[|mk|] == k;
    assert mk[|mk| - 1] != k;
  }

  lemma BlocksOpen(st: Scan, line: string)
    requires BlocksInv(st) && st.lastKind == Undefined && st.block == [] && IsMessageKind(Classify(line))
    ensures BlocksInv(Scan(Classify(line), st.block + [line], st.closed))
  {
    AppendEmpty([line]);
  }

  lemma BlocksExtend(st: Scan, line: string)
    requires BlocksInv(st) && st.lastKind != Undefined
    requires Classify(line) == st.lastKind || Classify(line) == Space
    ensures BlocksInv(Scan(st.lastKind, st.block + [line], st.closed))
  {
    BlockExtended(st.lastKind, st.block, line);
  }

  lemma BlocksFlush(st: Scan, line: string)
    requires BlocksInv(st) && st.lastKind != Undefined && IsMessageKind(Classify(line))
    ensures BlocksInv(Scan(Classify(line), [line], st.closed + [Block(st.lastKind, st.block)]))
  {
    var flushed := Block(st.lastKind, st.block);
    assert forall b :: b in st.closed + [flushed] ==> b in st.closed || b == flushed;
  }

  /** A line of the block's kind, or a blank line, keeps a message block well formed. */
  lemma BlockExtended(kind: Kind, block: seq<string>, line: string)
    requires WellFormedBlock(Block(kind, block))
    requires Classify(line) == kind || Classify(line) == Space
    ensures WellFormedBlock(Block(kind, block + [line]))
  {
    var lines := block + [line];
    assert lines[0] == block[0];
    forall l | l in lines
      ensures Classify(l) == kind || Classify(l) == Space
    {
      assert l in block || l == line;
    }
  }

  lemma LinesExtend(st: Scan, relevant: seq<string>, line: string)
    requires LinesInv(st, relevant)
    ensures forall k :: LinesInv(Scan(k, st.block + [line], st.closed), relevant + [line])
  {
    AppendAssoc(Concat(st.closed), st.block, [line]);
  }

  lemma LinesFlush(st: Scan, relevant: seq<string>, line: string)
    requires LinesInv(st, relevant)
    ensures forall k :: LinesInv(Scan(k, [line], st.closed + [Block(st.lastKind, st.block)]), relevant + [line])
  {
    ConcatSnoc(st.closed, Block(st.lastKind, st.block));
  }

  lemma {:induction false} FeedInv(lines: seq<string>)
    ensures ScanInv(Feed(Start, lines), lines)
    decreases |lines|
  {
    if lines == [] {
      assert KindsOf([]) == [];
    } else {
      var init := lines[..|lines| - 1];
      FeedInv(init);
      StepInv(Feed(Start, init), init, lines[|lines| - 1]);
      SnocLast(lines);
    }
  }

  /** The blocks of a document are message blocks; their kinds are the kinds
      of the document's user and assistant lines with repeats merged; and,
      one after the other, they hold exactly the lines from the first user or
      assistant line on, headers excepted. */
  lemma BlocksCharacterised(lines: seq<string>)
    ensures forall b :: b in Blocks(lines) ==> WellFormedBlock(b)
    ensures KindsOf(Blocks(lines)) == Compress(MessageKinds(lines))
    ensures Concat(Blocks(lines)) == Relevant(lines)
  {
    BlocksWellFormed(lines);
    BlocksKinds(lines);
    BlocksLines(lines);
  }

  lemma BlocksWellFormed(lines: seq<string>)
    ensures forall b :: b in Blocks(lines) ==> WellFormedBlock(b)
  {
    var st := Feed(Start, lines);
    FeedInv(lines);
    if st.block != [] {
      var last := Block(st.lastKind, st.block);
      assert forall b :: b in st.closed + [last] ==> b in st.closed || b == last;
    }
  }

  lemma BlocksKinds(lines: seq<string>)
    ensures KindsOf(Blocks(lines)) == Compress(MessageKinds(lines))
  {
    var st := Feed(Start, lines);
    FeedInv(lines);
    if st.block != [] {
      KindsOfSnoc(st.closed, Block(st.lastKind, st.block));
    } else {
      assert st.lastKind == Undefined;
      AppendEmpty(KindsOf(st.closed));
    }
  }

  lemma BlocksLines(lines: seq<string>)
    ensures Concat(Blocks(lines)) == Relevant(lines)
  {
    var st := Feed(Start, lines);
    FeedInv(lines);
    if st.block != [] {
      ConcatSnoc(st.closed, Block(st.lastKind, st.block));
    } else {
      AppendEmpty(Concat(st.closed));
    }
  }

  /** Each part has the kind of its block. */
  lemma PartKinds(blocks: seq<Block>)
    ensures |ToParts(blocks)| == |KindsOf(blocks)|
    ensures forall i :: 0 <= i < |blocks| ==> ToParts(blocks)[i].kind == KindsOf(blocks)[i]
  {
  }

  /** Every emitted kind is user or assistant, and no two neighbouring
      messages have the same kind. */
  lemma PartsAlternate(lines: seq<string>)
    ensures forall p :: p in Parts(lines) ==> IsMessageKind(p.kind)
    ensures forall i :: 0 <= i < |Parts(lines)| - 1 ==> Parts(lines)[i].kind != Parts(lines)[i + 1].kind
  {
    var bs := Blocks(lines);
    BlocksKinds(lines);
    PartKinds(bs);
    KindsAlternate(Parts(lines), KindsOf(bs), MessageKinds(lines));
  }

  lemma KindsAlternate(ps: seq<Part>, ks: seq<Kind>, mk: seq<Kind>)
    requires |ps| == |ks| && forall i :: 0 <= i < |ks| ==> ps[i].kind == ks[i]
    requires ks == Compress(mk) && forall k :: k in mk ==> IsMessageKind(k)
    ensures forall p :: p in ps ==> IsMessageKind(p.kind)
    ensures forall i :: 0 <= i < |ps| - 1 ==> ps[i].kind != ps[i + 1].kind
  {
    forall p | p in ps
      ensures IsMessageKind(p.kind)
    {
      var i :| 0 <= i < |ps| && ps[i] == p;
      assert ks[i] in ks;
    }
  }

  /** A document yields no message exactly when it has no user or assistant
      line; otherwise the first message has the kind of the first such line and
      the last message the kind of the last such line. */
  lemma PartsEnds(lines: seq<string>)
    ensures Parts(lines) == [] <==> forall l :: l in lines ==> !IsMessageKind(Classify(l))
    ensures var ps, mk := Parts(lines), MessageKinds(lines);
      ps != [] ==> ps[0].kind == mk[0] && ps[|ps| - 1].kind == mk[|mk| - 1]
  {
    var bs := Blocks(lines);
    BlocksKinds(lines);
    PartKinds(bs);
    KindsEnds(Parts(lines), KindsOf(bs), MessageKinds(lines));
  }

  lemma KindsEnds(ps: seq<Part>, ks: seq<Kind>, mk: seq<Kind>)
    requires |ps| == |ks| && forall i :: 0 <= i < |ks| ==> ps[i].kind == ks[i]
    requires ks == Compress(mk)
    ensures ps == [] <==> mk == []
    ensures ps != [] ==> ps[0].kind == mk[0] && ps[|ps| - 1].kind == mk[|mk| - 1]
  {
  }

  /** No message is made from an empty block, and every message starts with a
      line of its own kind and holds no line of the other kind. */
  lemma PartsFromMessageBlocks(lines: seq<string>)
    ensures |Parts(lines)| == |Blocks(lines)|
    ensures forall i :: 0 <= i < |Blocks(lines)| ==>
      && WellFormedBlock(Blocks(lines)[i])
      && Parts(lines)[i] == Part(Blocks(lines)[i].kind, ContentFrom(Blocks(lines)[i].lines))
  {
    BlocksWellFormed(lines);
    var bs := Blocks(lines);
    forall i | 0 <= i < |bs|
      ensures WellFormedBlock(bs[i])
    {
      assert bs[i] in bs;
    }
  }

  // ---------------------------------------------------------------------
  // Runs and lines

  lemma {:induction false} FeedAppend(st: Scan, a: seq<string>, b: seq<string>)
    ensures Feed(st, a + b) == Feed(Feed(st, a), b)
    decreases |b|
  {
    if b == [] {
      assert a + b == a;
    } else {
      var b' := b[..|b| - 1];
      FeedAppend(st, a, b');
      assert (a + b)[..|a + b| - 1] == a + b';
    }
  }

  lemma AdvanceTwice(st: Scan, kind: Kind, a: seq<string>, b: seq<string>)
    requires kind != Undefined && a != []
    ensures Advance(Advance(st, kind, a), kind, b) == Advance(st, kind, a + b)
  {
    if st.lastKind != Undefined || IsMessageKind(kind) {
      if kind != Header {
        var last := if st.lastKind == Undefined then kind else st.lastKind;
        if kind == last || kind == Space {
          assert st.block + a + b == st.block + (a + b);
        }
      }
    }
  }

  /** Handling a run of one kind at once is handling its lines one by one. */
  lemma {:induction false} FeedRun(st: Scan, kind: Kind, run: seq<string>)
    requires run != [] && forall l :: l in run ==> Classify(l) == kind
    ensures Feed(st, run) == Advance(st, kind, run)
    decreases |run|
  {
    var init, l := run[..|run| - 1], run[|run| - 1];
    assert Classify(l) == kind;
    SnocLast(run);
    if init == [] {
      AppendEmpty([l]);
    } else {
      assert forall x :: x in init ==> x in run;
      FeedRun(st, kind, init);
      AdvanceTwice(st, kind, init, [l]);
    }
  }

  lemma FeedNoMessage(lines: seq<string>)
    requires forall l :: l in lines ==> !IsMessageKind(Classify(l))
    ensures Feed(Start, lines) == Start
  {
    FeedInv(lines);
  }

  /** Header lines never matter: removing one leaves the blocks unchanged. */
  lemma HeaderIgnored(a: seq<string>, h: string, b: seq<string>)
    requires Classify(h) == Header
    ensures Blocks(a + [h] + b) == Blocks(a + b)
  {
    FeedAppend(Start, a + [h], b);
    FeedAppend(Start, a, b);
    assert (a + [h])[..|a|] == a;
  }

  /** Lines before the first user or assistant line produce no output. */
  lemma LeadingSkipped(a: seq<string>, b: seq<string>)
    requires forall l :: l in a ==> !IsMessageKind(Classify(l))
    ensures Blocks(a + b) == Blocks(b)
  {
    FeedAppend(Start, a, b);
    FeedNoMessage(a);
  }

  // ---------------------------------------------------------------------
  // The imperative segmenter

  lemma ToPartsSnoc(blocks: seq<Block>, b: Block)
    ensures ToParts(blocks + [b]) == ToParts(blocks) + [Part(b.kind, ContentFrom(b.lines))]
  {
    EachAppend(PartOf, blocks, [b]);
    assert Each(PartOf, [b]) == [PartOf(b)];
  }

  /** Feeding the lines of the runs up to `i + 1` is advancing over run `i`
      from the state reached after the runs up to `i`. */
  lemma RunAdvances(runs: seq<Block>, i: nat)
    requires i < |runs|
    requires forall r :: r in runs ==> IsRun(r)
    ensures Feed(Start, Concat(runs[..i + 1])) == Advance(Feed(Start, Concat(runs[..i])), runs[i].kind, runs[i].lines)
  {
    assert runs[i] in runs;
    assert runs[..i + 1][..i] == runs[..i];
    FeedAppend(Start, Concat(runs[..i]), runs[i].lines);
    FeedRun(Feed(Start, Concat(runs[..i])), runs[i].kind, runs[i].lines);
  }

  /** A run: lines of one kind, at least one. */
  predicate IsRun(r: Block) {
    r.lines != [] && forall l :: l in r.lines ==> Classify(l) == r.kind
  }

  /** No two neighbouring runs have the same kind, so none could be longer. */
  predicate Maximal(runs: seq<Block>) {
    forall i :: 0 <= i < |runs| - 1 ==> runs[i].kind != runs[i + 1].kind
  }

  /** A line of the last run's kind lengthens the last run. */
  lemma RunGrows(init: seq<Block>, last: Block, line: string)
    requires forall r :: r in init + [last] ==> IsRun(r)
    requires Maximal(init + [last]) && Classify(line) == last.kind
    ensures var runs := init + [Block(last.kind, last.lines + [line])];
      (forall r :: r in runs ==> IsRun(r)) && Maximal(runs)
  {
    RunGrowsRuns(init, last, line);
    RunGrowsMaximal(init, last, Block(last.kind, last.lines + [line]));
  }

  lemma RunGrowsRuns(init: seq<Block>, last: Block, line: string)
    requires forall r :: r in init + [last] ==> IsRun(r)
    requires Classify(line) == last.kind
    ensures forall r :: r in init + [Block(last.kind, last.lines + [line])] ==> IsRun(r)
  {
    var grown := Block(last.kind, last.lines + [line]);
    assert IsRun(last);
    assert forall l :: l in grown.lines ==> l in last.lines || l == line;
    forall r | r in init + [grown]
      ensures IsRun(r)
    {
      if r != grown {
        assert r in init;
        assert r in init + [last];
      }
    }
  }

  lemma RunGrowsMaximal(init: seq<Block>, last: Block, grown: Block)
    requires Maximal(init + [last]) && grown.kind == last.kind
    ensures Maximal(init + [grown])
  {
    var runs, before := init + [grown], init + [last];
    forall i | 0 <= i < |runs| - 1
      ensures runs[i].kind != runs[i + 1].kind
    {
      assert runs[i].kind == before[i].kind;
      assert runs[i + 1].kind == before[i + 1].kind;
    }
  }

  /** A line of another kind starts a new run. */
  lemma RunStarts(runs: seq<Block>, line: string)
    requires forall r :: r in runs ==> IsRun(r)
    requires Maximal(runs) && (runs == [] || runs[|runs| - 1].kind != Classify(line))
    ensures var runs' := runs + [Block(Classify(line), [line])];
      (forall r :: r in runs' ==> IsRun(r)) && Maximal(runs')
  {
    var single := Block(Classify(line), [line]);
    var runs' := runs + [single];
    assert forall r :: r in runs' ==> r in runs || r == single;
    assert forall i :: 0 <= i < |runs| ==> runs'[i] == runs[i];
  }

  /** `itertools.groupby(lines, key=classify)`: the lines cut into maximal
      runs of one kind. */
  method GroupBy(lines: seq<string>) returns (runs: seq<Block>)
    ensures Concat(runs) == lines
    ensures forall r :: r in runs ==> IsRun(r)
    ensures Maximal(runs)
  {
    runs := [];
    var i := 0;
    while i < |lines|
      invariant 0 <= i <= |lines|
      invariant Concat(runs) == lines[..i]
      invariant forall r :: r in runs ==> IsRun(r)
      invariant Maximal(runs)
    {
      var kind := Classify(lines[i]);
      TakeNext(lines, i);
      if runs != [] && runs[|runs| - 1].kind == kind {
        var init, last := runs[..|runs| - 1], runs[|runs| - 1];
        var grown := Block(kind, last.lines + [lines[i]]);
        SnocLast(runs);
        ConcatSnoc(init, last);
        ConcatSnoc(init, grown);
        AppendAssoc(Concat(init), last.lines, [lines[i]]);
        RunGrows(init, last, lines[i]);
        runs := init + [grown];
      } else {
        var single := Block(kind, [lines[i]]);
        ConcatSnoc(runs, single);
        RunStarts(runs, lines[i]);
        runs := runs + [single];
      }
      i := i + 1;
    }
    assert lines[..i] == lines;
  }

  /** `conversation_parts(lines)`: the messages of a document, in order. */
  method ConversationParts(lines: seq<string>) returns (parts: seq<Part>)
    ensures parts == Parts(lines)
    ensures forall p :: p in parts ==> IsMessageKind(p.kind)
    ensures forall i :: 0 <= i < |parts| - 1 ==> parts[i].kind != parts[i + 1].kind
    ensures parts == [] <==> forall l :: l in lines ==> !IsMessageKind(Classify(l))
  {
    var lastKind := Undefined;
    var block: seq<string> := [];
    parts := [];
    ghost var closed: seq<Block> := [];

    var runs := GroupBy(lines);
    for i := 0 to |runs|
      invariant Scan(lastKind, block, closed) == Feed(Start, Concat(runs[..i]))
      invariant parts == ToParts(closed)
    {
      var kind, group := runs[i].kind, runs[i].lines;
      RunAdvances(runs, i);
      if lastKind == Undefined {
        if !IsMessageKind(kind) {
          continue;
        }
        lastKind := kind;
      }
      if kind == Header {
        continue;
      }
      if kind == lastKind || kind == Space {
        block := block + group;
      } else {
        ToPartsSnoc(closed, Block(lastKind, block));
        parts := parts + [Part(lastKind, ContentFrom(block))];
        closed := closed + [Block(lastKind, block)];
        lastKind := kind;
        block := group;
      }
    }
    assert runs[..|runs|] == runs;
    if block != [] {
      ToPartsSnoc(closed, Block(lastKind, block));
      parts := parts + [Part(lastKind, ContentFrom(block))];
      closed := closed + [Block(lastKind, block)];
    }
    PartsAlternate(lines);
    PartsEnds(lines);
  }
}
