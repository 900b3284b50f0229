/**
 * What refresh does to a whole document, stated on its structure rather than
 * line by line. A document is a sequence of segments: a plain line, copied
 * as it is, or a block
 *
 *     <!-- ... [freshReadmeSource](PATH#TAG) ... -->    directive
 *     ...                                              gap lines
 *     ```                                              opening fence
 *     ...                                              placeholder lines
 *     ```                                              closing fence
 *
 * whose placeholder lines are replaced by the directive's payload.
 */
module Blocks {
  import opened Text
  import opened Base
  import opened Directive
  import opened Payloads
  import opened Rewriter

  datatype Block = Block(directive: string, gap: seq<string>, open: string, placeholder: seq<string>, close: string)

  datatype Segment = Plain(line: string) | Spliced(block: Block)

  /** A line between a directive and its opening fence: neither a fence nor another directive. */
  predicate GapLine(x: string) {
    !IsFence(x) && !IsDirective(x)
  }

  predicate BlockOk(b: Block) {
    && IsDirective(b.directive)
    && (forall x | x in b.gap :: GapLine(x))
    && IsFence(b.open)
    && (forall x | x in b.placeholder :: !IsFence(x))
    && IsFence(b.close)
  }

  predicate SegmentOk(s: Segment) {
    match s
    case Plain(x) => !IsDirective(x)
    case Spliced(b) => BlockOk(b)
  }

  predicate WellFormed(segs: seq<Segment>) {
    forall s | s in segs :: SegmentOk(s)
  }

  function BlockLines(b: Block): seq<string> {
    [b.directive] + b.gap + [b.open] + b.placeholder + [b.close]
  }

  function Lines(s: Segment): seq<string> {
    match s
    case Plain(x) => [x]
    case Spliced(b) => BlockLines(b)
  }

  /** The document the segments make up. */
  function Flatten(segs: seq<Segment>): seq<string>
    decreases |segs|
  {
    if segs == [] then [] else Flatten(segs[..|segs| - 1]) + Lines(segs[|segs| - 1])
  }

  function LinkOf(b: Block): Link
    requires IsDirective(b.directive)
  {
    Parse(b.directive).value
  }

  /** What a block turns into once its placeholder is replaced by the payload `p`. */
  function Splice(b: Block, p: string): string {
    b.directive + "\n" + Join(b.gap) + b.open + "\n" + p + b.close + "\n"
  }

  /** The text refresh writes for one segment, or the failure reading its payload. */
  function Render(env: Env, s: Segment): Result<string>
    requires SegmentOk(s)
  {
    match s
    case Plain(x) => Ok(x + "\n")
    case Spliced(b) =>
      match Payload(env, LinkOf(b))
      case Err(f) => Err(f)
      case Ok(p) => Ok(Splice(b, p))
  }

  /** The rendered segments one after another, or the first failure. */
  function RenderAll(env: Env, segs: seq<Segment>): Result<string>
    requires WellFormed(segs)
    decreases |segs|
  {
    if segs == [] then Ok([])
    else
      var n := |segs| - 1;
      assert segs[n] in segs;
      match RenderAll(env, segs[..n])
      case Err(f) => Err(f)
      case Ok(o) =>
        match Render(env, segs[n])
        case Err(f) => Err(f)
        case Ok(t) => Ok(o + t)
  }

  /** The loop run on as a Run: what follows a scan that stood at `r` after `base` lines. */
  function Drive(env: Env, docName: string, r: Run<Cfg>, lines: seq<string>, base: nat): Run<Cfg>
    decreases |lines|
  {
    if lines == [] then r
    else Drive(env, docName, StepRun(env, docName, r, lines[0], base + 1), lines[1..], base + 1)
  }

  /** Scanning a document in two parts: the second part continues from where the first stopped. */
  lemma {:induction false} ScanAppend(env: Env, docName: string, a: seq<string>, b: seq<string>)
    ensures Scan(env, docName, a + b) == Drive(env, docName, Scan(env, docName, a), b, |a|)
    decreases |b|
  {
    if b == [] {
      assert a + b == a;
    } else {
      assert a + b == (a + [b[0]]) + b[1..];
      ScanSnoc(env, docName, a, b[0]);
      ScanAppend(env, docName, a + [b[0]], b[1..]);
    }
  }

  lemma {:induction false} DriveAppend(env: Env, docName: string, r: Run<Cfg>, a: seq<string>, b: seq<string>, base: nat)
    ensures Drive(env, docName, r, a + b, base) == Drive(env, docName, Drive(env, docName, r, a, base), b, base + |a|)
    decreases |a|
  {
    if a != [] {
      assert (a + b)[1..] == a[1..] + b;
      DriveAppend(env, docName, StepRun(env, docName, r, a[0], base + 1), a[1..], b, base + 1);
    } else {
      assert a + b == b;
    }
  }

  lemma DriveOne(env: Env, docName: string, r: Run<Cfg>, x: string, base: nat)
    ensures Drive(env, docName, r, [x], base) == StepRun(env, docName, r, x, base + 1)
  {
    assert [x][1..] == [];
  }

  /** After a failure, nothing more happens. */
  lemma {:induction false} DriveFailed(env: Env, docName: string, f: Failure, lines: seq<string>, base: nat)
    ensures Drive(env, docName, Failed(f), lines, base) == Failed(f)
    decreases |lines|
  {
    if lines != [] {
      DriveFailed(env, docName, f, lines[1..], base + 1);
    }
  }

  /** A line that starts a fence cannot be a directive, which starts "<!--". */
  lemma FenceIsNotDirective(x: string)
    requires IsFence(x)
    ensures !IsDirective(x)
  {
    if IsDirective(x) {
      DirectiveIsNotFence(x);
    }
  }

  /** NORMAL: a line that is not a directive is copied, fence or not. */
  lemma StepPlain(env: Env, docName: string, out: string, x: string, i: nat)
    requires !IsDirective(x)
    ensures Step(env, docName, Start, out, x, i) == Running(Start, out + x + "\n")
  {
  }

  /** NORMAL: a directive is copied and remembered, and the machine waits for its fence. */
  lemma StepDirective(env: Env, docName: string, out: string, x: string, i: nat)
    requires IsDirective(x)
    ensures var link := Parse(x).value;
      Step(env, docName, Start, out, x, i) == Running(Cfg(Comment, link.tag, link.path), out + x + "\n")
  {
    DirectiveIsNotFence(x);
  }

  /** COMMENT: a gap line is copied and nothing else changes. */
  lemma StepGap(env: Env, docName: string, c: Cfg, out: string, x: string, i: nat)
    requires c.state == Comment && GapLine(x)
    ensures Step(env, docName, c, out, x, i) == Running(c, out + x + "\n")
  {
  }

  /** COMMENT: a second directive before the fence is "include in include". */
  lemma StepNested(env: Env, docName: string, c: Cfg, out: string, x: string, i: nat)
    requires c.state == Comment && IsDirective(x)
    ensures Step(env, docName, c, out, x, i) == Failed(Fatal(NestedInclude, docName, i))
  {
    DirectiveIsNotFence(x);
  }

  /** COMMENT: the opening fence is copied and the payload is due on the next line. */
  lemma StepOpen(env: Env, docName: string, c: Cfg, out: string, x: string, i: nat)
    requires c.state == Comment && IsFence(x)
    ensures Step(env, docName, c, out, x, i) == Running(c.(state := Fence), out + x + "\n")
  {
    FenceIsNotDirective(x);
  }

  /**
   * FENCE: the line after the opening fence first gets the payload written
   * before it; it is then dropped as a placeholder, or copied as the closing
   * fence.
   */
  lemma StepAfterOpen(env: Env, docName: string, c: Cfg, out: string, x: string, i: nat)
    requires c.state == Fence
    ensures var r := Step(env, docName, c, out, x, i);
      match Payload(env, Link(c.source, c.header))
      case Err(f) => r == Failed(f)
      case Ok(p) =>
        r == if IsFence(x) then Running(Start, out + p + x + "\n") else Running(Cfg(InsideFence, "", ""), out + p)
  {
    if IsFence(x) {
      FenceIsNotDirective(x);
    }
  }

  /** INSIDE_FENCE: a placeholder line is dropped. */
  lemma StepPlaceholder(env: Env, docName: string, out: string, x: string, i: nat)
    requires !IsFence(x)
    ensures Step(env, docName, Cfg(InsideFence, "", ""), out, x, i) == Running(Cfg(InsideFence, "", ""), out)
  {
  }

  /** INSIDE_FENCE: the closing fence is copied and the machine is back in NORMAL. */
  lemma StepClose(env: Env, docName: string, out: string, x: string, i: nat)
    requires IsFence(x)
    ensures Step(env, docName, Cfg(InsideFence, "", ""), out, x, i) == Running(Start, out + x + "\n")
  {
    FenceIsNotDirective(x);
  }

  lemma {:induction false} DriveGap(env: Env, docName: string, c: Cfg, out: string, gap: seq<string>, base: nat)
    requires c.state == Comment && forall x | x in gap :: GapLine(x)
    ensures Drive(env, docName, Running(c, out), gap, base) == Running(c, out + Join(gap))
    decreases |gap|
  {
    if gap != [] {
      StepGap(env, docName, c, out, gap[0], base + 1);
      assert forall x | x in gap[1..] :: x in gap;
      DriveGap(env, docName, c, out + gap[0] + "\n", gap[1..], base + 1);
      JoinAfter(out, gap);
    }
  }

  lemma JoinAfter(out: string, lines: seq<string>)
    requires lines != []
    ensures out + lines[0] + "\n" + Join(lines[1..]) == out + Join(lines)
  {
  }

  lemma {:induction false} DrivePlaceholder(env: Env, docName: string, out: string, ph: seq<string>, base: nat)
    requires forall x | x in ph :: !IsFence(x)
    ensures Drive(env, docName, Running(Cfg(InsideFence, "", ""), out), ph, base) == Running(Cfg(InsideFence, "", ""), out)
    decreases |ph|
  {
    if ph != [] {
      StepPlaceholder(env, docName, out, ph[0], base + 1);
      assert forall x | x in ph[1..] :: x in ph;
      DrivePlaceholder(env, docName, out, ph[1..], base + 1);
    }
  }

  /** From the line after the opening fence to the closing fence: the payload, then the closing fence. */
  lemma DriveFill(env: Env, docName: string, c: Cfg, out: string, ph: seq<string>, close: string, base: nat)
    requires c.state == Fence && IsFence(close) && forall x | x in ph :: !IsFence(x)
    ensures Drive(env, docName, Running(c, out), ph + [close], base) ==
      match Payload(env, Link(c.source, c.header))
      case Err(f) => Failed(f)
      case Ok(p) => Running(Start, out + p + close + "\n")
  {
    if ph == [] {
      assert ph + [close] == [close];
      DriveOne(env, docName, Running(c, out), close, base);
      StepAfterOpen(env, docName, c, out, close, base + 1);
    } else {
      assert ph + [close] == [ph[0]] + (ph[1..] + [close]);
      DriveAppend(env, docName, Running(c, out), [ph[0]], ph[1..] + [close], base);
      DriveOne(env, docName, Running(c, out), ph[0], base);
      StepAfterOpen(env, docName, c, out, ph[0], base + 1);
      match Payload(env, Link(c.source, c.header))
      case Err(f) =>
        DriveFailed(env, docName, f, ph[1..] + [close], base + 1);
      case Ok(p) =>
        DriveInside(env, docName, out + p, ph[1..], close, base + 1);
    }
  }

  lemma DriveInside(env: Env, docName: string, out: string, ph: seq<string>, close: string, base: nat)
    requires IsFence(close) && forall x | x in ph :: !IsFence(x)
    ensures Drive(env, docName, Running(Cfg(InsideFence, "", ""), out), ph + [close], base) == Running(Start, out + close + "\n")
  {
    DriveAppend(env, docName, Running(Cfg(InsideFence, "", ""), out), ph, [close], base);
    DrivePlaceholder(env, docName, out, ph, base);
    DriveOne(env, docName, Running(Cfg(InsideFence, "", ""), out), close, base + |ph|);
    StepClose(env, docName, out, close, base + |ph| + 1);
  }

  /** From the directive to the opening fence: all of it copied, and the payload due. */
  lemma DriveHead(env: Env, docName: string, out: string, d: string, gap: seq<string>, open: string, base: nat)
    requires IsDirective(d) && IsFence(open) && forall x | x in gap :: GapLine(x)
    ensures var link := Parse(d).value;
      Drive(env, docName, Running(Start, out), [d] + gap + [open], base) ==
        Running(Cfg(Fence, link.tag, link.path), out + d + "\n" + Join(gap) + open + "\n")
  {
    var link := Parse(d).value;
    var c := Cfg(Comment, link.tag, link.path);
    DriveAppend(env, docName, Running(Start, out), [d] + gap, [open], base);
    DriveAppend(env, docName, Running(Start, out), [d], gap, base);
    DriveOne(env, docName, Running(Start, out), d, base);
    StepDirective(env, docName, out, d, base + 1);
    DriveGap(env, docName, c, out + d + "\n", gap, base + 1);
    DriveOne(env, docName, Running(c, out + d + "\n" + Join(gap)), open, base + 1 + |gap|);
    StepOpen(env, docName, c, out + d + "\n" + Join(gap), open, base + 2 + |gap|);
  }

  /** A whole block: the splice of its payload, or the payload's failure. */
  lemma DriveBlock(env: Env, docName: string, out: string, b: Block, base: nat)
    requires BlockOk(b)
    ensures Drive(env, docName, Running(Start, out), BlockLines(b), base) ==
      match Payload(env, LinkOf(b))
      case Err(f) => Failed(f)
      case Ok(p) => Running(Start, out + Splice(b, p))
  {
    var head := [b.directive] + b.gap + [b.open];
    var link := LinkOf(b);
    var o := out + b.directive + "\n" + Join(b.gap) + b.open + "\n";
    BlockLinesSplit(b);
    DriveAppend(env, docName, Running(Start, out), head, b.placeholder + [b.close], base);
    DriveHead(env, docName, out, b.directive, b.gap, b.open, base);
    DriveFill(env, docName, Cfg(Fence, link.tag, link.path), o, b.placeholder, b.close, base + |head|);
    if Payload(env, link).Ok? {
      SpliceAfter(out, b, Payload(env, link).value);
    }
  }

  lemma BlockLinesSplit(b: Block)
    ensures BlockLines(b) == ([b.directive] + b.gap + [b.open]) + (b.placeholder + [b.close])
  {
  }

  lemma SpliceAfter(out: string, b: Block, p: string)
    ensures out + b.directive + "\n" + Join(b.gap) + b.open + "\n" + p + b.close + "\n" == out + Splice(b, p)
  {
  }

  /** One segment run from NORMAL: its rendering is written and the machine is back in NORMAL. */
  lemma DriveSegment(env: Env, docName: string, out: string, s: Segment, base: nat)
    requires SegmentOk(s)
    ensures Drive(env, docName, Running(Start, out), Lines(s), base) ==
      match Render(env, s)
      case Err(f) => Failed(f)
      case Ok(t) => Running(Start, out + t)
  {
    match s
    case Plain(x) =>
      DriveOne(env, docName, Running(Start, out), x, base);
      StepPlain(env, docName, out, x, base + 1);
    case Spliced(b) =>
      DriveBlock(env, docName, out, b, base);
  }

  /** The run of refresh's loop over a well-formed document, segment by segment. */
  lemma {:induction false} ScanFlatten(env: Env, docName: string, segs: seq<Segment>)
    requires WellFormed(segs)
    ensures Scan(env, docName, Flatten(segs)) ==
      match RenderAll(env, segs)
      case Err(f) => Failed(f)
      case Ok(o) => Running(Start, o)
    decreases |segs|
  {
    if segs != [] {
      var n := |segs| - 1;
      var init, s := segs[..n], segs[n];
      assert s in segs;
      assert forall t | t in init :: t in segs;
      ScanFlatten(env, docName, init);
      ScanAppend(env, docName, Flatten(init), Lines(s));
      match RenderAll(env, init)
      case Err(f) =>
        DriveFailed(env, docName, f, Lines(s), |Flatten(init)|);
      case Ok(o) =>
        DriveSegment(env, docName, o, s, |Flatten(init)|);
    }
  }

  /**
   * Pass-through and payload placement: refresh rewrites a well-formed document
   * into its segments' renderings: plain lines, directives, gap lines and both
   * fences copied in order with "\n" each, and every block's placeholder
   * replaced by its payload, once, between the fences; the first payload that
   * cannot be read is the failure.
   */
  lemma RewriteWellFormed(env: Env, docName: string, segs: seq<Segment>)
    requires WellFormed(segs)
    ensures Rewrite(env, docName, Flatten(segs)) == RenderAll(env, segs)
  {
    ScanFlatten(env, docName, segs);
  }
}
