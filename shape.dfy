/**
 * The converse of Blocks.RewriteWellFormed: every document refresh gets
 * through is a sequence of plain lines and blocks followed by at most one
 * block that is not finished yet, and refresh accepts it exactly when there
 * is no such unfinished block. The failures of the document itself
 * ("Unexpected end of file", "Unable to process include in include") are
 * read off the same shape.
 */
module Shape {
  import opened Text
  import opened Base
  import opened Directive
  import opened Payloads
  import opened Rewriter
  import opened Blocks

  /** The part of a block refresh has read when the document stops or the next line comes. */
  datatype Pending =
    | Idle
    | Awaiting(d: string, gap: seq<string>)
    | Opened(d: string, gap: seq<string>, open: string)
    | Filling(d: string, gap: seq<string>, open: string, placeholder: seq<string>)

  predicate HeadOk(d: string, gap: seq<string>) {
    IsDirective(d) && forall x | x in gap :: GapLine(x)
  }

  predicate PendingOk(env: Env, pend: Pending) {
    match pend
    case Idle => true
    case Awaiting(d, gap) => HeadOk(d, gap)
    case Opened(d, gap, open) => HeadOk(d, gap) && IsFence(open)
    case Filling(d, gap, open, ph) =>
      && HeadOk(d, gap) && IsFence(open)
      && ph != [] && (forall x | x in ph :: !IsFence(x))
      && Payload(env, Parse(d).value).Ok?
  }

  function PendingLines(pend: Pending): seq<string> {
    match pend
    case Idle => []
    case Awaiting(d, gap) => [d] + gap
    case Opened(d, gap, open) => [d] + gap + [open]
    case Filling(d, gap, open, ph) => [d] + gap + [open] + ph
  }

  /** The loop's variables while the block is unfinished. */
  function PendingCfg(env: Env, pend: Pending): Cfg
    requires PendingOk(env, pend)
  {
    match pend
    case Idle => Start
    case Awaiting(d, _) => Cfg(Comment, Parse(d).value.tag, Parse(d).value.path)
    case Opened(d, _, _) => Cfg(Fence, Parse(d).value.tag, Parse(d).value.path)
    case Filling(_, _, _, _) => Cfg(InsideFence, "", "")
  }

  /** What refresh has written for the unfinished block. */
  function PendingOut(env: Env, pend: Pending): string
    requires PendingOk(env, pend)
  {
    match pend
    case Idle => []
    case Awaiting(d, gap) => d + "\n" + Join(gap)
    case Opened(d, gap, open) => d + "\n" + Join(gap) + open + "\n"
    case Filling(d, gap, open, _) => d + "\n" + Join(gap) + open + "\n" + Payload(env, Parse(d).value).value
  }

  /** The shape of a document read so far, and where refresh stands after it. */
  predicate Reading(env: Env, docName: string, lines: seq<string>, segs: seq<Segment>, pend: Pending) {
    && WellFormed(segs) && RenderAll(env, segs).Ok? && PendingOk(env, pend)
    && lines == Flatten(segs) + PendingLines(pend)
    && Scan(env, docName, lines) == Running(PendingCfg(env, pend), RenderAll(env, segs).value + PendingOut(env, pend))
  }

  lemma FlattenSnoc(segs: seq<Segment>, s: Segment)
    ensures Flatten(segs + [s]) == Flatten(segs) + Lines(s)
  {
    assert (segs + [s])[..|segs|] == segs;
  }

  lemma RenderAllSnoc(env: Env, segs: seq<Segment>, s: Segment)
    requires WellFormed(segs) && SegmentOk(s) && RenderAll(env, segs).Ok? && Render(env, s).Ok?
    ensures WellFormed(segs + [s])
    ensures RenderAll(env, segs + [s]) == Ok(RenderAll(env, segs).value + Render(env, s).value)
  {
    assert (segs + [s])[..|segs|] == segs;
  }

  lemma ReadingIntro(env: Env, docName: string, lines: seq<string>, segs: seq<Segment>, pend: Pending, c: Cfg, o: string, rendered: string)
    requires WellFormed(segs) && RenderAll(env, segs) == Ok(rendered) && PendingOk(env, pend)
    requires lines == Flatten(segs) + PendingLines(pend)
    requires c == PendingCfg(env, pend) && o == rendered + PendingOut(env, pend)
    requires Scan(env, docName, lines) == Running(c, o)
    ensures Reading(env, docName, lines, segs, pend)
  {
  }

  lemma Assoc(a: string, b: string, c: string)
    ensures a + b + c == a + (b + c)
  {
  }

  lemma LinesAssoc(a: seq<string>, b: seq<string>, c: seq<string>)
    ensures a + b + c == a + (b + c)
  {
  }

  /** A finished block joins the segments, and nothing is pending any more. */
  lemma CloseBlock(env: Env, docName: string, lines: seq<string>, segs: seq<Segment>, b: Block, p: string)
    requires WellFormed(segs) && RenderAll(env, segs).Ok? && BlockOk(b) && Payload(env, LinkOf(b)) == Ok(p)
    requires lines == Flatten(segs) + BlockLines(b)
    requires Scan(env, docName, lines) == Running(Start, RenderAll(env, segs).value + Splice(b, p))
    ensures Reading(env, docName, lines, segs + [Spliced(b)], Idle)
  {
    var r := RenderAll(env, segs).value + Splice(b, p);
    FlattenSnoc(segs, Spliced(b));
    RenderAllSnoc(env, segs, Spliced(b));
    assert lines == Flatten(segs + [Spliced(b)]) + [];
    assert r == r + [];
    ReadingIntro(env, docName, lines, segs + [Spliced(b)], Idle, Start, r, r);
  }

  /** NORMAL: a directive opens a block. */
  lemma IdleDirective(env: Env, docName: string, lines: seq<string>, segs: seq<Segment>, x: string)
    requires Reading(env, docName, lines, segs, Idle) && IsDirective(x)
    ensures Reading(env, docName, lines + [x], segs, Awaiting(x, []))
  {
    var r := RenderAll(env, segs).value;
    var pend := Awaiting(x, []);
    ScanSnoc(env, docName, lines, x);
    assert r + [] == r;
    StepDirective(env, docName, r, x, |lines| + 1);
    JoinOne(x);
    assert x + "\n" == PendingOut(env, pend);
    Assoc(r, x, "\n");
    assert lines == Flatten(segs) + [];
    ReadingIntro(env, docName, lines + [x], segs, pend, PendingCfg(env, pend), r + (x + "\n"), r);
  }

  /** NORMAL: any other line is a plain segment. */
  lemma IdlePlain(env: Env, docName: string, lines: seq<string>, segs: seq<Segment>, x: string)
    requires Reading(env, docName, lines, segs, Idle) && !IsDirective(x)
    ensures Reading(env, docName, lines + [x], segs + [Plain(x)], Idle)
  {
    var r := RenderAll(env, segs).value;
    ScanSnoc(env, docName, lines, x);
    assert r + [] == r;
    StepPlain(env, docName, r, x, |lines| + 1);
    FlattenSnoc(segs, Plain(x));
    RenderAllSnoc(env, segs, Plain(x));
    Assoc(r, x, "\n");
    var r' := r + (x + "\n");
    assert r' == r' + [];
    assert lines == Flatten(segs) + [];
    assert lines + [x] == Flatten(segs + [Plain(x)]) + [];
    ReadingIntro(env, docName, lines + [x], segs + [Plain(x)], Idle, Start, r', r');
  }

  /** COMMENT: another directive before the fence fails. */
  lemma AwaitingNested(env: Env, docName: string, lines: seq<string>, segs: seq<Segment>, d: string, gap: seq<string>, x: string)
    requires Reading(env, docName, lines, segs, Awaiting(d, gap)) && IsDirective(x)
    ensures Scan(env, docName, lines + [x]) == Failed(Fatal(NestedInclude, docName, |lines| + 1))
  {
    var pend := Awaiting(d, gap);
    ScanSnoc(env, docName, lines, x);
    StepNested(env, docName, PendingCfg(env, pend), RenderAll(env, segs).value + PendingOut(env, pend), x, |lines| + 1);
  }

  /** COMMENT: the opening fence. */
  lemma AwaitingOpen(env: Env, docName: string, lines: seq<string>, segs: seq<Segment>, d: string, gap: seq<string>, x: string)
    requires Reading(env, docName, lines, segs, Awaiting(d, gap)) && IsFence(x)
    ensures Reading(env, docName, lines + [x], segs, Opened(d, gap, x))
  {
    var r := RenderAll(env, segs).value;
    var pend, pend' := Awaiting(d, gap), Opened(d, gap, x);
    var a := PendingOut(env, pend);
    ScanSnoc(env, docName, lines, x);
    StepOpen(env, docName, PendingCfg(env, pend), r + a, x, |lines| + 1);
    assert PendingOut(env, pend') == a + x + "\n";
    Assoc(r, a, x + "\n");
    Assoc(a, x, "\n");
    LinesAssoc(Flatten(segs), [d] + gap, [x]);
    ReadingIntro(env, docName, lines + [x], segs, pend', PendingCfg(env, pend'), r + PendingOut(env, pend'), r);
  }

  /** COMMENT: one more gap line. */
  lemma AwaitingGap(env: Env, docName: string, lines: seq<string>, segs: seq<Segment>, d: string, gap: seq<string>, x: string)
    requires Reading(env, docName, lines, segs, Awaiting(d, gap)) && GapLine(x)
    ensures Reading(env, docName, lines + [x], segs, Awaiting(d, gap + [x]))
  {
    var r := RenderAll(env, segs).value;
    var pend, pend' := Awaiting(d, gap), Awaiting(d, gap + [x]);
    ScanSnoc(env, docName, lines, x);
    StepGap(env, docName, PendingCfg(env, pend), r + PendingOut(env, pend), x, |lines| + 1);
    GapSnoc(r, d, gap, x);
    GapLinesSnoc(Flatten(segs), d, gap, x);
    ReadingIntro(env, docName, lines + [x], segs, pend', PendingCfg(env, pend'), r + PendingOut(env, pend'), r);
  }

  lemma GapSnoc(r: string, d: string, gap: seq<string>, x: string)
    requires HeadOk(d, gap) && GapLine(x)
    ensures HeadOk(d, gap + [x])
    ensures r + (d + "\n" + Join(gap)) + x + "\n" == r + (d + "\n" + Join(gap + [x]))
  {
    assert forall y | y in gap + [x] :: y in gap || y == x;
    JoinSnoc(gap, x);
  }

  lemma GapLinesSnoc(f: seq<string>, d: string, gap: seq<string>, x: string)
    ensures f + ([d] + gap) + [x] == f + ([d] + (gap + [x]))
  {
  }

  /** FENCE: the payload cannot be read. */
  lemma OpenedFailed(env: Env, docName: string, lines: seq<string>, segs: seq<Segment>, d: string, gap: seq<string>, open: string, x: string)
    requires Reading(env, docName, lines, segs, Opened(d, gap, open)) && Payload(env, Parse(d).value).Err?
    ensures Scan(env, docName, lines + [x]) == Failed(Payload(env, Parse(d).value).failure)
  {
    var pend := Opened(d, gap, open);
    ScanSnoc(env, docName, lines, x);
    StepAfterOpen(env, docName, PendingCfg(env, pend), RenderAll(env, segs).value + PendingOut(env, pend), x, |lines| + 1);
  }

  /** FENCE: the closing fence right after the opening one: a block with no placeholder. */
  lemma OpenedClosed(env: Env, docName: string, lines: seq<string>, segs: seq<Segment>, d: string, gap: seq<string>, open: string, x: string)
    requires Reading(env, docName, lines, segs, Opened(d, gap, open)) && Payload(env, Parse(d).value).Ok? && IsFence(x)
    ensures Reading(env, docName, lines + [x], segs + [Spliced(Block(d, gap, open, [], x))], Idle)
  {
    var r := RenderAll(env, segs).value;
    var pend := Opened(d, gap, open);
    var a := PendingOut(env, pend);
    var p := Payload(env, Parse(d).value).value;
    var b := Block(d, gap, open, [], x);
    ScanSnoc(env, docName, lines, x);
    StepAfterOpen(env, docName, PendingCfg(env, pend), r + a, x, |lines| + 1);
    LinesAssoc(Flatten(segs), [d] + gap + [open], [x]);
    assert BlockLines(b) == [d] + gap + [open] + [x];
    SpliceAfterHead(r, b, p);
    CloseBlock(env, docName, lines + [x], segs, b, p);
  }

  /** The text written up to the opening fence, the payload and the closing fence make up the splice. */
  lemma SpliceAfterHead(r: string, b: Block, p: string)
    ensures r + (b.directive + "\n" + Join(b.gap) + b.open + "\n") + p + b.close + "\n" == r + Splice(b, p)
    ensures r + (b.directive + "\n" + Join(b.gap) + b.open + "\n" + p) + b.close + "\n" == r + Splice(b, p)
  {
  }

  /** FENCE: the first placeholder line, after the payload. */
  lemma OpenedFilled(env: Env, docName: string, lines: seq<string>, segs: seq<Segment>, d: string, gap: seq<string>, open: string, x: string)
    requires Reading(env, docName, lines, segs, Opened(d, gap, open)) && Payload(env, Parse(d).value).Ok? && !IsFence(x)
    ensures Reading(env, docName, lines + [x], segs, Filling(d, gap, open, [x]))
  {
    var r := RenderAll(env, segs).value;
    var pend, pend' := Opened(d, gap, open), Filling(d, gap, open, [x]);
    var a := PendingOut(env, pend);
    var p := Payload(env, Parse(d).value).value;
    ScanSnoc(env, docName, lines, x);
    StepAfterOpen(env, docName, PendingCfg(env, pend), r + a, x, |lines| + 1);
    assert PendingOut(env, pend') == a + p;
    Assoc(r, a, p);
    LinesAssoc(Flatten(segs), [d] + gap + [open], [x]);
    ReadingIntro(env, docName, lines + [x], segs, pend', PendingCfg(env, pend'), r + PendingOut(env, pend'), r);
  }

  /** INSIDE_FENCE: the closing fence ends the block. */
  lemma FillingClosed(env: Env, docName: string, lines: seq<string>, segs: seq<Segment>,
                      d: string, gap: seq<string>, open: string, ph: seq<string>, x: string)
    requires Reading(env, docName, lines, segs, Filling(d, gap, open, ph)) && IsFence(x)
    ensures Reading(env, docName, lines + [x], segs + [Spliced(Block(d, gap, open, ph, x))], Idle)
  {
    var r := RenderAll(env, segs).value;
    var pend := Filling(d, gap, open, ph);
    var a := PendingOut(env, pend);
    var p := Payload(env, Parse(d).value).value;
    var b := Block(d, gap, open, ph, x);
    ScanSnoc(env, docName, lines, x);
    StepClose(env, docName, r + a, x, |lines| + 1);
    LinesAssoc(Flatten(segs), [d] + gap + [open] + ph, [x]);
    assert a == d + "\n" + Join(gap) + open + "\n" + p;
    SpliceAfterHead(r, b, p);
    CloseBlock(env, docName, lines + [x], segs, b, p);
  }

  /** INSIDE_FENCE: one more placeholder line, dropped. */
  lemma FillingMore(env: Env, docName: string, lines: seq<string>, segs: seq<Segment>,
                    d: string, gap: seq<string>, open: string, ph: seq<string>, x: string)
    requires Reading(env, docName, lines, segs, Filling(d, gap, open, ph)) && !IsFence(x)
    ensures Reading(env, docName, lines + [x], segs, Filling(d, gap, open, ph + [x]))
  {
    var r := RenderAll(env, segs).value;
    var pend, pend' := Filling(d, gap, open, ph), Filling(d, gap, open, ph + [x]);
    ScanSnoc(env, docName, lines, x);
    StepPlaceholder(env, docName, r + PendingOut(env, pend), x, |lines| + 1);
    assert forall y | y in ph + [x] :: y in ph || y == x;
    assert PendingOut(env, pend') == PendingOut(env, pend);
    LinesAssoc(Flatten(segs), [d] + gap + [open] + ph, [x]);
    assert [d] + gap + [open] + ph + [x] == [d] + gap + [open] + (ph + [x]);
    ReadingIntro(env, docName, lines + [x], segs, pend', PendingCfg(env, pend'), r + PendingOut(env, pend'), r);
  }

  /** Every document refresh gets through without failing has a shape. */
  lemma {:induction false} Decompose(env: Env, docName: string, lines: seq<string>) returns (segs: seq<Segment>, pend: Pending)
    requires Scan(env, docName, lines).Running?
    ensures Reading(env, docName, lines, segs, pend)
    decreases |lines|
  {
    if lines == [] {
      segs, pend := [], Idle;
    } else {
      var n := |lines| - 1;
      var init, x := lines[..n], lines[n];
      assert lines == init + [x];
      ScanSnoc(env, docName, init, x);
      var segs0, pend0 := Decompose(env, docName, init);
      match pend0
      case Idle =>
        if IsDirective(x) {
          IdleDirective(env, docName, init, segs0, x);
          segs, pend := segs0, Awaiting(x, []);
        } else {
          IdlePlain(env, docName, init, segs0, x);
          segs, pend := segs0 + [Plain(x)], Idle;
        }
      case Awaiting(d, gap) =>
        if IsDirective(x) {
          AwaitingNested(env, docName, init, segs0, d, gap, x);
          assert false;
        } else if IsFence(x) {
          AwaitingOpen(env, docName, init, segs0, d, gap, x);
          segs, pend := segs0, Opened(d, gap, x);
        } else {
          AwaitingGap(env, docName, init, segs0, d, gap, x);
          segs, pend := segs0, Awaiting(d, gap + [x]);
        }
      case Opened(d, gap, open) =>
        if Payload(env, Parse(d).value).Err? {
          OpenedFailed(env, docName, init, segs0, d, gap, open, x);
          assert false;
        } else if IsFence(x) {
          OpenedClosed(env, docName, init, segs0, d, gap, open, x);
          segs, pend := segs0 + [Spliced(Block(d, gap, open, [], x))], Idle;
        } else {
          OpenedFilled(env, docName, init, segs0, d, gap, open, x);
          segs, pend := segs0, Filling(d, gap, open, [x]);
        }
      case Filling(d, gap, open, ph) =>
        if IsFence(x) {
          FillingClosed(env, docName, init, segs0, d, gap, open, ph, x);
          segs, pend := segs0 + [Spliced(Block(d, gap, open, ph, x))], Idle;
        } else {
          FillingMore(env, docName, init, segs0, d, gap, open, ph, x);
          segs, pend := segs0, Filling(d, gap, open, ph + [x]);
        }
    }
  }

  /**
   * What refresh accepts: its output for a document is `out` exactly when the
   * document is a sequence of plain lines and finished blocks whose rendering
   * is `out`.
   */
  lemma RewriteOk(env: Env, docName: string, lines: seq<string>, out: string) returns (segs: seq<Segment>)
    requires Rewrite(env, docName, lines) == Ok(out)
    ensures WellFormed(segs) && lines == Flatten(segs) && RenderAll(env, segs) == Ok(out)
  {
    var pend;
    segs, pend := Decompose(env, docName, lines);
    assert PendingCfg(env, pend).state == Normal;
    assert pend == Idle;
    assert Flatten(segs) + [] == Flatten(segs);
    assert RenderAll(env, segs).value + [] == RenderAll(env, segs).value;
  }

  /** The lines of an unfinished block leave refresh in its configuration, having written its part. */
  lemma DrivePending(env: Env, docName: string, out: string, pend: Pending, base: nat)
    requires PendingOk(env, pend)
    ensures Drive(env, docName, Running(Start, out), PendingLines(pend), base) ==
      Running(PendingCfg(env, pend), out + PendingOut(env, pend))
  {
    match pend
    case Idle =>
      assert out + [] == out;
    case Awaiting(d, gap) =>
      DriveAwaiting(env, docName, out, d, gap, base);
    case Opened(d, gap, open) =>
      DriveHead(env, docName, out, d, gap, open, base);
    case Filling(d, gap, open, ph) =>
      var p := Payload(env, Parse(d).value).value;
      DriveFilling(env, docName, out, d, gap, open, ph, p, base);
      FillingAssoc(out, d, gap, open, p);
  }

  lemma DriveAwaiting(env: Env, docName: string, out: string, d: string, gap: seq<string>, base: nat)
    requires HeadOk(d, gap)
    ensures Drive(env, docName, Running(Start, out), [d] + gap, base) ==
      Running(Cfg(Comment, Parse(d).value.tag, Parse(d).value.path), out + (d + "\n" + Join(gap)))
  {
    var c := Cfg(Comment, Parse(d).value.tag, Parse(d).value.path);
    DriveAppend(env, docName, Running(Start, out), [d], gap, base);
    DriveOne(env, docName, Running(Start, out), d, base);
    StepDirective(env, docName, out, d, base + 1);
    DriveGap(env, docName, c, out + d + "\n", gap, base + 1);
    Assoc(out, d + "\n", Join(gap));
  }

  lemma DriveFilling(env: Env, docName: string, out: string, d: string, gap: seq<string>, open: string, ph: seq<string>, p: string, base: nat)
    requires HeadOk(d, gap) && IsFence(open) && ph != [] && (forall x | x in ph :: !IsFence(x))
    requires Payload(env, Parse(d).value) == Ok(p)
    ensures Drive(env, docName, Running(Start, out), [d] + gap + [open] + ph, base) ==
      Running(Cfg(InsideFence, "", ""), out + d + "\n" + Join(gap) + open + "\n" + p)
  {
    var head := [d] + gap + [open];
    var link := Parse(d).value;
    var r := DriveHeadRun(env, docName, out, d, gap, open, base);
    DriveAppend(env, docName, Running(Start, out), head, ph, base);
    DriveFirstPlaceholder(env, docName, r.config, r.out, ph, p, base + |head|);
  }

  /** DriveHead, with the configuration it ends in named. */
  lemma DriveHeadRun(env: Env, docName: string, out: string, d: string, gap: seq<string>, open: string, base: nat) returns (r: Run<Cfg>)
    requires HeadOk(d, gap) && IsFence(open)
    ensures r == Drive(env, docName, Running(Start, out), [d] + gap + [open], base)
    ensures r.Running? && r.config.state == Fence && Link(r.config.source, r.config.header) == Parse(d).value
    ensures r.out == out + d + "\n" + Join(gap) + open + "\n"
  {
    DriveHead(env, docName, out, d, gap, open, base);
    r := Drive(env, docName, Running(Start, out), [d] + gap + [open], base);
  }

  lemma FillingAssoc(out: string, d: string, gap: seq<string>, open: string, p: string)
    ensures out + d + "\n" + Join(gap) + open + "\n" + p == out + (d + "\n" + Join(gap) + open + "\n" + p)
  {
  }

  /** From the opening fence on: the payload is written, and the placeholder lines are dropped. */
  lemma DriveFirstPlaceholder(env: Env, docName: string, c: Cfg, o: string, ph: seq<string>, p: string, base: nat)
    requires c.state == Fence && ph != [] && (forall x | x in ph :: !IsFence(x))
    requires Payload(env, Link(c.source, c.header)) == Ok(p)
    ensures Drive(env, docName, Running(c, o), ph, base) == Running(Cfg(InsideFence, "", ""), o + p)
  {
    assert ph == [ph[0]] + ph[1..];
    DriveAppend(env, docName, Running(c, o), [ph[0]], ph[1..], base);
    DriveOne(env, docName, Running(c, o), ph[0], base);
    StepAfterOpen(env, docName, c, o, ph[0], base + 1);
    assert forall x | x in ph[1..] :: x in ph;
    DrivePlaceholder(env, docName, o + p, ph[1..], base + 1);
  }

  /** The run over segments followed by an unfinished block. */
  lemma ScanPending(env: Env, docName: string, segs: seq<Segment>, pend: Pending)
    requires WellFormed(segs) && RenderAll(env, segs).Ok? && PendingOk(env, pend)
    ensures Reading(env, docName, Flatten(segs) + PendingLines(pend), segs, pend)
  {
    ScanFlatten(env, docName, segs);
    ScanAppend(env, docName, Flatten(segs), PendingLines(pend));
    DrivePending(env, docName, RenderAll(env, segs).value, pend, |Flatten(segs)|);
  }

  /** Documents that refresh gets through but leaves mid-block. */
  predicate Unfinished(env: Env, pend: Pending) {
    PendingOk(env, pend) && pend != Idle
  }

  /**
   * "Unexpected end of file" at the last line: a directive still waiting for
   * its fence, an opening fence as the last line, or a fence never closed.
   */
  lemma EndInsideBlock(env: Env, docName: string, segs: seq<Segment>, pend: Pending)
    requires WellFormed(segs) && RenderAll(env, segs).Ok? && Unfinished(env, pend)
    ensures var lines := Flatten(segs) + PendingLines(pend);
      Rewrite(env, docName, lines) == Err(Fatal(UnexpectedEnd, docName, |lines|))
  {
    ScanPending(env, docName, segs, pend);
  }

  /** Conversely, a document refresh reads to its end but rejects there is left mid-block. */
  lemma EndFailure(env: Env, docName: string, lines: seq<string>) returns (segs: seq<Segment>, pend: Pending)
    requires Scan(env, docName, lines).Running? && Rewrite(env, docName, lines).Err?
    ensures WellFormed(segs) && RenderAll(env, segs).Ok? && Unfinished(env, pend)
    ensures lines == Flatten(segs) + PendingLines(pend)
    ensures Rewrite(env, docName, lines) == Err(Fatal(UnexpectedEnd, docName, |lines|))
  {
    segs, pend := Decompose(env, docName, lines);
  }

  /**
   * "Unable to process include in include": after any document prefix that
   * refresh accepts, a directive, its gap lines and a second directive before
   * the first one's opening fence fail on the second directive's line,
   * whatever follows.
   */
  lemma NestedDirective(env: Env, docName: string, prefix: seq<string>, d: string, gap: seq<string>, d2: string, rest: seq<string>)
    requires Rewrite(env, docName, prefix).Ok? && HeadOk(d, gap) && IsDirective(d2)
    ensures var head := prefix + ([d] + gap);
      Rewrite(env, docName, head + [d2] + rest) == Err(Fatal(NestedInclude, docName, |head| + 1))
  {
    var head := prefix + ([d] + gap);
    NestedLine(env, docName, prefix, d, gap, d2);
    FailedAppend(env, docName, head + [d2], rest);
  }

  lemma NestedLine(env: Env, docName: string, prefix: seq<string>, d: string, gap: seq<string>, d2: string)
    requires Rewrite(env, docName, prefix).Ok? && HeadOk(d, gap) && IsDirective(d2)
    ensures var head := prefix + ([d] + gap);
      Scan(env, docName, head + [d2]) == Failed(Fatal(NestedInclude, docName, |head| + 1))
  {
    var c, o := AcceptedAwaiting(env, docName, prefix, d, gap);
    ScanNested(env, docName, prefix + ([d] + gap), d2, c, o);
  }

  /** After an accepted prefix, a directive and its gap lines leave refresh in COMMENT. */
  lemma AcceptedAwaiting(env: Env, docName: string, prefix: seq<string>, d: string, gap: seq<string>) returns (c: Cfg, o: string)
    requires Rewrite(env, docName, prefix).Ok? && HeadOk(d, gap)
    ensures Scan(env, docName, prefix + ([d] + gap)) == Running(c, o) && c.state == Comment
  {
    var r := Scan(env, docName, prefix);
    assert r.config == Start;
    ScanAppend(env, docName, prefix, [d] + gap);
    DriveAwaiting(env, docName, r.out, d, gap, |prefix|);
    c, o := Cfg(Comment, Parse(d).value.tag, Parse(d).value.path), r.out + (d + "\n" + Join(gap));
  }

  /** From COMMENT, a directive line fails on its own line. */
  lemma ScanNested(env: Env, docName: string, lines: seq<string>, x: string, c: Cfg, o: string)
    requires Scan(env, docName, lines) == Running(c, o) && c.state == Comment && IsDirective(x)
    ensures Scan(env, docName, lines + [x]) == Failed(Fatal(NestedInclude, docName, |lines| + 1))
  {
    ScanSnoc(env, docName, lines, x);
    StepNested(env, docName, c, o, x, |lines| + 1);
  }
}
