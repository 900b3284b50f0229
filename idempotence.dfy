/**
 * Running refresh on its own output changes nothing, provided the sources
 * are the same and no line of a payload it writes starts with ```. The output has the
 * shape of the input with every placeholder replaced by the payload's
 * lines, and a block's rendering does not depend on its placeholder.
 */
module Idempotence {
  import opened Text
  import opened Base
  import opened Directive
  import opened Payloads
  import opened Rewriter
  import opened Blocks
  import opened Shape

  /** No line of the payload for `link` would be taken for a fence. */
  predicate FenceFree(env: Env, link: Link) {
    Payload(env, link).Ok? ==> forall y | y in SplitLines(Payload(env, link).value) :: !IsFence(y)
  }

  /**
   * Line `i` is a directive refresh acts on: the loop reaches it in NORMAL.
   * A directive-looking line inside a placeholder is not one of them.
   */
  predicate ActedOn(env: Env, docName: string, doc: seq<string>, i: nat)
    requires i < |doc|
  {
    && IsDirective(doc[i])
    && Scan(env, docName, doc[..i]).Running?
    && Scan(env, docName, doc[..i]).config.state == Normal
  }

  /**
   * Document lines as a scanner returns them, where every directive refresh
   * acts on has a fence-free payload.
   */
  predicate Refreshable(env: Env, docName: string, doc: seq<string>) {
    && (forall x | x in doc :: '\n' !in x)
    && ActedFenceFree(env, docName, doc)
  }

  /** Every block among the segments has a fence-free payload. */
  predicate Filled(env: Env, segs: seq<Segment>) {
    forall s | s in segs && s.Spliced? && BlockOk(s.block) :: FenceFree(env, LinkOf(s.block))
  }

  /** The segment as it reads in the output: a block's placeholder is now its payload's lines. */
  function Refill(env: Env, s: Segment): Segment
    requires SegmentOk(s)
  {
    match s
    case Plain(_) => s
    case Spliced(b) =>
      match Payload(env, LinkOf(b))
      case Err(_) => s
      case Ok(p) => Spliced(b.(placeholder := SplitLines(p)))
  }

  function RefillAll(env: Env, segs: seq<Segment>): seq<Segment>
    requires WellFormed(segs)
    decreases |segs|
  {
    if segs == [] then []
    else
      var n := |segs| - 1;
      assert segs[n] in segs;
      RefillAll(env, segs[..n]) + [Refill(env, segs[n])]
  }

  /** A block's rendering reads only its directive, gap and fences, never its placeholder. */
  lemma PlaceholderIgnored(env: Env, b: Block, ph: seq<string>)
    requires BlockOk(b) && forall x | x in ph :: !IsFence(x)
    ensures BlockOk(b.(placeholder := ph))
    ensures Render(env, Spliced(b.(placeholder := ph))) == Render(env, Spliced(b))
  {
  }

  /** The lines of a block's splice: its own lines, with the payload's lines between the fences. */
  lemma SpliceLines(b: Block, p: string)
    requires '\n' !in b.directive && '\n' !in b.open && '\n' !in b.close
    requires forall x | x in b.gap :: '\n' !in x
    requires Terminated(p)
    ensures SplitLines(Splice(b, p)) == [b.directive] + b.gap + [b.open] + SplitLines(p) + [b.close]
  {
    var head := [b.directive] + b.gap + [b.open];
    HeadJoin(b.directive, b.gap, b.open);
    JoinOne(b.close);
    assert Splice(b, p) == Join(head) + (p + Join([b.close]));
    JoinTerminated(head);
    SplitAppend(Join(head), p + Join([b.close]));
    PayloadThenClose(p, b.close);
    assert forall x | x in head :: '\n' !in x;
    SplitJoin(head);
  }

  /** The payload's lines, then the closing fence. */
  lemma PayloadThenClose(p: string, close: string)
    requires Terminated(p) && '\n' !in close
    ensures SplitLines(p + Join([close])) == SplitLines(p) + [close]
  {
    SplitAppend(p, Join([close]));
    SplitJoin([close]);
  }

  lemma HeadJoin(d: string, gap: seq<string>, open: string)
    ensures Join([d] + gap + [open]) == d + "\n" + Join(gap) + open + "\n"
  {
    JoinAppend([d] + gap, [open]);
    JoinAppend([d], gap);
    JoinOne(d);
    JoinOne(open);
  }

  /** One segment of a refreshable document, read back from the output. */
  lemma RefillSegment(env: Env, s: Segment)
    requires SegmentOk(s) && Render(env, s).Ok? && forall x | x in Lines(s) :: '\n' !in x
    requires s.Spliced? ==> FenceFree(env, LinkOf(s.block))
    ensures SegmentOk(Refill(env, s)) && Render(env, Refill(env, s)) == Render(env, s)
    ensures Lines(Refill(env, s)) == SplitLines(Render(env, s).value)
    ensures Render(env, s).value != [] && Terminated(Render(env, s).value)
  {
    match s
    case Plain(x) =>
      assert x in Lines(s);
      SplitLine(x);
    case Spliced(b) =>
      var p := Payload(env, LinkOf(b)).value;
      assert b.directive in Lines(s) && b.open in Lines(s) && b.close in Lines(s);
      assert forall x | x in b.gap :: x in Lines(s);
      PlaceholderIgnored(env, b, SplitLines(p));
      PayloadTerminated(env, LinkOf(b));
      SpliceLines(b, p);
  }

  lemma TerminatedAppend(a: string, b: string)
    requires Terminated(b) && b != []
    ensures Terminated(a + b)
  {
  }

  /** The whole output read back as lines: the refilled segments. */
  lemma {:induction false} RefillAllLines(env: Env, segs: seq<Segment>)
    requires WellFormed(segs) && RenderAll(env, segs).Ok? && Filled(env, segs)
    requires forall x | x in Flatten(segs) :: '\n' !in x
    ensures WellFormed(RefillAll(env, segs))
    ensures RenderAll(env, RefillAll(env, segs)) == RenderAll(env, segs)
    ensures Flatten(RefillAll(env, segs)) == SplitLines(RenderAll(env, segs).value)
    ensures Terminated(RenderAll(env, segs).value)
    decreases |segs|
  {
    if segs != [] {
      var n := |segs| - 1;
      var init, s := segs[..n], segs[n];
      assert s in segs;
      assert forall t | t in init :: t in segs;
      assert Flatten(segs) == Flatten(init) + Lines(s);
      assert forall x | x in Flatten(init) :: x in Flatten(segs);
      assert forall x | x in Lines(s) :: x in Flatten(segs);
      RefillAllLines(env, init);
      RefillSegment(env, s);
      var o, t := RenderAll(env, init).value, Render(env, s).value;
      var segs' := RefillAll(env, init) + [Refill(env, s)];
      assert segs' == RefillAll(env, segs);
      FlattenSnoc(RefillAll(env, init), Refill(env, s));
      RenderAllSnoc(env, RefillAll(env, init), Refill(env, s));
      SplitAppend(o, t);
      TerminatedAppend(o, t);
    }
  }

  /**
   * Idempotence: when refresh turns a document into `out`, refreshing `out`
   * against the same sources gives `out` again, as long as no payload refresh
   * writes has a line starting with ```. Directive-looking lines inside a
   * placeholder are never acted on, so their payloads do not matter.
   */
  lemma Idempotent(env: Env, docName: string, doc: seq<string>, out: string)
    requires Rewrite(env, docName, doc) == Ok(out) && Refreshable(env, docName, doc)
    ensures Rewrite(env, docName, SplitLines(out)) == Ok(out)
  {
    var segs := RewriteOk(env, docName, doc, out);
    ActedBlocks(env, docName, segs);
    RefillAllLines(env, segs);
    RewriteWellFormed(env, docName, RefillAll(env, segs));
  }

  /**
   * The directives refresh acts on in a document it accepts are exactly the
   * directives of its blocks, so their payloads are the ones written.
   */
  lemma {:induction false} ActedBlocks(env: Env, docName: string, segs: seq<Segment>)
    requires WellFormed(segs) && RenderAll(env, segs).Ok?
    requires ActedFenceFree(env, docName, Flatten(segs))
    ensures Filled(env, segs)
    decreases |segs|
  {
    if segs != [] {
      var n := |segs| - 1;
      var init, s := segs[..n], segs[n];
      assert s in segs;
      assert forall t | t in init :: t in segs;
      assert RenderAll(env, init).Ok?;
      assert Flatten(segs) == Flatten(init) + Lines(s);
      ActedInit(env, docName, Flatten(init), Lines(s));
      ActedBlocks(env, docName, init);
      ActedLast(env, docName, init, s);
      assert segs == init + [s];
      FilledSnoc(env, init, s);
    }
  }

  /** Every directive refresh acts on in `doc` has a fence-free payload. */
  predicate ActedFenceFree(env: Env, docName: string, doc: seq<string>) {
    forall i | 0 <= i < |doc| && ActedOn(env, docName, doc, i) :: FenceFree(env, Parse(doc[i]).value)
  }

  lemma ActedInit(env: Env, docName: string, a: seq<string>, b: seq<string>)
    requires ActedFenceFree(env, docName, a + b)
    ensures ActedFenceFree(env, docName, a)
  {
    forall i | 0 <= i < |a| && ActedOn(env, docName, a, i)
      ensures FenceFree(env, Parse(a[i]).value)
    {
      ActedPrefix(env, docName, a, b, i);
    }
  }

  lemma ActedLast(env: Env, docName: string, init: seq<Segment>, s: Segment)
    requires WellFormed(init) && RenderAll(env, init).Ok? && SegmentOk(s)
    requires ActedFenceFree(env, docName, Flatten(init) + Lines(s))
    ensures s.Spliced? ==> FenceFree(env, LinkOf(s.block))
  {
    if s.Spliced? {
      ActedAt(env, docName, init, s.block);
    }
  }

  lemma FilledSnoc(env: Env, init: seq<Segment>, s: Segment)
    requires Filled(env, init) && (s.Spliced? && BlockOk(s.block) ==> FenceFree(env, LinkOf(s.block)))
    ensures Filled(env, init + [s])
  {
  }

  /** Whether refresh acts on a line depends only on the lines up to it. */
  lemma ActedPrefix(env: Env, docName: string, a: seq<string>, b: seq<string>, i: nat)
    requires i < |a|
    ensures (a + b)[i] == a[i]
    ensures ActedOn(env, docName, a + b, i) == ActedOn(env, docName, a, i)
  {
    assert (a + b)[..i] == a[..i];
  }

  /** Refresh acts on the directive of a block that follows an accepted prefix of segments. */
  lemma ActedAt(env: Env, docName: string, segs: seq<Segment>, b: Block)
    requires WellFormed(segs) && RenderAll(env, segs).Ok? && BlockOk(b)
    ensures var doc := Flatten(segs) + BlockLines(b);
      |Flatten(segs)| < |doc| && doc[|Flatten(segs)|] == b.directive && ActedOn(env, docName, doc, |Flatten(segs)|)
  {
    var a := Flatten(segs);
    ScanFlatten(env, docName, segs);
    assert (a + BlockLines(b))[..|a|] == a;
  }

  lemma {:induction false} RenderAllPointwise(env: Env, a: seq<Segment>, b: seq<Segment>)
    requires WellFormed(a) && WellFormed(b) && |a| == |b|
    requires forall i | 0 <= i < |a| :: Render(env, a[i]) == Render(env, b[i])
    ensures RenderAll(env, a) == RenderAll(env, b)
    decreases |a|
  {
    if a != [] {
      var n := |a| - 1;
      assert a[n] in a && b[n] in b;
      assert forall t | t in a[..n] :: t in a;
      assert forall t | t in b[..n] :: t in b;
      RenderAllPointwise(env, a[..n], b[..n]);
    }
  }

  /**
   * Payload placement does not depend on the placeholder: a block whose
   * placeholder lines are replaced by any other lines that are not fences
   * (none at all included) is rewritten to the same text.
   */
  lemma PlaceholderIndependent(env: Env, docName: string, before: seq<Segment>, b: Block, ph: seq<string>, after: seq<Segment>)
    requires WellFormed(before + [Spliced(b)] + after) && forall x | x in ph :: !IsFence(x)
    ensures var segs' := before + [Spliced(b.(placeholder := ph))] + after;
      && WellFormed(segs')
      && Rewrite(env, docName, Flatten(segs')) == Rewrite(env, docName, Flatten(before + [Spliced(b)] + after))
  {
    var segs := before + [Spliced(b)] + after;
    var segs' := before + [Spliced(b.(placeholder := ph))] + after;
    assert Spliced(b) in segs;
    PlaceholderIgnored(env, b, ph);
    assert forall i | 0 <= i < |segs'| :: segs'[i] == segs[i] || i == |before|;
    assert forall s | s in segs' :: s in segs || s == Spliced(b.(placeholder := ph));
    RenderAllPointwise(env, segs', segs);
    RewriteWellFormed(env, docName, segs);
    RewriteWellFormed(env, docName, segs');
  }

  lemma FlattenOne(s: Segment)
    ensures Flatten([s]) == Lines(s)
  {
    assert [s][..0] == [];
    assert [] + Lines(s) == Lines(s);
  }

  lemma RenderOne(env: Env, s: Segment)
    requires SegmentOk(s)
    ensures WellFormed([s]) && RenderAll(env, [s]) == Render(env, s)
  {
    assert [s][..0] == [];
    if Render(env, s).Ok? {
      assert [] + Render(env, s).value == Render(env, s).value;
    }
  }

  /** A document that is one block is rewritten into that block's rendering. */
  lemma OneBlock(env: Env, docName: string, b: Block)
    requires BlockOk(b)
    ensures Rewrite(env, docName, BlockLines(b)) == Render(env, Spliced(b))
  {
    FlattenOne(Spliced(b));
    RenderOne(env, Spliced(b));
    RewriteWellFormed(env, docName, [Spliced(b)]);
  }

  /** A block followed by one plain line. */
  lemma BlockThenLine(env: Env, docName: string, b: Block, x: string)
    requires BlockOk(b) && Render(env, Spliced(b)).Ok? && !IsDirective(x)
    ensures Rewrite(env, docName, BlockLines(b) + [x]) == Ok(Render(env, Spliced(b)).value + (x + "\n"))
  {
    FlattenOne(Spliced(b));
    RenderOne(env, Spliced(b));
    FlattenSnoc([Spliced(b)], Plain(x));
    RenderAllSnoc(env, [Spliced(b)], Plain(x));
    assert [Spliced(b)] + [Plain(x)] == [Spliced(b), Plain(x)];
    RewriteWellFormed(env, docName, [Spliced(b), Plain(x)]);
  }

  /**
   * Without the fence-free condition idempotence can fail: a directive
   * whose payload is a lone fence line, above an empty fenced block, is
   * rewritten into text that a second run reads as a closed block followed
   * by one more fence line, and that second run writes one line more than
   * the first.
   */
  lemma FencedPayload(env: Env, docName: string, d: string) returns (out: string)
    requires IsDirective(d) && '\n' !in d && Payload(env, Parse(d).value) == Ok(FenceMark + "\n")
    ensures Rewrite(env, docName, [d, FenceMark, FenceMark]) == Ok(out)
    ensures SplitLines(out) == [d, FenceMark, FenceMark, FenceMark]
    ensures Rewrite(env, docName, SplitLines(out)) == Ok(out + (FenceMark + "\n"))
  {
    var p := FenceMark + "\n";
    var b := Block(d, [], FenceMark, [], FenceMark);
    assert IsFence(FenceMark);
    assert BlockOk(b);
    out := Splice(b, p);
    assert BlockLines(b) == [d, FenceMark, FenceMark];
    OneBlock(env, docName, b);
    SpliceLines(b, p);
    SplitLine(FenceMark);
    FenceIsNotDirective(FenceMark);
    BlockThenLine(env, docName, b, FenceMark);
    assert BlockLines(b) + [FenceMark] == [d, FenceMark, FenceMark, FenceMark];
  }
}
