/**
 * fromFile (main.go:49-83): copy the lines of a source file that lie strictly
 * between the first and the second line containing the marker text
 * "freshReadmeSnippet: " + tag.
 *
 * The machine runs on the shared states: NORMAL before the first marker,
 * COMMENT on the marker line itself, FENCE while copying (COMMENT turns into
 * FENCE one line later, so the marker line is never copied), END after the
 * second marker. A marker seen in any other state is a third one.
 */
module Snippet {
  import opened Text
  import opened Base

  /** The marker prefix, main.go:13. */
  const Prefix := "freshReadmeSnippet: "

  /** One iteration of fromFile's loop on line number `i` (1-based). */
  function Step(header: string, fileName: string, state: State, out: string, line: string, i: nat): (r: Run<State>)
    ensures r.Failed? ==> Contains(line, header) && r.failure == Fatal(DuplicateSnippet(header), fileName, i)
    ensures r.Running? ==> r.out == out || r.out == out + line + "\n"
    ensures r.Running? && Contains(line, header) ==> r.out == out
    ensures r.Running? && state != InsideFence ==> r.config != InsideFence
  {
    var s := if state == Comment then Fence else state;
    if Contains(line, header) && s != Normal && s != Fence then
      Failed(Fatal(DuplicateSnippet(header), fileName, i))
    else
      var s' := if !Contains(line, header) then s else if s == Normal then Comment else End;
      Running(s', if s' == Fence then out + line + "\n" else out)
  }

  /** fromFile's loop over the given lines, starting in NORMAL with nothing written. */
  function Scan(header: string, fileName: string, lines: seq<string>): (r: Run<State>)
    ensures r.Running? ==> r.config != InsideFence
    ensures r.Failed? ==> r.failure.Fatal? && r.failure.kind == DuplicateSnippet(header)
    ensures r.Failed? ==> r.failure.file == fileName && 1 <= r.failure.line <= |lines|
    decreases |lines|
  {
    if lines == [] then Running(Normal, [])
    else
      match Scan(header, fileName, lines[..|lines| - 1])
      case Failed(f) => Failed(f)
      case Running(s, out) => Step(header, fileName, s, out, lines[|lines| - 1], |lines|)
  }

  /** The panics of fromFile's own: a third marker, or fewer than two, in `fileName`. */
  predicate SnippetFailure(header: string, fileName: string, f: Failure) {
    f.Fatal? && f.file == fileName && (f.kind == DuplicateSnippet(header) || f.kind == MissingSnippet(header))
  }

  /** What fromFile writes, or the failure it panics with. */
  function Extract(header: string, fileName: string, lines: seq<string>): (r: Result<string>)
    ensures r.Err? ==> SnippetFailure(header, fileName, r.failure)
  {
    match Scan(header, fileName, lines)
    case Failed(f) => Err(f)
    case Running(s, out) =>
      if s == End then Ok(out) else Err(Fatal(MissingSnippet(header), fileName, |lines|))
  }

  /** fromFile on the file system `files`: os.Open fails on a missing file. */
  function ReadSnippet(files: map<string, string>, header: string, fileName: string): (r: Result<string>)
    ensures r.Err? ==> r.failure == IoFailure(fileName) || SnippetFailure(header, fileName, r.failure)
    ensures r.Err? && r.failure.IoFailure? <==> fileName !in files
  {
    if fileName !in files then Err(IoFailure(fileName))
    else Extract(header, fileName, SplitLines(files[fileName]))
  }

  /** The indices of the lines containing the marker text, in increasing order. */
  function Markers(header: string, lines: seq<string>): (m: seq<nat>)
    ensures forall j | 0 <= j < |m| :: m[j] < |lines|
    ensures forall j, k | 0 <= j < k < |m| :: m[j] < m[k]
    decreases |lines|
  {
    if lines == [] then []
    else Markers(header, lines[..|lines| - 1]) + if Contains(lines[|lines| - 1], header) then [|lines| - 1] else []
  }

  /** Markers lists, in increasing order, exactly the lines that contain the marker text. */
  lemma {:induction false} MarkersExact(header: string, lines: seq<string>)
    ensures var m := Markers(header, lines);
      && (forall j | 0 <= j < |m| :: Contains(lines[m[j]], header))
      && (forall i | 0 <= i < |lines| && Contains(lines[i], header) :: i in m)
    decreases |lines|
  {
    if lines != [] {
      var n := |lines| - 1;
      var init := lines[..n];
      MarkersExact(header, init);
      var m', m := Markers(header, init), Markers(header, lines);
      assert m == m' + if Contains(lines[n], header) then [n] else [];
      forall j | 0 <= j < |m| ensures Contains(lines[m[j]], header) {
        if j < |m'| {
          assert m[j] == m'[j] && lines[m[j]] == init[m'[j]];
          assert forall j | 0 <= j < |m'| :: Contains(init[m'[j]], header);
          assert Contains(init[m'[j]], header);
        } else {
          assert Contains(lines[n], header);
          assert m[j] == n;
        }
      }
      forall i | 0 <= i < |lines| && Contains(lines[i], header) ensures i in m {
        if i < n {
          assert init[i] == lines[i];
          assert i in m';
        }
      }
    }
  }

  lemma ScanSnoc(header: string, fileName: string, lines: seq<string>, x: string)
    ensures Scan(header, fileName, lines + [x]) ==
      match Scan(header, fileName, lines)
      case Failed(f) => Failed(f)
      case Running(s, out) => Step(header, fileName, s, out, x, |lines| + 1)
  {
    assert (lines + [x])[..|lines|] == lines;
  }

  lemma MarkersSnoc(header: string, lines: seq<string>, x: string)
    ensures Markers(header, lines + [x]) ==
      Markers(header, lines) + if Contains(x, header) then [|lines|] else []
  {
    assert (lines + [x])[..|lines|] == lines;
  }

  /**
   * Where fromFile stands after the given lines, read off the marker lines
   * among them: nothing before the first marker, the lines after it while
   * copying, exactly the lines between the first two, and a failure at the
   * third.
   */
  function ByMarkers(header: string, fileName: string, lines: seq<string>): Run<State> {
    var m := Markers(header, lines);
    if |m| == 0 then Running(Normal, [])
    else if |m| == 1 then
      if m[0] == |lines| - 1 then Running(Comment, []) else Running(Fence, Join(lines[m[0] + 1..]))
    else if |m| == 2 then Running(End, Join(lines[m[0] + 1..m[1]]))
    else Failed(Fatal(DuplicateSnippet(header), fileName, m[2] + 1))
  }

  /** The effect of one more line on the marker reading, as fromFile's loop would take it. */
  function StepRun(header: string, fileName: string, r: Run<State>, x: string, i: nat): Run<State> {
    match r
    case Failed(f) => Failed(f)
    case Running(s, out) => Step(header, fileName, s, out, x, i)
  }

  lemma ReadingNone(header: string, fileName: string, lines: seq<string>)
    requires |Markers(header, lines)| == 0
    ensures ByMarkers(header, fileName, lines) == Running(Normal, [])
  {
  }

  lemma ReadingOpened(header: string, fileName: string, lines: seq<string>)
    requires |Markers(header, lines)| == 1 && Markers(header, lines)[0] == |lines| - 1
    ensures ByMarkers(header, fileName, lines) == Running(Comment, [])
  {
  }

  lemma ReadingCopying(header: string, fileName: string, lines: seq<string>)
    requires |Markers(header, lines)| == 1 && Markers(header, lines)[0] < |lines| - 1
    ensures ByMarkers(header, fileName, lines) == Running(Fence, Join(lines[Markers(header, lines)[0] + 1..]))
  {
  }

  lemma ReadingDone(header: string, fileName: string, lines: seq<string>)
    requires |Markers(header, lines)| == 2
    ensures var m := Markers(header, lines);
      ByMarkers(header, fileName, lines) == Running(End, Join(lines[m[0] + 1..m[1]]))
  {
  }

  lemma SnocOnMarker(header: string, fileName: string, init: seq<string>, x: string)
    requires |Markers(header, init)| == 1 && Markers(header, init)[0] == |init| - 1
    ensures ByMarkers(header, fileName, init + [x]) == StepRun(header, fileName, ByMarkers(header, fileName, init), x, |init| + 1)
  {
    ReadingOpened(header, fileName, init);
    if Contains(x, header) {
      SnocAdjacent(header, fileName, init, x);
    } else {
      SnocFirstCopied(header, fileName, init, x);
    }
  }

  lemma SnocFirstCopied(header: string, fileName: string, init: seq<string>, x: string)
    requires |Markers(header, init)| == 1 && Markers(header, init)[0] == |init| - 1
    requires !Contains(x, header)
    ensures ByMarkers(header, fileName, init + [x]) == Step(header, fileName, Comment, [], x, |init| + 1)
  {
    MarkersUnmarked(header, init, x);
    StepLeavesMarker(header, fileName, x, |init| + 1);
    ReadingCopying(header, fileName, init + [x]);
    SliceLast(init, x);
    JoinOne(x);
  }

  lemma SnocAdjacent(header: string, fileName: string, init: seq<string>, x: string)
    requires |Markers(header, init)| == 1 && Markers(header, init)[0] == |init| - 1
    requires Contains(x, header)
    ensures ByMarkers(header, fileName, init + [x]) == Step(header, fileName, Comment, [], x, |init| + 1)
  {
    MarkersMarked(header, init, x);
    StepCloses(header, fileName, Comment, [], x, |init| + 1);
    ReadingDone(header, fileName, init + [x]);
    SliceEmpty(init + [x], |init|);
  }

  lemma SnocCopying(header: string, fileName: string, init: seq<string>, x: string)
    requires |Markers(header, init)| == 1 && Markers(header, init)[0] < |init| - 1
    ensures ByMarkers(header, fileName, init + [x]) == StepRun(header, fileName, ByMarkers(header, fileName, init), x, |init| + 1)
  {
    ReadingCopying(header, fileName, init);
    if Contains(x, header) {
      SnocClosing(header, fileName, init, x);
    } else {
      SnocCopied(header, fileName, init, x);
    }
  }

  lemma SnocCopied(header: string, fileName: string, init: seq<string>, x: string)
    requires |Markers(header, init)| == 1 && Markers(header, init)[0] < |init| - 1
    requires !Contains(x, header)
    ensures var tail := init[Markers(header, init)[0] + 1..];
      ByMarkers(header, fileName, init + [x]) == Step(header, fileName, Fence, Join(tail), x, |init| + 1)
  {
    var m0 := Markers(header, init)[0];
    var tail := init[m0 + 1..];
    MarkersUnmarked(header, init, x);
    ReadingCopying(header, fileName, init + [x]);
    assert (init + [x])[m0 + 1..] == tail + [x];
    assert ByMarkers(header, fileName, init + [x]) == Running(Fence, Join(tail + [x]));
    JoinSnoc(tail, x);
    StepCopies(header, fileName, Join(tail), x, |init| + 1);
  }

  lemma SnocClosing(header: string, fileName: string, init: seq<string>, x: string)
    requires |Markers(header, init)| == 1 && Markers(header, init)[0] < |init| - 1
    requires Contains(x, header)
    ensures var tail := init[Markers(header, init)[0] + 1..];
      ByMarkers(header, fileName, init + [x]) == Step(header, fileName, Fence, Join(tail), x, |init| + 1)
  {
    var m0 := Markers(header, init)[0];
    var tail := init[m0 + 1..];
    MarkersMarked(header, init, x);
    StepCloses(header, fileName, Fence, Join(tail), x, |init| + 1);
    ReadingDone(header, fileName, init + [x]);
    assert (init + [x])[m0 + 1..|init|] == tail;
  }

  lemma SnocDone(header: string, fileName: string, init: seq<string>, x: string)
    requires |Markers(header, init)| == 2
    ensures ByMarkers(header, fileName, init + [x]) == StepRun(header, fileName, ByMarkers(header, fileName, init), x, |init| + 1)
  {
    ReadingDone(header, fileName, init);
    if Contains(x, header) {
      SnocThird(header, fileName, init, x);
    } else {
      SnocAfter(header, fileName, init, x);
    }
  }

  lemma SnocAfter(header: string, fileName: string, init: seq<string>, x: string)
    requires |Markers(header, init)| == 2 && !Contains(x, header)
    ensures var m := Markers(header, init);
      ByMarkers(header, fileName, init + [x]) == Step(header, fileName, End, Join(init[m[0] + 1..m[1]]), x, |init| + 1)
  {
    var m := Markers(header, init);
    MarkersUnmarked(header, init, x);
    StepStays(header, fileName, End, Join(init[m[0] + 1..m[1]]), x, |init| + 1);
    ReadingDone(header, fileName, init + [x]);
    SliceSnoc(init, x, m[0] + 1, m[1]);
  }

  lemma SnocThird(header: string, fileName: string, init: seq<string>, x: string)
    requires |Markers(header, init)| == 2 && Contains(x, header)
    ensures var m := Markers(header, init);
      ByMarkers(header, fileName, init + [x]) == Step(header, fileName, End, Join(init[m[0] + 1..m[1]]), x, |init| + 1)
  {
    var m := Markers(header, init);
    MarkersMarked(header, init, x);
    StepDuplicate(header, fileName, End, Join(init[m[0] + 1..m[1]]), x, |init| + 1);
    ReadingMany(header, fileName, init + [x]);
  }

  lemma SnocSearching(header: string, fileName: string, init: seq<string>, x: string)
    requires |Markers(header, init)| == 0
    ensures ByMarkers(header, fileName, init + [x]) == StepRun(header, fileName, ByMarkers(header, fileName, init), x, |init| + 1)
  {
    ReadingNone(header, fileName, init);
    if Contains(x, header) {
      SnocFirstMarker(header, fileName, init, x);
    } else {
      SnocBefore(header, fileName, init, x);
    }
  }

  lemma SnocFirstMarker(header: string, fileName: string, init: seq<string>, x: string)
    requires |Markers(header, init)| == 0 && Contains(x, header)
    ensures ByMarkers(header, fileName, init + [x]) == Step(header, fileName, Normal, [], x, |init| + 1)
  {
    MarkersMarked(header, init, x);
    StepOpens(header, fileName, x, |init| + 1);
    ReadingOpened(header, fileName, init + [x]);
  }

  lemma SnocBefore(header: string, fileName: string, init: seq<string>, x: string)
    requires |Markers(header, init)| == 0 && !Contains(x, header)
    ensures ByMarkers(header, fileName, init + [x]) == Step(header, fileName, Normal, [], x, |init| + 1)
  {
    MarkersUnmarked(header, init, x);
    StepStays(header, fileName, Normal, [], x, |init| + 1);
    ReadingNone(header, fileName, init + [x]);
  }

  lemma ReadingMany(header: string, fileName: string, lines: seq<string>)
    requires |Markers(header, lines)| >= 3
    ensures ByMarkers(header, fileName, lines) == Failed(Fatal(DuplicateSnippet(header), fileName, Markers(header, lines)[2] + 1))
  {
  }

  lemma SnocFailed(header: string, fileName: string, init: seq<string>, x: string)
    requires |Markers(header, init)| >= 3
    ensures ByMarkers(header, fileName, init + [x]) == StepRun(header, fileName, ByMarkers(header, fileName, init), x, |init| + 1)
  {
    var f := Fatal(DuplicateSnippet(header), fileName, Markers(header, init)[2] + 1);
    MarkersThirdKept(header, init, x);
    ReadingMany(header, fileName, init);
    ReadingMany(header, fileName, init + [x]);
    assert StepRun(header, fileName, Failed(f), x, |init| + 1) == Failed(f);
  }

  /** Lines after the third marker leave the third marker where it was. */
  lemma MarkersThirdKept(header: string, init: seq<string>, x: string)
    requires |Markers(header, init)| >= 3
    ensures |Markers(header, init + [x])| >= 3 && Markers(header, init + [x])[2] == Markers(header, init)[2]
  {
    MarkersSnoc(header, init, x);
  }

  /** A line without the marker text adds no marker. */
  lemma MarkersUnmarked(header: string, init: seq<string>, x: string)
    requires !Contains(x, header)
    ensures Markers(header, init + [x]) == Markers(header, init)
  {
    MarkersSnoc(header, init, x);
  }

  /** A line with the marker text adds its own index as the last marker. */
  lemma MarkersMarked(header: string, init: seq<string>, x: string)
    requires Contains(x, header)
    ensures Markers(header, init + [x]) == Markers(header, init) + [|init|]
  {
    MarkersSnoc(header, init, x);
  }

  /** While copying, a line without the marker text is written out. */
  lemma StepCopies(header: string, fileName: string, out: string, x: string, i: nat)
    requires !Contains(x, header)
    ensures Step(header, fileName, Fence, out, x, i) == Running(Fence, out + x + "\n")
  {
  }

  /** The line after the first marker is the first one copied. */
  lemma StepLeavesMarker(header: string, fileName: string, x: string, i: nat)
    requires !Contains(x, header)
    ensures Step(header, fileName, Comment, [], x, i) == Running(Fence, x + "\n")
  {
  }

  /** The second marker, right after the first or after copied lines, ends the snippet. */
  lemma StepCloses(header: string, fileName: string, s: State, out: string, x: string, i: nat)
    requires s == Comment || s == Fence
    requires Contains(x, header)
    ensures Step(header, fileName, s, out, x, i) == Running(End, out)
  {
  }

  /** Before the first marker and after the second, unmarked lines change nothing. */
  lemma StepStays(header: string, fileName: string, s: State, out: string, x: string, i: nat)
    requires s == Normal || s == End
    requires !Contains(x, header)
    ensures Step(header, fileName, s, out, x, i) == Running(s, out)
  {
  }

  lemma StepOpens(header: string, fileName: string, x: string, i: nat)
    requires Contains(x, header)
    ensures Step(header, fileName, Normal, [], x, i) == Running(Comment, [])
  {
  }

  lemma StepDuplicate(header: string, fileName: string, s: State, out: string, x: string, i: nat)
    requires s == End && Contains(x, header)
    ensures Step(header, fileName, s, out, x, i) == Failed(Fatal(DuplicateSnippet(header), fileName, i))
  {
  }

  /** One more line moves the marker reading exactly as fromFile's loop does. */
  lemma ByMarkersSnoc(header: string, fileName: string, init: seq<string>, x: string)
    ensures ByMarkers(header, fileName, init + [x]) == StepRun(header, fileName, ByMarkers(header, fileName, init), x, |init| + 1)
  {
    var m' := Markers(header, init);
    if |m'| == 1 && m'[0] == |init| - 1 {
      SnocOnMarker(header, fileName, init, x);
    } else if |m'| == 1 {
      SnocCopying(header, fileName, init, x);
    } else if |m'| == 2 {
      SnocDone(header, fileName, init, x);
    } else if |m'| == 0 {
      SnocSearching(header, fileName, init, x);
    } else {
      SnocFailed(header, fileName, init, x);
    }
  }

  /** fromFile's loop agrees with the marker reading on every prefix of every file. */
  lemma {:induction false} ScanByMarkers(header: string, fileName: string, lines: seq<string>)
    ensures Scan(header, fileName, lines) == ByMarkers(header, fileName, lines)
    decreases |lines|
  {
    if lines != [] {
      var n := |lines| - 1;
      var init, x := lines[..n], lines[n];
      assert lines == init + [x];
      ScanByMarkers(header, fileName, init);
      ScanSnoc(header, fileName, init, x);
      ByMarkersSnoc(header, fileName, init, x);
      assert Scan(header, fileName, lines) == StepRun(header, fileName, Scan(header, fileName, init), x, |init| + 1);
    }
  }

  /**
   * fromFile's outcome over all inputs: with exactly two marker lines it writes
   * exactly the lines strictly between them; with fewer it fails with "Unable
   * to find snippet" at the last line; with more it fails with "appears second
   * time" at the third marker line.
   */
  lemma ExtractByMarkers(header: string, fileName: string, lines: seq<string>)
    ensures var m := Markers(header, lines);
      var r := Extract(header, fileName, lines);
      && (|m| < 2 ==> r == Err(Fatal(MissingSnippet(header), fileName, |lines|)))
      && (|m| == 2 ==> r == Ok(Join(lines[m[0] + 1..m[1]])))
      && (|m| >= 3 ==> r == Err(Fatal(DuplicateSnippet(header), fileName, m[2] + 1)))
  {
    ScanByMarkers(header, fileName, lines);
  }

  /**
   * fromFile's loop is never in INSIDE_FENCE, and its panic on a marker line
   * fires exactly when the machine is already in END: a COMMENT has always
   * become FENCE before the marker check.
   */
  lemma DuplicateOnlyInEnd(header: string, fileName: string, lines: seq<string>, x: string)
    requires Scan(header, fileName, lines).Running?
    ensures Scan(header, fileName, lines).config != InsideFence
    ensures StepRun(header, fileName, Scan(header, fileName, lines), x, |lines| + 1).Failed? <==>
      Scan(header, fileName, lines).config == End && Contains(x, header)
  {
    ScanByMarkers(header, fileName, lines);
  }

  /** The marker indices of lines that contain no marker text. */
  lemma {:induction false} MarkersNone(header: string, lines: seq<string>)
    requires forall x | x in lines :: !Contains(x, header)
    ensures Markers(header, lines) == []
    decreases |lines|
  {
    if lines != [] {
      var n := |lines| - 1;
      assert lines == lines[..n] + [lines[n]];
      MarkersSnoc(header, lines[..n], lines[n]);
      MarkersNone(header, lines[..n]);
    }
  }

  function Shift(m: seq<nat>, d: nat): (r: seq<nat>)
    ensures |r| == |m| && forall j | 0 <= j < |m| :: r[j] == m[j] + d
  {
    seq(|m|, j requires 0 <= j < |m| => m[j] + d)
  }

  /** Marker indices of a concatenation: those of each part, the second shifted. */
  lemma {:induction false} MarkersAppend(header: string, a: seq<string>, b: seq<string>)
    ensures Markers(header, a + b) == Markers(header, a) + Shift(Markers(header, b), |a|)
    decreases |b|
  {
    if b == [] {
      assert a + b == a;
    } else {
      var n := |b| - 1;
      assert b == b[..n] + [b[n]];
      assert a + b == (a + b[..n]) + [b[n]];
      MarkersSnoc(header, a + b[..n], b[n]);
      MarkersSnoc(header, b[..n], b[n]);
      MarkersAppend(header, a, b[..n]);
    }
  }

  /** The marker lines of A, marker, B, marker, C are the two markers. */
  lemma MarkersOfTagged(header: string, a: seq<string>, open: string, b: seq<string>, close: string, c: seq<string>)
    requires forall x | x in a :: !Contains(x, header)
    requires forall x | x in b :: !Contains(x, header)
    requires forall x | x in c :: !Contains(x, header)
    requires Contains(open, header) && Contains(close, header)
    ensures Markers(header, a + [open] + b + [close] + c) == [|a|, |a| + 1 + |b|]
  {
    var p1 := a + [open];
    var p2 := p1 + b;
    var p3 := p2 + [close];
    MarkersNone(header, a);
    MarkersNone(header, b);
    MarkersNone(header, c);
    MarkersSnoc(header, a, open);
    MarkersAppend(header, p1, b);
    MarkersSnoc(header, p2, close);
    MarkersAppend(header, p3, c);
  }

  /**
   * A file A, marker, B, marker, C (A, B and C free of the marker text) yields
   * exactly B, whatever else the marker lines hold.
   */
  lemma TaggedRoundTrip(header: string, fileName: string,
                        a: seq<string>, open: string, b: seq<string>, close: string, c: seq<string>)
    requires forall x | x in a + b + c :: !Contains(x, header)
    requires Contains(open, header) && Contains(close, header)
    ensures Extract(header, fileName, a + [open] + b + [close] + c) == Ok(Join(b))
  {
    var lines := a + [open] + b + [close] + c;
    assert forall x | x in a :: x in a + b + c;
    assert forall x | x in b :: x in a + b + c;
    assert forall x | x in c :: x in a + b + c;
    MarkersOfTagged(header, a, open, b, close, c);
    ExtractByMarkers(header, fileName, lines);
    assert lines == (a + [open]) + b + ([close] + c);
    assert forall i | 0 <= i < |b| :: lines[|a| + 1 + i] == b[i];
    assert lines[|a| + 1..|a| + 1 + |b|] == b;
  }

  lemma {:induction false} ScanFailedStays(header: string, fileName: string, lines: seq<string>, i: nat)
    requires i <= |lines| && Scan(header, fileName, lines[..i]).Failed?
    ensures Scan(header, fileName, lines) == Scan(header, fileName, lines[..i])
    decreases |lines| - i
  {
    if i < |lines| {
      ScanSnoc(header, fileName, lines[..i], lines[i]);
      assert lines[..i + 1] == lines[..i] + [lines[i]];
      ScanFailedStays(header, fileName, lines, i + 1);
    } else {
      assert lines[..i] == lines;
    }
  }

  /**
   * One pass of fromFile's loop on line `i`: the state moves and the line is
   * written exactly as Step says, or the third marker panics with nothing written.
   */
  method SnippetLine(out: Sink, header: string, fileName: string, state: State, line: string, i: nat)
    returns (r: Result<State>, ghost added: string)
    modifies out
    ensures out.written == old(out.written) + added
    ensures forall emitted :: (Step(header, fileName, state, emitted, line, i) ==
      if r.Ok? then Running(r.value, emitted + added) else Failed(r.failure))
  {
    var s := state;
    if s == Comment {
      s := Fence;
    }
    added := [];
    if Contains(line, header) {
      if s == Normal {
        s := Comment;
      } else if s == Fence {
        s := End;
      } else {
        var p := PanicIf(true, DuplicateSnippet(header), fileName, i);
        return Err(p.failure), added;
      }
    }
    if s == Fence {
      out.WriteString(line + "\n");
      added := line + "\n";
    }
    r := Ok(s);
  }

  /**
   * fromFile: the snippet of `fileName` for marker text `header` is appended to
   * `out`; on a failure the result says which, and `out` has only grown.
   */
  method FromFile(out: Sink, header: string, fileName: string, files: map<string, string>) returns (r: Outcome)
    modifies out
    ensures var expected := ReadSnippet(files, header, fileName);
      && (r.Pass? <==> expected.Ok?)
      && (expected.Ok? ==> out.written == old(out.written) + expected.value)
      && (expected.Err? ==> r == Fail(expected.failure) && StartsWith(out.written, old(out.written)))
  {
    if fileName !in files {
      return Fail(IoFailure(fileName));
    }
    var lines := SplitLines(files[fileName]);
    var state := Normal;
    ghost var emitted := [];
    var i := 0;
    while i < |lines|
      invariant 0 <= i <= |lines|
      invariant Scan(header, fileName, lines[..i]) == Running(state, emitted)
      invariant out.written == old(out.written) + emitted
    {
      ScanSnoc(header, fileName, lines[..i], lines[i]);
      assert lines[..i + 1] == lines[..i] + [lines[i]];
      var next, added := SnippetLine(out, header, fileName, state, lines[i], i + 1);
      i := i + 1;
      if next.Err? {
        ScanFailedStays(header, fileName, lines, i);
        return Fail(next.failure);
      }
      state, emitted := next.value, emitted + added;
    }
    assert lines[..i] == lines;
    r := PanicIf(state != End, MissingSnippet(header), fileName, i);
  }
}
