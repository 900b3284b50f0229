/**
 * refresh (main.go:85-151): the document rewriter.
 *
 * Each document line goes through four steps in order:
 *   1. in FENCE (the previous line opened the fence) the payload is written
 *      and the machine moves to INSIDE_FENCE, forgetting the directive;
 *   2. a line starting with ``` moves COMMENT to FENCE and INSIDE_FENCE to
 *      NORMAL, leaves NORMAL alone and is an error in any other state;
 *   3. a directive line outside INSIDE_FENCE moves NORMAL to COMMENT,
 *      remembering its path and tag, and is an error in any other state;
 *   4. the line is copied with "\n" unless the machine is INSIDE_FENCE.
 * The document must end in NORMAL.
 */
module Rewriter {
  import opened Text
  import opened Base
  import opened Directive
  import opened Payloads
  import Snippet

  const FenceMark := "```"

  predicate IsFence(line: string) {
    StartsWith(line, FenceMark)
  }

  /** The loop's variables `state`, `header` (the tag) and `source` (the path). */
  datatype Cfg = Cfg(state: State, header: string, source: string)

  const Start := Cfg(Normal, "", "")

  /** Step 1. */
  function EmitPayload(env: Env, c: Cfg, out: string): Run<Cfg> {
    if c.state != Fence then Running(c, out)
    else
      match Payload(env, Link(c.source, c.header))
      case Err(f) => Failed(f)
      case Ok(p) => Running(Cfg(InsideFence, "", ""), out + p)
  }

  /** Step 2. */
  function FenceCheck(docName: string, c: Cfg, out: string, line: string, i: nat): Run<Cfg> {
    if !IsFence(line) then Running(c, out)
    else if c.state == Comment then Running(c.(state := Fence), out)
    else if c.state == InsideFence then Running(c.(state := Normal), out)
    else if c.state != Normal then Failed(Fatal(UnexpectedFence, docName, i))
    else Running(c, out)
  }

  /** Step 3. */
  function DirectiveCheck(docName: string, c: Cfg, out: string, line: string, i: nat): Run<Cfg> {
    match Parse(line)
    case None => Running(c, out)
    case Some(link) =>
      if c.state == InsideFence then Running(c, out)
      else if c.state != Normal then Failed(Fatal(NestedInclude, docName, i))
      else Running(Cfg(Comment, link.tag, link.path), out)
  }

  /** Step 4. */
  function CopyLine(c: Cfg, out: string, line: string): Run<Cfg> {
    Running(c, if c.state != InsideFence then out + line + "\n" else out)
  }

  /**
   * The configurations refresh's loop can be in: never END, and NORMAL and
   * INSIDE_FENCE only with no directive remembered.
   */
  predicate Reachable(c: Cfg) {
    c.state != End && (c.state in {Normal, InsideFence} ==> c.header == "" && c.source == "")
  }

  /** A panic raised while a source file is included: it is missing, or its snippet markers are wrong. */
  predicate IncludeFailure(f: Failure) {
    f.IoFailure? || (f.Fatal? && (f.kind.DuplicateSnippet? || f.kind.MissingSnippet?))
  }

  /** One iteration of refresh's loop on line number `i` (1-based). */
  function Step(env: Env, docName: string, c: Cfg, out: string, line: string, i: nat): Run<Cfg> {
    match EmitPayload(env, c, out)
    case Failed(f) => Failed(f)
    case Running(c1, o1) =>
      match FenceCheck(docName, c1, o1, line, i)
      case Failed(f) => Failed(f)
      case Running(c2, o2) =>
        match DirectiveCheck(docName, c2, o2, line, i)
        case Failed(f) => Failed(f)
        case Running(c3, o3) => CopyLine(c3, o3, line)
  }

  /**
   * What one iteration keeps: the output only grows; from a reachable
   * configuration the loop stays reachable, and it panics only over an
   * include or with "Unable to process include in include" on this line,
   * never with "Unexpected ```".
   */
  lemma StepKeeps(env: Env, docName: string, c: Cfg, out: string, line: string, i: nat)
    ensures var r := Step(env, docName, c, out, line, i);
      && (r.Running? ==> StartsWith(r.out, out))
      && (r.Running? && Reachable(c) ==> Reachable(r.config))
      && (r.Failed? ==> IncludeFailure(r.failure) || (r.failure.Fatal? && r.failure.file == docName && r.failure.line == i))
      && (r.Failed? && Reachable(c) ==> IncludeFailure(r.failure) || r.failure == Fatal(NestedInclude, docName, i))
  {
  }

  function StepRun(env: Env, docName: string, r: Run<Cfg>, line: string, i: nat): Run<Cfg> {
    match r
    case Failed(f) => Failed(f)
    case Running(c, out) => Step(env, docName, c, out, line, i)
  }

  /**
   * refresh's loop over the given lines, from NORMAL with nothing written. It
   * never reaches END, and a panic of its own is "Unable to process include
   * in include" at one of the lines.
   */
  function Scan(env: Env, docName: string, lines: seq<string>): (r: Run<Cfg>)
    ensures r.Running? ==> Reachable(r.config)
    ensures r.Failed? ==> IncludeFailure(r.failure) || (r.failure.Fatal? && r.failure.kind == NestedInclude)
    ensures r.Failed? && r.failure.Fatal? && r.failure.kind == NestedInclude ==>
      r.failure.file == docName && 1 <= r.failure.line <= |lines|
    decreases |lines|
  {
    if lines == [] then Running(Start, [])
    else
      match Scan(env, docName, lines[..|lines| - 1])
      case Failed(f) => Failed(f)
      case Running(c, out) =>
        StepKeeps(env, docName, c, out, lines[|lines| - 1], |lines|);
        Step(env, docName, c, out, lines[|lines| - 1], |lines|)
  }

  /**
   * refresh: the new document text, or the failure it panics with. Besides
   * the include failures, it fails only with "Unable to process include in
   * include" at a line of the document or "Unexpected end of file" at its
   * last line; "Unexpected ```" (main.go:125-126) is never raised.
   */
  function Rewrite(env: Env, docName: string, lines: seq<string>): (r: Result<string>)
    ensures r.Err? ==> || IncludeFailure(r.failure)
                       || (r.failure.Fatal? && r.failure.kind == NestedInclude && r.failure.file == docName && 1 <= r.failure.line <= |lines|)
                       || r.failure == Fatal(UnexpectedEnd, docName, |lines|)
    ensures r.Err? ==> !(r.failure.Fatal? && r.failure.kind == UnexpectedFence)
  {
    match Scan(env, docName, lines)
    case Failed(f) => Err(f)
    case Running(c, out) =>
      if c.state != Normal then Err(Fatal(UnexpectedEnd, docName, |lines|)) else Ok(out)
  }

  lemma ScanSnoc(env: Env, docName: string, lines: seq<string>, x: string)
    ensures Scan(env, docName, lines + [x]) == StepRun(env, docName, Scan(env, docName, lines), x, |lines| + 1)
  {
    assert (lines + [x])[..|lines|] == lines;
  }

  /** Once a line has failed, the rest of the document does not matter. */
  lemma {:induction false} FailedAppend(env: Env, docName: string, lines: seq<string>, rest: seq<string>)
    requires Scan(env, docName, lines).Failed?
    ensures Scan(env, docName, lines + rest) == Scan(env, docName, lines)
    decreases |rest|
  {
    if rest == [] {
      assert lines + rest == lines;
    } else {
      var n := |rest| - 1;
      assert lines + rest == (lines + rest[..n]) + [rest[n]];
      FailedAppend(env, docName, lines, rest[..n]);
      ScanSnoc(env, docName, lines + rest[..n], rest[n]);
    }
  }

  /** A document whose first `n` lines panic fails with that panic. */
  lemma FailedPrefix(env: Env, docName: string, lines: seq<string>, n: nat)
    requires n <= |lines| && Scan(env, docName, lines[..n]).Failed?
    ensures Rewrite(env, docName, lines) == Err(Scan(env, docName, lines[..n]).failure)
  {
    FailedAppend(env, docName, lines[..n], lines[n..]);
    assert lines[..n] + lines[n..] == lines;
  }

  /** Scanning one more line takes one more step. */
  lemma Advance(env: Env, docName: string, lines: seq<string>, i: nat)
    requires i < |lines|
    ensures Scan(env, docName, lines[..i + 1]) == StepRun(env, docName, Scan(env, docName, lines[..i]), lines[i], i + 1)
  {
    assert lines[..i + 1] == lines[..i] + [lines[i]];
    ScanSnoc(env, docName, lines[..i], lines[i]);
  }

  lemma StepPhases(env: Env, docName: string, c0: Cfg, o0: string, c1: Cfg, o1: string, c2: Cfg, c3: Cfg, line: string, i: nat)
    requires EmitPayload(env, c0, o0) == Running(c1, o1)
    requires FenceCheck(docName, c1, o1, line, i) == Running(c2, o1)
    requires DirectiveCheck(docName, c2, o1, line, i) == Running(c3, o1)
    ensures Step(env, docName, c0, o0, line, i) == CopyLine(c3, o1, line)
  {
  }

  lemma EmitFails(env: Env, docName: string, c0: Cfg, o0: string, line: string, i: nat, f: Failure)
    requires EmitPayload(env, c0, o0) == Failed(f)
    ensures Step(env, docName, c0, o0, line, i) == Failed(f)
  {
  }

  lemma FenceFails(env: Env, docName: string, c0: Cfg, o0: string, c1: Cfg, o1: string, line: string, i: nat, f: Failure)
    requires EmitPayload(env, c0, o0) == Running(c1, o1)
    requires FenceCheck(docName, c1, o1, line, i) == Failed(f)
    ensures Step(env, docName, c0, o0, line, i) == Failed(f)
  {
  }

  lemma DirectiveFails(env: Env, docName: string, c0: Cfg, o0: string, c1: Cfg, o1: string, c2: Cfg, line: string, i: nat, f: Failure)
    requires EmitPayload(env, c0, o0) == Running(c1, o1)
    requires FenceCheck(docName, c1, o1, line, i) == Running(c2, o1)
    requires DirectiveCheck(docName, c2, o1, line, i) == Failed(f)
    ensures Step(env, docName, c0, o0, line, i) == Failed(f)
  {
  }

  /** A directive line begins "<!--", so it never starts a fence. */
  lemma DirectiveIsNotFence(line: string)
    requires IsDirective(line)
    ensures !IsFence(line)
  {
    assert line[..|Opening|] == Opening;
    assert line[0] == '<';
  }

  /** main.go:111-115: includeFile without a tag, fromFile with the tag's marker text otherwise. */
  method WritePayload(out: Sink, env: Env, link: Link) returns (r: Outcome)
    modifies out
    ensures var expected := Payload(env, link);
      && (r.Pass? <==> expected.Ok?)
      && (expected.Ok? ==> out.written == old(out.written) + expected.value)
      && (expected.Err? ==> r == Fail(expected.failure))
  {
    if link.tag == "" {
      r := IncludeFile(out, env.files, env.resolve(link.path));
    } else {
      r := Snippet.FromFile(out, Snippet.Prefix + link.tag, env.resolve(link.path), env.files);
    }
  }

  /**
   * The body of refresh's loop on line number `i`: the four steps, with the
   * machine's variables passed in as `c` and handed back, or the panic.
   */
  method RefreshLine(out: Sink, env: Env, docName: string, c: Cfg, line: string, i: nat) returns (r: Result<Cfg>)
    modifies out
    ensures Step(env, docName, c, old(out.written), line, i) ==
      if r.Ok? then Running(r.value, out.written) else Failed(r.failure)
  {
    var state, header, source := c.state, c.header, c.source;
    ghost var o0 := out.written;

    if state == Fence {
      state := InsideFence;
      var o := WritePayload(out, env, Link(source, header));
      if o.Fail? {
        EmitFails(env, docName, c, o0, line, i, o.failure);
        return Err(o.failure);
      }
      header := "";
      source := "";
    }
    ghost var c1, o1 := Cfg(state, header, source), out.written;
    assert EmitPayload(env, c, o0) == Running(c1, o1);

    if StartsWith(line, FenceMark) {
      if state == Comment {
        state := Fence;
      } else if state == InsideFence {
        state := Normal;
      } else if state != Normal {
        var p := PanicIf(true, UnexpectedFence, docName, i);
        FenceFails(env, docName, c, o0, c1, o1, line, i, p.failure);
        return Err(p.failure);
      }
    }
    ghost var c2 := Cfg(state, header, source);
    assert FenceCheck(docName, c1, o1, line, i) == Running(c2, o1);

    var matches := Parse(line);
    if matches.Some? && state != InsideFence {
      var p := PanicIf(state != Normal, NestedInclude, docName, i);
      if p.Fail? {
        DirectiveFails(env, docName, c, o0, c1, o1, c2, line, i, p.failure);
        return Err(p.failure);
      }
      state := Comment;
      header := matches.value.tag;
      source := matches.value.path;
    }
    ghost var c3 := Cfg(state, header, source);
    assert DirectiveCheck(docName, c2, o1, line, i) == Running(c3, o1);

    if state != InsideFence {
      out.WriteString(line + "\n");
    }
    StepPhases(env, docName, c, o0, c1, o1, c2, c3, line, i);
    r := Ok(Cfg(state, header, source));
  }

  /** refresh: rewrite the document `lines`, writing into a scratch output, and return its new text. */
  method Refresh(env: Env, docName: string, lines: seq<string>) returns (r: Result<string>)
    ensures r == Rewrite(env, docName, lines)
  {
    var out := new Sink();
    var state, header, source := Normal, "", "";
    var i := 0;
    while i < |lines|
      invariant 0 <= i <= |lines|
      invariant Scan(env, docName, lines[..i]) == Running(Cfg(state, header, source), out.written)
    {
      Advance(env, docName, lines, i);
      var next := RefreshLine(out, env, docName, Cfg(state, header, source), lines[i], i + 1);
      if next.Err? {
        FailedPrefix(env, docName, lines, i + 1);
        return Err(next.failure);
      }
      state, header, source := next.value.state, next.value.header, next.value.source;
      i := i + 1;
    }
    assert lines[..i] == lines;
    var p := PanicIf(state != Normal, UnexpectedEnd, docName, i);
    if p.Fail? {
      return Err(p.failure);
    }
    r := Ok(out.written);
  }
}
