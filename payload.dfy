/**
 * The text spliced into a fenced block: includeFile (main.go:38-47) for a
 * directive without a tag, fromFile for a tagged one (main.go:111-115).
 */
module Payloads {
  import opened Text
  import opened Base
  import opened Directive
  import Snippet

  /**
   * The files a run can read, by path, and filepath.Join of the document's
   * directory with a directive's path.
   */
  datatype Env = Env(files: map<string, string>, resolve: string -> string)

  /** includeFile: the whole file followed by one "\n"; reading a missing file panics. */
  function WholeFile(files: map<string, string>, fileName: string): (r: Result<string>)
    ensures r.Ok? <==> fileName in files
    ensures r.Ok? ==> |r.value| > 0 && Terminated(r.value) && r.value[..|r.value| - 1] == files[fileName]
    ensures r.Err? ==> r.failure == IoFailure(fileName)
  {
    if fileName in files then Ok(files[fileName] + "\n") else Err(IoFailure(fileName))
  }

  /** What the rewriter writes for a directive: the whole file when the tag is empty, else its snippet. */
  function Payload(env: Env, link: Link): (r: Result<string>)
    ensures link.tag == "" ==> (r.Ok? <==> env.resolve(link.path) in env.files)
    ensures r.Err? ==> var fileName := env.resolve(link.path);
      || r.failure == IoFailure(fileName)
      || (link.tag != "" && Snippet.SnippetFailure(Snippet.Prefix + link.tag, fileName, r.failure))
  {
    var fileName := env.resolve(link.path);
    if link.tag == "" then WholeFile(env.files, fileName)
    else Snippet.ReadSnippet(env.files, Snippet.Prefix + link.tag, fileName)
  }

  /**
   * Every payload is empty (an empty snippet) or ends in a line break, so the
   * line written after it starts a line of its own, and read back as lines it
   * is written out unchanged.
   */
  lemma PayloadTerminated(env: Env, link: Link)
    requires Payload(env, link).Ok?
    ensures Terminated(Payload(env, link).value)
    ensures Join(SplitLines(Payload(env, link).value)) == Payload(env, link).value
  {
    var fileName := env.resolve(link.path);
    if link.tag != "" {
      var header := Snippet.Prefix + link.tag;
      var lines := SplitLines(env.files[fileName]);
      Snippet.ExtractByMarkers(header, fileName, lines);
      var m := Snippet.Markers(header, lines);
      JoinTerminated(lines[m[0] + 1..m[1]]);
    }
    JoinSplit(Payload(env, link).value);
  }

  /** includeFile: appends the file and a line break to `out`, or fails and writes nothing. */
  method IncludeFile(out: Sink, files: map<string, string>, fileName: string) returns (r: Outcome)
    modifies out
    ensures var expected := WholeFile(files, fileName);
      && (r.Pass? <==> expected.Ok?)
      && (expected.Ok? ==> out.written == old(out.written) + expected.value)
      && (expected.Err? ==> r == Fail(expected.failure) && out.written == old(out.written))
  {
    if fileName !in files {
      return Fail(IoFailure(fileName));
    }
    var content := files[fileName];
    out.WriteString(content);
    out.WriteString("\n");
    r := Pass;
  }
}
