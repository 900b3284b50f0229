# freshreadme in Dafny

freshreadme keeps a Markdown document in step with source code. A directive
line such as

    <!-- [freshReadmeSource](path/to/File.java#tag) -->

is followed, possibly after some other lines, by a fenced block. The tool
replaces that block's contents with the current text of the source file.
With no `#tag` it takes the whole file. With a tag it takes the lines that
lie strictly between the first two lines containing
`freshReadmeSnippet: tag`. Every other line of the document is copied
unchanged. Any inconsistency aborts the run. A panicIf failure names the
file and a line: the 1-based line at fault, or, for a missing snippet, the
source file's line count, which is 0 for an empty file. A file that cannot
be read is reported without a line.

This project models `refresh`, `fromFile`, `includeFile` and `panicIf` of
`main.go` and proves what they do:

- `text.dfy` (module `Text`): the string operations the program relies on.
  These are `strings.HasPrefix`, `strings.Contains`, and line splitting as
  `bufio.ScanLines` does it, with its round trips.
- `base.dfy` (module `Base`): the state enumeration shared by both
  machines, and the failures that `panicIf` and `check` raise. It also holds
  `PanicIf` and the output file as a class `Sink`, whose `WriteString`
  appends.
- `directive.dfy` (module `Directive`): the regular expression of
  main.go:88.
  - For each occurrence of `[freshReadmeSource](`, the model states exactly
    which path and tag the backtracking matcher reads.
  - The greedy `.*` makes the last matching occurrence the one that is used.
- `snippet.dfy` (module `Snippet`): `fromFile`.
  - Its loop is the method `FromFile`, proved against the fold `Scan`.
  - The fold is then characterised by the marker lines of the file
    (`ExtractByMarkers`).
- `payload.dfy` (module `Payloads`): `includeFile` as the method
  `IncludeFile`, and the payload a directive asks for.
- `rewriter.dfy` (module `Rewriter`): `refresh`.
  - Its loop is the method `Refresh`, and one pass of the loop body is
    `RefreshLine`.
  - Both are proved against the fold `Scan` and its result `Rewrite`.
  - The module also proves that the "Unexpected ```" panic is unreachable.
- `blocks.dfy` (module `Blocks`): what `refresh` does to a whole document.
  - A document is read as plain lines and blocks: a directive, gap lines,
    an opening fence, placeholder lines and a closing fence.
  - The output is each plain line with `"\n"`, and each block with its
    placeholder replaced by its payload.
- `shape.dfy` (module `Shape`): the converse.
  - Every document `refresh` accepts has that shape.
  - The document failures ("Unexpected end of file", "Unable to process
    include in include") are read off the same shape.
- `idempotence.dfy` (module `Idempotence`): refreshing the output again
  reproduces it when no payload refresh writes has a line starting with
  three backticks. A block's rendering does not depend on its placeholder
  lines. A payload line that is a fence can break idempotence.

The file system is a map from path to contents. `filepath.Join(dir, path)`
is a function `resolve` supplied with it. The document is given as its
lines. Failures are values of `Failure`: a kind, the file name and the line
number, or an I/O failure naming the file.

Two behaviours of the code are worth stating outright:

- A fence line seen in NORMAL is copied through. The only branch that
  raises "Unexpected ```" (main.go:125-126) cannot be reached: the
  contract of `Rewriter.Rewrite` lists every failure refresh can end with,
  and that one is not among them.
- A second rewrite reproduces the output when no payload refresh writes has
  a line starting with three backticks (`Idempotence.Idempotent`). Only the
  directives refresh acts on count: a directive-looking line inside a
  placeholder is skipped (main.go:131) and its payload is never written.
  The condition is sufficient, not necessary. A payload line that is a
  fence can break idempotence: `Idempotence.FencedPayload` gives a document
  whose second rewrite adds a line.

Two functions have their contracts in lemmas beside them, so that the
proofs that unfold them stay small. The contract of `Rewriter.Step`, one
pass of refresh's loop, is `Rewriter.StepKeeps`. The contract of
`Directive.MatchFrom`, the downward scan over the occurrences of
`[freshReadmeSource](`, is `Directive.MatchFromLast` together with
`Directive.MatchFromNone`.

## Model

| member | source | states |
|---|---|---|
| Base.PanicIf | main.go:31-36 | fails exactly when the condition holds, and then with the given kind at the given file and line |
| Base.Describe | main.go:31-36 | a panicIf failure's text begins with the message for its kind (the "%s at %s:%d" format) |
| Base.DecimalRoundTrip | main.go:34 | the line number written with %d reads back as the same number |
| Base.Sink.WriteString | main.go:42-46 | a write appends exactly the given text to the output |
| Text.ContainsSpec | main.go:66 | strings.Contains holds exactly when the part occurs at some position of the line |
| Text.SplitJoin | main.go:57-60 | lines without a line break, joined with "\n" after each, are split back into the same lines |
| Text.JoinSplit | main.go:57-60 | a text ending in "\n" is the join of the lines the scanner splits it into |
| Directive.MatchTarget | main.go:88 | the group part `([^#]+)#*(.*?)\)` of the expression: a match reads a non-empty path with no '#' and a tag with no ')' |
| Directive.Parse | main.go:88 | a line that matches the directive expression begins with "<!--" |
| Directive.TargetShape | main.go:88 | a matched path is non-empty, free of '#', starts the link target and is followed by a ')'; a matched tag holds no ')' |
| Directive.MatchFromLast | main.go:88 | scanning the occurrences of "[freshReadmeSource](" downward from a position, a match is the target of the last occurrence there whose target matches, and no occurrence above it matches |
| Directive.MatchFromNone | main.go:88 | when the downward scan finds nothing, no occurrence at or below the start position has a matching target |
| Directive.ParseLast | main.go:88 | the path and tag are read from the last occurrence of "[freshReadmeSource](" whose target matches (the greedy `.*`) |
| Directive.ParseNone | main.go:88 | a line starting "<!--" that is not a directive has no occurrence with a matching target |
| Directive.ParseTagged | main.go:88 | `<!--…[freshReadmeSource](PATH#TAG)…` is a directive for PATH with tag TAG |
| Directive.ParseUntagged | main.go:88 | `<!--…[freshReadmeSource](PATH)…` is a directive for PATH with an empty tag |
| Snippet.Step | main.go:59-79 | one pass of the loop panics only on a marker line, with "appears second time" at that line; otherwise it writes nothing or exactly the line and "\n", never writes a marker line, and never enters INSIDE_FENCE |
| Snippet.Scan | main.go:54-80 | the loop over a file is never in INSIDE_FENCE, and its only panic is "appears second time" in that file at one of its lines |
| Snippet.Extract | main.go:54-82 | fromFile on the lines of a file fails only with "appears second time" or "Unable to find snippet" for its marker, in that file |
| Snippet.ReadSnippet | main.go:49-82 | fromFile on a file system fails with an I/O failure exactly when the file is missing, and otherwise only with its own two snippet panics |
| Snippet.Markers | main.go:66 | the marker line indices are in range and strictly increasing |
| Snippet.MarkersExact | main.go:66 | the marker lines are exactly the lines that contain the marker text anywhere |
| Snippet.ScanByMarkers | main.go:54-80 | after any prefix of the file the loop stands where the marker lines say: nothing before the first, the following lines while copying, exactly the lines between the first two, a failure at the third |
| Snippet.ExtractByMarkers | main.go:54-82 | fewer than two marker lines fail with "Unable to find snippet" at the last line; exactly two give the lines strictly between them, each followed by "\n"; a third fails with "appears second time" at its own line |
| Snippet.DuplicateOnlyInEnd | main.go:62-73 | the loop is never in INSIDE_FENCE, and the marker panic fires exactly on a marker line seen in END |
| Snippet.TaggedRoundTrip | main.go:62-79 | a file A, marker, B, marker, C with no marker in A, B and C yields exactly B, so adjacent markers give an empty snippet and marker lines are never copied |
| Snippet.SnippetLine | main.go:59-79 | one pass of the loop moves the state and writes the line as the fold's step does, or panics on a third marker |
| Snippet.FromFile | main.go:49-83 | succeeds exactly when the file exists and has exactly two marker lines, and then appends exactly the snippet; otherwise fails as the fold says |
| Payloads.WholeFile | main.go:38-47 | includeFile's text exists exactly when the file does, and is the file's contents followed by one "\n"; a missing file is an I/O failure naming it |
| Payloads.Payload | main.go:109-117 | an untagged directive's payload exists exactly when its resolved file does; a payload fails only with an I/O failure on the resolved file or, for a tag, a snippet panic for "freshReadmeSnippet: " + tag in that file |
| Payloads.IncludeFile | main.go:38-47 | succeeds exactly when the file exists, and then appends exactly its contents and one "\n"; a missing file fails and writes nothing |
| Payloads.PayloadTerminated | main.go:38-47 | every payload is empty or ends in "\n", and is the join of its own lines |
| Rewriter.WritePayload | main.go:111-115 | an empty tag writes the whole file, any other tag the snippet for "freshReadmeSnippet: " + tag; success and output agree with the payload |
| Rewriter.StepKeeps | main.go:105-141 | one pass of the loop body only appends to the output; from a reachable configuration it stays reachable and panics only over an include or with "Unable to process include in include" on its own line |
| Rewriter.Scan | main.go:98-142 | the loop is never in END, remembers no path or tag in NORMAL or INSIDE_FENCE, and panics of its own only with "Unable to process include in include" at one of the document's lines |
| Rewriter.Rewrite | main.go:98-145 | refresh fails only over an include, with "Unable to process include in include" at a line of the document, or with "Unexpected end of file" at the last line; never with "Unexpected ```" |
| Rewriter.FailedPrefix | main.go:105-145 | a document whose first lines panic ends with that panic, whatever follows |
| Rewriter.FailedAppend | main.go:105-142 | once a line has panicked, the lines after it change nothing |
| Rewriter.DirectiveIsNotFence | main.go:120 | a directive line never starts a fence |
| Rewriter.RefreshLine | main.go:105-141 | one pass of the loop body moves the state, writes the payload and the line, or panics, exactly as the fold's step does |
| Rewriter.Refresh | main.go:85-151 | the run's result is the fold's: the new text, or the first panic, or "Unexpected end of file" when the last line leaves the machine outside NORMAL |
| Blocks.ScanFlatten | main.go:105-142 | over a document of plain lines and blocks, the loop ends in NORMAL having written each segment's rendering, or fails at the first payload that cannot be read |
| Blocks.RewriteWellFormed | main.go:105-145 | pass-through and placement: plain lines, directives, gap lines and both fences are copied in order with "\n"; each block's placeholder is replaced by its payload, once, between the fences |
| Shape.Decompose | main.go:105-142 | every document the loop gets through is plain lines and blocks followed by at most one unfinished block, and the loop's state and output are those of that shape |
| Shape.RewriteOk | main.go:105-145 | every document refresh accepts is plain lines and finished blocks, and its output is their rendering |
| Shape.EndInsideBlock | main.go:145 | a pending directive, an opening fence as the last line or an unclosed fence fails with "Unexpected end of file" at the last line |
| Shape.EndFailure | main.go:145 | conversely, a document read to its end and then rejected stops inside a block, with "Unexpected end of file" at the last line |
| Shape.NestedDirective | main.go:131-132 | after any document prefix refresh accepts, a directive, its gap lines and a second directive before the opening fence fail with "Unable to process include in include" on the second directive's line, whatever follows |
| Idempotence.PlaceholderIgnored | main.go:109-118 | a block renders the same whatever its placeholder lines, as long as none is a fence |
| Idempotence.PlaceholderIndependent | main.go:109-141 | replacing one block's placeholder lines by any other non-fence lines, none included, leaves the rewritten document unchanged |
| Idempotence.SpliceLines | main.go:109-141 | a rewritten block read back as lines is the directive, the gap, the opening fence, the payload's lines and the closing fence |
| Idempotence.RefillAllLines | main.go:109-141 | for an accepted document of lines without line breaks whose blocks all have payloads with no fence line, the output read back as lines is the document with every placeholder replaced by its payload's lines, and renders the same |
| Idempotence.Idempotent | main.go:105-145 | if every directive refresh acts on (one it reaches in NORMAL, so not one inside a placeholder) has a payload with no line starting with ```, rewriting the output with the same sources gives the output again |
| Idempotence.ActedBlocks | main.go:105-141 | in a document refresh accepts, every block's directive is one refresh acts on, so when the directives it acts on have fence-free payloads, every block's payload is fence-free |
| Idempotence.FencedPayload | main.go:120-124 | with a payload that is one fence line, the output read back is a closed block and an extra fence, and a second rewrite adds that fence line again |

## Left out

- File and operating-system I/O is not modelled. This covers `os.Open`, `os.Create`, the `.tmp` scratch file, `os.Rename` and the argument handling of `main` (main.go:90-96, 147-159). `Rewriter.Refresh` takes the document's lines and returns the new text, or the failure.
- `filepath.Dir` and `filepath.Join` (main.go:86, 112, 114) are library calls. They are the function `resolve` of `Payloads.Env`, applied to the directive's path.
- `bufio.Scanner` details are not modelled: stripping a trailing `\r`, the 64 KiB line limit and `scanner.Err()` (main.go:57, 104, 143). The document is given as lines, and source files are split by `Text.SplitLines`.
- The RE2 engine is not modelled as a general regular-expression matcher. `Directive.Parse` is the outcome of the one expression at main.go:88, worked out for each occurrence of the link opening.
- Documents and source files are modelled as character strings, while Go works on bytes (`strings.Contains`, `strings.HasPrefix`, the RE2 match and `ioutil.ReadFile`). Contents that are not text, such as invalid UTF-8, are not modelled; matching is stated only on text.
- Failures carry their kind, file and line, not Go's panic values. `Base.Describe` gives the text of a panicIf failure. For an I/O failure it gives only the file and a fixed reason, not the operating system's error.
- `check` on a write (main.go:43, 46, 78, 139) never fails in the model, because writes into the scratch file are taken to succeed.
- Rewriter.Refresh: what the scratch file holds after a panic is not stated, because the document is never replaced in that case.
- Rewriter.WritePayload: on failure it does not state what the snippet extractor streamed before it panicked, because only the discarded scratch file holds it.
- Snippet.FromFile: on failure it states only that the output has grown, not which lines were streamed before the panic, for the same reason.
