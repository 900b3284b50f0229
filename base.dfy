/**
 * What the document rewriter and the snippet extractor share: the state
 * enumeration both machines run on (main.go's `base`), the fatal failures
 * that panicIf and check raise, and the output file both write into.
 */
module Base {

  /** main.go's `base`: NORMAL, COMMENT, FENCE, INSIDE_FENCE, END. */
  datatype State = Normal | Comment | Fence | InsideFence | End

  /** The conditions panicIf is called with; the two snippet messages name the marker text. */
  datatype ErrorKind =
    | DuplicateSnippet(header: string)
    | MissingSnippet(header: string)
    | UnexpectedFence
    | NestedInclude
    | UnexpectedEnd

  /**
   * A panic: panicIf's failure at a file and line, or check's failure on a
   * file that cannot be opened, which names no line. The line is 1-based,
   * except that a missing snippet is reported at the source file's line
   * count, which is 0 for an empty file.
   */
  datatype Failure =
    | Fatal(kind: ErrorKind, file: string, line: nat)
    | IoFailure(file: string)

  datatype Option<T> = None | Some(value: T)

  datatype Result<T> = Ok(value: T) | Err(failure: Failure)

  /** The outcome of an operation that only writes: it finished, or it panicked. */
  datatype Outcome = Pass | Fail(failure: Failure)

  /** A machine part-way through its input: its configuration and what it has written so far. */
  datatype Run<C> = Running(config: C, out: string) | Failed(failure: Failure)

  /** The format string panicIf is given for each condition, with its argument filled in. */
  function Message(kind: ErrorKind): string {
    match kind
    case DuplicateSnippet(header) => "Snippet `" + header + "` appears second time"
    case MissingSnippet(header) => "Unable to find snippet `" + header + "`"
    case UnexpectedFence => "Unexpected ```"
    case NestedInclude => "Unable to process include in include"
    case UnexpectedEnd => "Unexpected end of file"
  }

  predicate IsDigit(c: char) {
    '0' <= c <= '9'
  }

  /** `%d` */
  function Decimal(n: nat): (s: string)
    ensures |s| > 0 && forall c | c in s :: IsDigit(c)
    decreases n
  {
    var last := ['0' + ((n % 10) as char)];
    if n < 10 then last else Decimal(n / 10) + last
  }

  /** The number a string of decimal digits denotes. */
  function ValueOf(s: string): int
    requires forall c | c in s :: IsDigit(c)
    decreases |s|
  {
    if s == [] then 0
    else
      assert s[|s| - 1] in s;
      ValueOf(s[..|s| - 1]) * 10 + (s[|s| - 1] as int - '0' as int)
  }

  /** The line number in a panic message reads back as the number that was formatted. */
  lemma {:induction false} DecimalRoundTrip(n: nat)
    ensures ValueOf(Decimal(n)) == n
    decreases n
  {
    var s := Decimal(n);
    if n >= 10 {
      DecimalRoundTrip(n / 10);
      assert s[..|s| - 1] == Decimal(n / 10);
    }
  }

  /**
   * The panic value: panicIf's "%s at %s:%d", and for check the error os.Open
   * or ioutil.ReadFile reports for a file that is not there.
   */
  function Describe(f: Failure): (text: string)
    ensures f.Fatal? ==> StartsWithMessage(text, Message(f.kind))
  {
    match f
    case Fatal(kind, file, line) => Message(kind) + " at " + file + ":" + Decimal(line)
    case IoFailure(file) => "open " + file + ": no such file or directory"
  }

  predicate StartsWithMessage(text: string, message: string) {
    |message| <= |text| && text[..|message|] == message
  }

  /** panicIf: fail with the given kind at file:line exactly when the condition holds. */
  function PanicIf(condition: bool, kind: ErrorKind, file: string, line: nat): (r: Outcome)
    ensures r.Fail? <==> condition
    ensures r.Fail? ==> r.failure == Fatal(kind, file, line)
  {
    if condition then Fail(Fatal(kind, file, line)) else Pass
  }

  /** The scratch file a run writes into (`out` in main.go). */
  class Sink {
    var written: string

    constructor ()
      ensures written == []
    {
      written := [];
    }

    /** out.WriteString / out.Write: the bytes are appended. */
    method WriteString(s: string)
      modifies this
      ensures written == old(written) + s
    {
      written := written + s;
    }
  }
}
