/**
 * Line and substring helpers shared by the rewriter and the snippet
 * extractor: Go's strings.HasPrefix and strings.Contains, the
 * `line + "\n"` writes that put lines back together, and the line
 * splitting bufio.ScanLines does on a source file.
 */
module Text {

  /** strings.HasPrefix */
  predicate StartsWith(s: string, prefix: string) {
    |prefix| <= |s| && s[..|prefix|] == prefix
  }

  /** `part` sits at position `k` of `s`. */
  predicate OccursAt(s: string, part: string, k: int) {
    0 <= k && k + |part| <= |s| && s[k..k + |part|] == part
  }

  /** strings.Contains: `part` occurs in `s`, looked for at each position in turn. */
  predicate Contains(s: string, part: string) {
    ContainsFrom(s, part, 0)
  }

  /** `part` occurs in `s` at position `k` or after it. */
  predicate ContainsFrom(s: string, part: string, k: nat)
    decreases |s| - k
  {
    if k + |part| > |s| then false
    else OccursAt(s, part, k) || (k + |part| < |s| && ContainsFrom(s, part, k + 1))
  }

  /** The search finds `part` exactly when it sits at some position of `s`. */
  lemma ContainsSpec(s: string, part: string)
    ensures Contains(s, part) <==> exists k :: OccursAt(s, part, k)
  {
    if Contains(s, part) {
      var k := ContainsFromFound(s, part, 0);
    } else {
      forall k | OccursAt(s, part, k) ensures false {
        ContainsFromMissed(s, part, 0, k);
      }
    }
  }

  lemma {:induction false} ContainsFromFound(s: string, part: string, from: nat) returns (k: nat)
    requires ContainsFrom(s, part, from)
    ensures from <= k && OccursAt(s, part, k)
    decreases |s| - from
  {
    if OccursAt(s, part, from) {
      k := from;
    } else {
      k := ContainsFromFound(s, part, from + 1);
    }
  }

  lemma {:induction false} ContainsFromMissed(s: string, part: string, from: nat, k: int)
    requires from <= k && OccursAt(s, part, k)
    ensures ContainsFrom(s, part, from)
    decreases k - from
  {
    if from < k {
      ContainsFromMissed(s, part, from + 1, k);
    }
  }

  /** Index of the first `c` in `s` at or after `from`, or `|s|` when there is none. */
  function IndexFrom(s: string, c: char, from: nat): (k: nat)
    requires from <= |s|
    ensures from <= k <= |s|
    decreases |s| - from
  {
    if from == |s| || s[from] == c then from else IndexFrom(s, c, from + 1)
  }

  /** IndexFrom stops at the first `c` and passes over nothing but other characters. */
  lemma {:induction false} IndexFromSpec(s: string, c: char, from: nat)
    requires from <= |s|
    ensures var k := IndexFrom(s, c, from);
      && (k < |s| ==> s[k] == c)
      && (forall j | from <= j < k :: s[j] != c)
    decreases |s| - from
  {
    if from < |s| && s[from] != c {
      IndexFromSpec(s, c, from + 1);
    }
  }

  /** The index that has `c` (or is the end) with no `c` before it is where IndexFrom stops. */
  lemma {:induction false} IndexFromIs(s: string, c: char, from: nat, k: nat)
    requires from <= k <= |s|
    requires k < |s| ==> s[k] == c
    requires forall j | from <= j < k :: s[j] != c
    ensures IndexFrom(s, c, from) == k
    decreases k - from
  {
    if from < k {
      IndexFromIs(s, c, from + 1, k);
    }
  }

  /** A slice that ends inside `a` does not see what is appended after it. */
  lemma SliceSnoc<T>(a: seq<T>, x: T, i: nat, j: nat)
    requires i <= j <= |a|
    ensures (a + [x])[i..j] == a[i..j]
  {
  }

  lemma SliceLast<T>(a: seq<T>, x: T)
    ensures (a + [x])[|a|..] == [x]
  {
  }

  lemma SliceEmpty<T>(a: seq<T>, i: nat)
    requires i <= |a|
    ensures a[i..i] == []
  {
  }

  /** What `line + "\n"` written once per line produces. */
  function Join(lines: seq<string>): string {
    if lines == [] then [] else lines[0] + "\n" + Join(lines[1..])
  }

  lemma {:induction false} JoinAppend(a: seq<string>, b: seq<string>)
    ensures Join(a + b) == Join(a) + Join(b)
    decreases |a|
  {
    if a != [] {
      assert (a + b)[1..] == a[1..] + b;
      JoinAppend(a[1..], b);
    } else {
      assert a + b == b;
    }
  }

  lemma JoinSnoc(a: seq<string>, x: string)
    ensures Join(a + [x]) == Join(a) + x + "\n"
  {
    JoinAppend(a, [x]);
    assert Join([x]) == x + "\n" + Join([]);
  }

  lemma JoinOne(x: string)
    ensures Join([x]) == x + "\n"
  {
    assert Join([x]) == x + "\n" + Join([]);
  }

  /** A string that is empty or ends in a newline: what every write of this program produces. */
  predicate Terminated(s: string) {
    s == [] || s[|s| - 1] == '\n'
  }

  /** Joined lines always end in a line break. */
  lemma {:induction false} JoinTerminated(lines: seq<string>)
    ensures Terminated(Join(lines))
    decreases |lines|
  {
    if lines != [] {
      JoinTerminated(lines[1..]);
    }
  }

  /**
   * bufio.ScanLines: the text up to each "\n" is a line, and what follows the
   * last "\n" is one more line when it is not empty.
   */
  function SplitLines(s: string): (lines: seq<string>)
    ensures forall x | x in lines :: '\n' !in x
    decreases |s|
  {
    if s == [] then []
    else
      var k := IndexFrom(s, '\n', 0);
      IndexFromSpec(s, '\n', 0);
      if k == |s| then [s] else [s[..k]] + SplitLines(s[k + 1..])
  }

  lemma SplitLinesCons(x: string, rest: string)
    requires '\n' !in x
    ensures SplitLines(x + "\n" + rest) == [x] + SplitLines(rest)
  {
    var s := x + "\n" + rest;
    assert s[|x|] == '\n';
    assert forall j :: 0 <= j < |x| ==> s[j] == x[j];
    var k := IndexFrom(s, '\n', 0);
    IndexFromSpec(s, '\n', 0);
    assert k == |x|;
    assert s[..k] == x;
    assert s[k + 1..] == rest;
  }

  /** A non-empty terminated string is its first line, a newline and the rest. */
  lemma FirstLine(s: string) returns (x: string, rest: string)
    requires s != [] && Terminated(s)
    ensures '\n' !in x && s == x + "\n" + rest && |rest| < |s| && Terminated(rest)
  {
    var k := IndexFrom(s, '\n', 0);
    IndexFromSpec(s, '\n', 0);
    x, rest := s[..k], s[k + 1..];
    assert s == x + "\n" + rest;
    assert rest != [] ==> rest[|rest| - 1] == s[|s| - 1];
  }

  /** Splitting joined lines gives the lines back. */
  lemma {:induction false} SplitJoin(lines: seq<string>)
    requires forall x | x in lines :: '\n' !in x
    ensures SplitLines(Join(lines)) == lines
    decreases |lines|
  {
    if lines != [] {
      SplitLinesCons(lines[0], Join(lines[1..]));
      SplitJoin(lines[1..]);
    }
  }

  /** Joining the split lines of a terminated string gives the string back. */
  lemma {:induction false} JoinSplit(s: string)
    requires Terminated(s)
    ensures Join(SplitLines(s)) == s
    decreases |s|
  {
    if s != [] {
      var x, rest := FirstLine(s);
      SplitLinesCons(x, rest);
      JoinSplit(rest);
    }
  }

  /** Splitting distributes over concatenation after a line break. */
  lemma {:induction false} SplitAppend(a: string, b: string)
    requires Terminated(a)
    ensures SplitLines(a + b) == SplitLines(a) + SplitLines(b)
    decreases |a|
  {
    if a == [] {
      assert a + b == b;
    } else {
      var x, rest := FirstLine(a);
      calc {
        SplitLines(a + b);
        { assert a + b == x + "\n" + (rest + b); }
        SplitLines(x + "\n" + (rest + b));
        { SplitLinesCons(x, rest + b); }
        [x] + SplitLines(rest + b);
        { SplitAppend(rest, b); }
        [x] + (SplitLines(rest) + SplitLines(b));
        { SplitLinesCons(x, rest); }
        SplitLines(a) + SplitLines(b);
      }
    }
  }

  lemma SplitLine(x: string)
    requires '\n' !in x
    ensures SplitLines(x + "\n") == [x]
  {
    SplitLinesCons(x, []);
    assert x + "\n" + [] == x + "\n";
  }
}
