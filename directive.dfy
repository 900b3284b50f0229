/**
 * The directive matcher of main.go:88, the regular expression
 *   ^<!--.*\[freshReadmeSource\]\(([^#]+)#*(.*?)\)
 * whose first group is the source path and second group the tag.
 *
 * Go's regexp reports the submatches a backtracking matcher would choose.
 * For one occurrence of "[freshReadmeSource](" followed by the text `rest`,
 * with `hash` the first '#' of `rest` and `close` its last ')':
 *   - the greedy `[^#]+` takes min(hash, close) characters, and needs at least one;
 *   - when it stopped at a '#', `#*` takes every following '#' and the lazy
 *     `(.*?)` runs to the first ')' after them;
 *   - when it stopped before the last ')', the tag is empty.
 * The greedy `.*` tries the occurrences from the last one back to the first
 * and keeps the first that matches.
 */
module Directive {
  import opened Text
  import opened Base

  /** A parsed directive: the source path and the tag ("" when there is none). */
  datatype Link = Link(path: string, tag: string)

  const Opening := "<!--"
  const SourceLink := "[freshReadmeSource]("

  /** Index of the last `c` in `s[..upto]`, or -1 when there is none. */
  function LastIndex(s: string, c: char, upto: nat): (k: int)
    requires upto <= |s|
    ensures -1 <= k < upto
    decreases upto
  {
    if upto == 0 then -1
    else if s[upto - 1] == c then upto - 1
    else LastIndex(s, c, upto - 1)
  }

  lemma {:induction false} LastIndexSpec(s: string, c: char, upto: nat)
    requires upto <= |s|
    ensures var k := LastIndex(s, c, upto);
      && (k >= 0 ==> s[k] == c)
      && (forall j | k < j < upto :: s[j] != c)
    decreases upto
  {
    if upto > 0 && s[upto - 1] != c {
      LastIndexSpec(s, c, upto - 1);
    }
  }

  lemma {:induction false} LastIndexIs(s: string, c: char, upto: nat, k: int)
    requires upto <= |s| && -1 <= k < upto
    requires k >= 0 ==> s[k] == c
    requires forall j | k < j < upto :: s[j] != c
    ensures LastIndex(s, c, upto) == k
    decreases upto
  {
    if k < upto - 1 {
      LastIndexIs(s, c, upto - 1, k);
    }
  }

  /** The first index at or after `from` that does not hold a '#'. */
  function SkipHashes(s: string, from: nat): (k: nat)
    requires from <= |s|
    ensures from <= k <= |s|
    decreases |s| - from
  {
    if from == |s| || s[from] != '#' then from else SkipHashes(s, from + 1)
  }

  lemma {:induction false} SkipHashesSpec(s: string, from: nat)
    requires from <= |s|
    ensures var k := SkipHashes(s, from);
      && (forall j | from <= j < k :: s[j] == '#')
      && (k < |s| ==> s[k] != '#')
    decreases |s| - from
  {
    if from < |s| && s[from] == '#' {
      SkipHashesSpec(s, from + 1);
    }
  }

  /**
   * `([^#]+)#*(.*?)\)` on the text that follows one "[freshReadmeSource](":
   * a match reads a non-empty path free of '#' and a tag free of ')'.
   */
  function MatchTarget(rest: string): (r: Option<Link>)
    ensures r.Some? ==> |r.value.path| > 0 && '#' !in r.value.path && ')' !in r.value.tag
  {
    var hash := IndexFrom(rest, '#', 0);
    var close := LastIndex(rest, ')', |rest|);
    IndexFromSpec(rest, '#', 0);
    if close < 0 then None
    else if hash < close then
      if hash == 0 then None
      else
        var t := SkipHashes(rest, hash);
        var e := IndexFrom(rest, ')', t);
        IndexFromSpec(rest, ')', t);
        Some(Link(rest[..hash], rest[t..e]))
    else if close == 0 then None
    else Some(Link(rest[..close], ""))
  }

  /** A matched path starts the link target and a ')' follows it. */
  lemma TargetShape(rest: string)
    requires MatchTarget(rest).Some?
    ensures var link := MatchTarget(rest).value;
      StartsWith(rest, link.path) && ')' in rest[|link.path|..]
  {
    var hash := IndexFrom(rest, '#', 0);
    var close := LastIndex(rest, ')', |rest|);
    IndexFromSpec(rest, '#', 0);
    LastIndexSpec(rest, ')', |rest|);
    var link := MatchTarget(rest).value;
    if hash < close {
      assert rest[|link.path|..][close - hash] == ')';
    } else {
      assert rest[|link.path|..][0] == ')';
    }
  }

  /** The occurrences of "[freshReadmeSource](" at `k` and below, last first. */
  function MatchFrom(line: string, k: int): Option<Link>
    requires k + |SourceLink| <= |line|
    decreases k
  {
    if k < |Opening| then None
    else if OccursAt(line, SourceLink, k) && MatchTarget(line[k + |SourceLink|..]).Some? then
      MatchTarget(line[k + |SourceLink|..])
    else MatchFrom(line, k - 1)
  }

  /** FindStringSubmatch with the directive expression: the path and tag, or None. */
  function Parse(line: string): (r: Option<Link>)
    ensures r.Some? ==> StartsWith(line, Opening)
  {
    if !StartsWith(line, Opening) || |line| < |Opening| + |SourceLink| then None
    else MatchFrom(line, |line| - |SourceLink|)
  }

  predicate IsDirective(line: string) {
    Parse(line).Some?
  }

  /** An occurrence of "[freshReadmeSource](" after the opening whose target matches. */
  predicate MatchesAt(line: string, j: int) {
    |Opening| <= j && OccursAt(line, SourceLink, j) && MatchTarget(line[j + |SourceLink|..]).Some?
  }

  lemma MatchFromAt(line: string, k: int)
    requires k + |SourceLink| <= |line| && MatchesAt(line, k)
    ensures MatchFrom(line, k) == MatchTarget(line[k + |SourceLink|..])
  {
  }

  lemma MatchFromBelow(line: string, k: int)
    requires k + |SourceLink| <= |line| && |Opening| <= k && !MatchesAt(line, k)
    ensures MatchFrom(line, k) == MatchFrom(line, k - 1)
  {
  }

  /** MatchFrom answers with the target of the last matching occurrence at or below `k`. */
  lemma {:induction false} MatchFromLast(line: string, k: int) returns (j: int)
    requires k + |SourceLink| <= |line| && MatchFrom(line, k).Some?
    ensures j <= k && MatchesAt(line, j)
    ensures MatchFrom(line, k) == MatchTarget(line[j + |SourceLink|..])
    ensures forall j' | j < j' <= k :: !MatchesAt(line, j')
    decreases k, 1
  {
    if MatchesAt(line, k) {
      MatchFromAt(line, k);
      j := k;
    } else {
      MatchFromBelow(line, k);
      j := LastBelow(line, k);
    }
  }

  lemma {:induction false} LastBelow(line: string, k: int) returns (j: int)
    requires k + |SourceLink| <= |line| && |Opening| <= k && !MatchesAt(line, k)
    requires MatchFrom(line, k - 1).Some?
    ensures j < k && MatchesAt(line, j)
    ensures MatchFrom(line, k - 1) == MatchTarget(line[j + |SourceLink|..])
    ensures forall j' | j < j' <= k :: !MatchesAt(line, j')
    decreases k, 0
  {
    j := MatchFromLast(line, k - 1);
  }

  /** MatchFrom finds nothing exactly when no occurrence at or below `k` matches. */
  lemma {:induction false} MatchFromNone(line: string, k: int)
    requires k + |SourceLink| <= |line| && MatchFrom(line, k).None?
    ensures forall j | j <= k :: !MatchesAt(line, j)
    decreases k
  {
    if k >= |Opening| {
      assert !MatchesAt(line, k);
      MatchFromNone(line, k - 1);
    }
  }

  /**
   * The greedy `.*`: a directive starts with "<!--", and its path and tag are
   * read from the last occurrence of the link opening whose target matches.
   */
  lemma ParseLast(line: string) returns (j: int)
    requires Parse(line).Some?
    ensures StartsWith(line, Opening) && MatchesAt(line, j)
    ensures Parse(line) == MatchTarget(line[j + |SourceLink|..])
    ensures forall j' | j < j' :: !MatchesAt(line, j')
  {
    j := MatchFromLast(line, |line| - |SourceLink|);
    forall j' | j < j' ensures !MatchesAt(line, j') {
      if j' > |line| - |SourceLink| {
        assert !OccursAt(line, SourceLink, j');
      }
    }
  }

  /** A line starting with "<!--" that is not a directive has no matching link at all. */
  lemma ParseNone(line: string)
    requires StartsWith(line, Opening) && Parse(line).None?
    ensures forall j :: !MatchesAt(line, j)
  {
    if |line| >= |Opening| + |SourceLink| {
      MatchFromNone(line, |line| - |SourceLink|);
      forall j ensures !MatchesAt(line, j) {
        if j > |line| - |SourceLink| {
          assert !OccursAt(line, SourceLink, j);
        }
      }
    } else {
      forall j | |Opening| <= j ensures !OccursAt(line, SourceLink, j) {
      }
    }
  }

  /** Occurrences that cannot start at any index above `k0` are skipped over. */
  lemma {:induction false} SkipToOccurrence(line: string, k: int, k0: int)
    requires |Opening| <= k0 <= k && k + |SourceLink| <= |line|
    requires forall j | k0 < j <= k :: line[j] != '['
    ensures MatchFrom(line, k) == MatchFrom(line, k0)
    decreases k
  {
    if k > k0 {
      assert line[k..k + |SourceLink|][0] == line[k] != '[' == SourceLink[0];
      assert MatchFrom(line, k) == MatchFrom(line, k - 1);
      SkipToOccurrence(line, k - 1, k0);
    }
  }

  /** The tagged target `PATH#TAG)...` yields the path and the tag. */
  lemma TargetTagged(path: string, tag: string, trailer: string)
    requires |path| > 0 && '#' !in path
    requires '#' !in tag && ')' !in tag
    ensures MatchTarget(path + "#" + tag + ")" + trailer) == Some(Link(path, tag))
  {
    var rest := path + "#" + tag + ")" + trailer;
    var hash, p := |path|, |path| + 1 + |tag|;
    FirstHashAt(path, tag + ")" + trailer);
    assert rest == path + "#" + (tag + ")" + trailer);
    CloseAtOrAfter(path + "#" + tag, trailer);
    assert rest == (path + "#" + tag) + ")" + trailer;
    assert rest[hash + 1..] == tag + ")" + trailer;
    TagRun(rest, hash, tag, trailer);
    assert rest[..hash] == path;
    assert rest[hash + 1..p] == tag;
  }

  /** In `before + ")" + trailer`, the last ')' is the one after `before` or a later one. */
  lemma CloseAtOrAfter(before: string, trailer: string)
    ensures LastIndex(before + ")" + trailer, ')', |before + ")" + trailer|) >= |before|
  {
    var rest := before + ")" + trailer;
    assert rest[|before|] == ')';
    LastIndexSpec(rest, ')', |rest|);
  }

  /** In `path + "#" + after`, the first '#' is the one after the path. */
  lemma FirstHashAt(path: string, after: string)
    requires '#' !in path
    ensures IndexFrom(path + "#" + after, '#', 0) == |path|
  {
    var rest := path + "#" + after;
    assert forall j | 0 <= j < |path| :: rest[j] == path[j];
    IndexFromIs(rest, '#', 0, |path|);
  }

  /** In `before + ")" + trailer` with no ')' in the trailer, the last ')' is the one before it. */
  lemma LastCloseAt(before: string, trailer: string)
    requires ')' !in trailer
    ensures LastIndex(before + ")" + trailer, ')', |before + ")" + trailer|) == |before|
  {
    var rest := before + ")" + trailer;
    var p := |before|;
    assert forall j | p < j < |rest| :: rest[j] == trailer[j - p - 1];
    LastIndexIs(rest, ')', |rest|, p);
  }

  /** After the '#' at `hash`, the tag runs from the next character to the first ')'. */
  lemma TagRun(rest: string, hash: nat, tag: string, trailer: string)
    requires hash < |rest| && rest[hash + 1..] == tag + ")" + trailer
    requires '#' !in tag && ')' !in tag
    ensures SkipHashes(rest, hash + 1) == hash + 1
    ensures IndexFrom(rest, ')', hash + 1) == hash + 1 + |tag|
  {
    var p := hash + 1 + |tag|;
    if |tag| > 0 {
      assert rest[hash + 1] == tag[0];
    } else {
      assert rest[hash + 1] == ')';
    }
    forall j | hash + 1 <= j < p ensures rest[j] != ')' {
      assert rest[j] == rest[hash + 1..][j - hash - 1] == tag[j - hash - 1];
    }
    assert rest[p] == rest[hash + 1..][|tag|] == ')';
    IndexFromIs(rest, ')', hash + 1, p);
  }

  /** The untagged target `PATH)...` yields the path and an empty tag. */
  lemma TargetUntagged(path: string, trailer: string)
    requires |path| > 0 && '#' !in path && ')' !in trailer
    ensures MatchTarget(path + ")" + trailer) == Some(Link(path, ""))
  {
    var rest := path + ")" + trailer;
    LastCloseAt(path, trailer);
    var hash := IndexFrom(rest, '#', 0);
    IndexFromSpec(rest, '#', 0);
    assert forall j | 0 <= j < |path| :: rest[j] == path[j];
    assert hash >= |path|;
    assert rest[..|path|] == path;
  }

  /** Past the opening of the link, a line with no '[' after it offers no other occurrence. */
  lemma NoBracketAfter(lead: string, target: string)
    requires '[' !in target
    ensures var line := Opening + lead + SourceLink + target;
      forall j | |Opening| + |lead| < j < |line| :: line[j] != '['
  {
    var line := Opening + lead + SourceLink + target;
    var k0 := |Opening| + |lead|;
    assert SourceLink[1..] == "freshReadmeSource](";
    forall j | k0 < j < |line| ensures line[j] != '[' {
      if j < k0 + |SourceLink| {
        assert line[j] == SourceLink[1..][j - k0 - 1];
      } else {
        assert line[j] == target[j - k0 - |SourceLink|];
      }
    }
  }

  /** A well-formed line `<!--...[freshReadmeSource](target` is matched at its only link opening. */
  lemma ParseAt(lead: string, target: string)
    requires '[' !in target && MatchTarget(target).Some?
    ensures Parse(Opening + lead + SourceLink + target) == MatchTarget(target)
  {
    var line := Opening + lead + SourceLink + target;
    var k0 := |Opening| + |lead|;
    NoBracketAfter(lead, target);
    SkipToOccurrence(line, |line| - |SourceLink|, k0);
    assert line[k0 + |SourceLink|..] == target;
    assert OccursAt(line, SourceLink, k0) by {
      assert line[k0..k0 + |SourceLink|] == SourceLink;
    }
    assert MatchFrom(line, k0) == MatchTarget(target);
    assert line[..|Opening|] == Opening;
    ParseFromLast(line);
  }

  lemma ParseFromLast(line: string)
    requires StartsWith(line, Opening) && |Opening| + |SourceLink| <= |line|
    ensures Parse(line) == MatchFrom(line, |line| - |SourceLink|)
  {
  }

  /** `<!-- [freshReadmeSource](PATH#TAG) -->` and the like name PATH and TAG. */
  lemma ParseTagged(lead: string, path: string, tag: string, trailer: string)
    requires |path| > 0 && '#' !in path && '[' !in path
    requires '#' !in tag && ')' !in tag && '[' !in tag
    requires '[' !in trailer
    ensures Parse(Opening + lead + SourceLink + (path + "#" + tag + ")" + trailer)) == Some(Link(path, tag))
  {
    var target := path + "#" + tag + ")" + trailer;
    assert '[' !in target by {
      assert '[' !in path + "#" + tag;
      assert '[' !in ")" + trailer;
      assert target == (path + "#" + tag) + (")" + trailer);
    }
    TargetTagged(path, tag, trailer);
    ParseAt(lead, target);
  }

  /** `<!-- [freshReadmeSource](PATH) -->` and the like name PATH with an empty tag. */
  lemma ParseUntagged(lead: string, path: string, trailer: string)
    requires |path| > 0 && '#' !in path && '[' !in path
    requires ')' !in trailer && '[' !in trailer
    ensures Parse(Opening + lead + SourceLink + (path + ")" + trailer)) == Some(Link(path, ""))
  {
    var target := path + ")" + trailer;
    assert '[' !in target;
    TargetUntagged(path, trailer);
    ParseAt(lead, target);
  }
}
