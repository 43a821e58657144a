/**
  Publication selectors (src/publication_selector.cpp): parsing, matching and the collected
  result. Parsing is proved to be the exact inverse of printing, matching to agree with the
  recursive meaning of a glob, and the result to depend on the sets of selectors and
  resources only.
 */
module PublicationSelector {
  import opened Wrappers
  import opened Ordering
  import opened NodeId

  datatype Segment = Literal(name: Bytes) | SingleWildcard | RecursiveWildcard

  datatype IssueKind = Malformed | Unmatched

  datatype Issue = Issue(kind: IssueKind, selector: Bytes, reason: Bytes)

  datatype SelectorMatch = SelectorMatch(resourcePaths: set<Bytes>, issues: seq<Issue>)

  const EMPTY_SELECTOR: Bytes := "selector is empty"
  const EMPTY_SEGMENT: Bytes := "selector contains an empty segment"
  const RECURSIVE_NOT_LAST: Bytes := "recursive wildcard must be terminal"
  const PARTIAL_WILDCARD: Bytes := "wildcard must occupy an entire segment"
  const NOT_CANONICAL: Bytes := "literal segment is not canonically escaped"
  const NO_MATCH: Bytes := "selector did not match a logical resource"

  // ------------------------------------------------------------------ parsing

  function ParseSegment(raw: Bytes, last: bool): Result<Segment, Bytes>
  {
    if raw == [] then Err(EMPTY_SEGMENT)
    else if raw == "**" then if last then Ok(RecursiveWildcard) else Err(RECURSIVE_NOT_LAST)
    else if raw == "*" then Ok(SingleWildcard)
    else if '*' in raw then Err(PARTIAL_WILDCARD)
    else
      var d := Decoded(raw);
      if d.None? then Err(NOT_CANONICAL) else Ok(Literal(d.value))
  }

  /** The segments of a selector, or the reason of its first offending segment. */
  function ParseSegments(raw: seq<Bytes>): Result<seq<Segment>, Bytes>
  {
    if raw == [] then Ok([])
    else
      var first := ParseSegment(raw[0], |raw| == 1);
      if first.Err? then Err(first.error)
      else
        var rest := ParseSegments(raw[1..]);
        if rest.Err? then rest else Ok([first.value] + rest.value)
  }

  function Parsed(selector: Bytes): Result<seq<Segment>, Bytes>
  {
    if selector == [] then Err(EMPTY_SELECTOR) else ParseSegments(Split(selector))
  }

  function PrependSegments(head: seq<Segment>, rest: Result<seq<Segment>, Bytes>): Result<seq<Segment>, Bytes>
  {
    if rest.Err? then rest else Ok(head + rest.value)
  }

  method ParseSelector(selector: Bytes) returns (r: Result<seq<Segment>, Bytes>)
    ensures r == Parsed(selector)
  {
    if selector == [] {
      return Err(EMPTY_SELECTOR);
    }
    var raw := SplitPath(selector);
    var parsed: seq<Segment> := [];
    assert raw[0..] == raw;
    PrependNone(ParseSegments(raw));
    for index := 0 to |raw|
      invariant ParseSegments(raw) == PrependSegments(parsed, ParseSegments(raw[index..]))
    {
      var segment := raw[index];
      assert raw[index..][0] == segment && raw[index..][1..] == raw[index + 1..];
      ghost var before := parsed;
      if segment == [] {
        return Err(EMPTY_SEGMENT);
      }
      if segment == "**" {
        if index + 1 != |raw| {
          return Err(RECURSIVE_NOT_LAST);
        }
        parsed := parsed + [RecursiveWildcard];
      } else if segment == "*" {
        parsed := parsed + [SingleWildcard];
      } else {
        if '*' in segment {
          return Err(PARTIAL_WILDCARD);
        }
        var decoded := DecodeCanonicalSegment(segment);
        if decoded.None? {
          return Err(NOT_CANONICAL);
        }
        parsed := parsed + [Literal(decoded.value)];
      }
      assert parsed[|before|] == ParseSegment(segment, index + 1 == |raw|).value;
      PrependOne(before, parsed[|before|], ParseSegments(raw[index + 1..]));
    }
    assert parsed + [] == parsed;
    return Ok(parsed);
  }

  lemma PrependNone(rest: Result<seq<Segment>, Bytes>)
    ensures PrependSegments([], rest) == rest
  {
    if rest.Ok? {
      assert [] + rest.value == rest.value;
    }
  }

  lemma PrependOne(head: seq<Segment>, s: Segment, rest: Result<seq<Segment>, Bytes>)
    ensures PrependSegments(head, PrependSegments([s], rest)) == PrependSegments(head + [s], rest)
  {
    if rest.Ok? {
      assert head + ([s] + rest.value) == head + [s] + rest.value;
    }
  }

  /** What is wrong with a segment, and how it is said. */
  ghost predicate HasReason(segment: Bytes, last: bool, reason: Bytes)
  {
    || (segment == [] && reason == "selector contains an empty segment")
    || (segment == "**" && !last && reason == "recursive wildcard must be terminal")
    || ('*' in segment && segment !in {"*", "**"} && reason == "wildcard must occupy an entire segment")
    || (segment != [] && '*' !in segment && Decoded(segment) == None
        && reason == "literal segment is not canonically escaped")
  }

  ghost predicate FirstReason(raw: seq<Bytes>, i: nat, reason: Bytes)
    requires i < |raw|
  {
    HasReason(raw[i], i + 1 == |raw|, reason) && forall j, r :: 0 <= j < i ==> !HasReason(raw[j], false, r)
  }

  /** The reason of the first offending segment. */
  ghost predicate IsRefused(raw: seq<Bytes>, reason: Bytes)
  {
    exists i :: 0 <= i < |raw| && FirstReason(raw, i, reason)
  }

  lemma SegmentReason(raw: Bytes, last: bool, reason: Bytes)
    ensures ParseSegment(raw, last) == Err(reason) <==> HasReason(raw, last, reason)
  {
    assert "*"[0] == '*' && "**"[0] == '*';
  }

  /** A malformed selector is reported with the reason of its first offending segment. */
  lemma {:induction false} ReasonOfSegments(raw: seq<Bytes>, reason: Bytes)
    ensures ParseSegments(raw) == Err(reason) <==> IsRefused(raw, reason)
  {
    hide HasReason, ParseSegment;
    if raw != [] {
      var last, rest := |raw| == 1, raw[1..];
      forall r ensures ParseSegment(raw[0], last) == Err(r) <==> HasReason(raw[0], last, r) {
        SegmentReason(raw[0], last, r);
      }
      ReasonOfSegments(rest, reason);
      if ParseSegment(raw[0], last).Err? {
        assert HasReason(raw[0], last, ParseSegment(raw[0], last).error);
        assert FirstReason(raw, 0, ParseSegment(raw[0], last).error);
      } else {
        if i :| 0 <= i < |rest| && FirstReason(rest, i, reason) {
          assert FirstReason(raw, i + 1, reason) by {
            forall j, r | 0 <= j < i + 1 ensures !HasReason(raw[j], false, r) {
              if j > 0 { assert rest[j - 1] == raw[j]; }
            }
          }
        }
        if i :| 0 <= i < |raw| && FirstReason(raw, i, reason) {
          assert i > 0;
          assert FirstReason(rest, i - 1, reason) by {
            forall j, r | 0 <= j < i - 1 ensures !HasReason(rest[j], false, r) {
              assert rest[j] == raw[j + 1];
            }
          }
        }
      }
    }
  }

  lemma ReasonOfSelector(selector: Bytes, reason: Bytes)
    ensures Parsed(selector) == Err(reason) <==>
            if selector == [] then reason == "selector is empty"
            else IsRefused(Split(selector), reason)
  {
    hide IsRefused, ParseSegments, Split;
    ReasonOfSegments(Split(selector), reason);
  }

  /** The text of a segment. */
  function Printed(s: Segment): Bytes
  {
    match s
    case Literal(name) => Escaped(name)
    case SingleWildcard => "*"
    case RecursiveWildcard => "**"
  }

  function PrintedAll(segments: seq<Segment>): (r: seq<Bytes>)
    ensures |r| == |segments|
    ensures forall i :: 0 <= i < |segments| ==> r[i] == Printed(segments[i])
  {
    seq(|segments|, i requires 0 <= i < |segments| => Printed(segments[i]))
  }

  ghost predicate WellFormed(segments: seq<Segment>)
  {
    && segments != []
    && (forall i :: 0 <= i < |segments| && segments[i].Literal? ==> segments[i].name != [])
    && (forall i :: 0 <= i < |segments| - 1 ==> !segments[i].RecursiveWildcard?)
  }

  lemma ParseSegmentInvertsPrinting(raw: Bytes, last: bool, s: Segment)
    ensures ParseSegment(raw, last) == Ok(s) <==>
            && (s.Literal? ==> s.name != [])
            && (s.RecursiveWildcard? ==> last)
            && Printed(s) == raw
    ensures SlashFree(Printed(s))
  {
    if s.Literal? {
      DecodedIsExact(raw, s.name);
      EscapedAlphabet(s.name);
    }
    if raw != [] {
      assert raw == "*" || raw == "**" || '*' in raw || '*' !in raw;
    }
  }

  lemma {:induction false} ParseSegmentsInvertsPrinting(raw: seq<Bytes>, segments: seq<Segment>)
    requires raw != []
    ensures ParseSegments(raw) == Ok(segments) <==> WellFormed(segments) && PrintedAll(segments) == raw
  {
    if segments == [] {
      assert ParseSegments(raw) != Ok([]);
    } else {
      var first := ParseSegment(raw[0], |raw| == 1);
      ParseSegmentInvertsPrinting(raw[0], |raw| == 1, segments[0]);
      var tail := segments[1..];
      assert segments == [segments[0]] + tail && raw == [raw[0]] + raw[1..];
      assert PrintedAll(segments) == [Printed(segments[0])] + PrintedAll(tail);
      assert PrintedAll(segments) == raw <==> Printed(segments[0]) == raw[0] && PrintedAll(tail) == raw[1..] by {
        assert PrintedAll(segments)[1..] == PrintedAll(tail);
      }
      if |raw| == 1 {
        assert ParseSegments(raw[1..]) == Ok([]);
        assert first.Ok? ==> [first.value] + [] == [first.value];
        assert first.Ok? ==> ParseSegments(raw) == Ok([first.value]);
        assert PrintedAll(tail) == [] <==> tail == [];
      } else {
        ParseSegmentsInvertsPrinting(raw[1..], tail);
        assert ParseSegments(raw) == Ok(segments) <==>
               first == Ok(segments[0]) && ParseSegments(raw[1..]) == Ok(tail);
        WellFormedTail(segments);
      }
    }
  }

  lemma WellFormedTail(segments: seq<Segment>)
    requires |segments| > 0
    ensures |segments| > 1 ==>
              (WellFormed(segments) <==>
               && (segments[0].Literal? ==> segments[0].name != [])
               && !segments[0].RecursiveWildcard?
               && WellFormed(segments[1..]))
  {
    if |segments| > 1 {
      var tail := segments[1..];
      forall i | 0 <= i < |tail| ensures tail[i] == segments[i + 1] {}
      if WellFormed(tail) && !segments[0].RecursiveWildcard? && (segments[0].Literal? ==> segments[0].name != []) {
        forall i | 0 <= i < |segments| && segments[i].Literal? ensures segments[i].name != [] {
          if i > 0 { assert tail[i - 1] == segments[i]; }
        }
        forall i | 0 <= i < |segments| - 1 ensures !segments[i].RecursiveWildcard? {
          if i > 0 { assert tail[i - 1] == segments[i]; }
        }
      }
    }
  }

  /** A selector parses to exactly the well-formed segments whose printed text it is. */
  lemma ParseInvertsPrint(selector: Bytes, segments: seq<Segment>)
    ensures Parsed(selector) == Ok(segments) <==>
            WellFormed(segments) && Join(PrintedAll(segments)) == selector
  {
    var raw := Split(selector);
    JoinSplit(selector);
    if selector == [] {
      if WellFormed(segments) && Join(PrintedAll(segments)) == [] {
        SplitPrinted(segments);
        ParseSegmentsInvertsPrinting([[]], segments);
      }
    } else {
      ParseSegmentsInvertsPrinting(raw, segments);
      if WellFormed(segments) {
        SplitPrinted(segments);
      }
    }
  }

  lemma SplitPrinted(segments: seq<Segment>)
    requires WellFormed(segments)
    ensures Split(Join(PrintedAll(segments))) == PrintedAll(segments)
  {
    forall i | 0 <= i < |segments| ensures SlashFree(PrintedAll(segments)[i]) {
      ParseSegmentInvertsPrinting(Printed(segments[i]), true, segments[i]);
    }
    SplitJoin(PrintedAll(segments));
  }

  // ---------------------------------------------------------------- resources

  function ParseNames(raw: seq<Bytes>): Option<seq<Bytes>>
  {
    if raw == [] then Some([])
    else
      var first := Decoded(raw[0]);
      if first.None? then None
      else
        var rest := ParseNames(raw[1..]);
        if rest.None? then None else Some([first.value] + rest.value)
  }

  /** The names on a resource path, if every segment is canonical. */
  function ResourceNames(path: Bytes): Option<seq<Bytes>>
  {
    ParseNames(Split(path))
  }

  function PrependNames(head: seq<Bytes>, rest: Option<seq<Bytes>>): Option<seq<Bytes>>
  {
    if rest.None? then None else Some(head + rest.value)
  }

  method ParseResource(path: Bytes) returns (r: Option<seq<Bytes>>)
    ensures r == ResourceNames(path)
  {
    DecodedIsExact([], []);
    EmptyIsNotCanonical();
    if path == [] {
      return None;
    }
    var raw := SplitPath(path);
    var names: seq<Bytes> := [];
    assert raw[0..] == raw;
    if ParseNames(raw).Some? {
      assert [] + ParseNames(raw).value == ParseNames(raw).value;
    }
    for index := 0 to |raw|
      invariant ParseNames(raw) == PrependNames(names, ParseNames(raw[index..]))
    {
      assert raw[index..][0] == raw[index] && raw[index..][1..] == raw[index + 1..];
      if raw[index] == [] {
        return None;
      }
      var decoded := DecodeCanonicalSegment(raw[index]);
      if decoded.None? {
        return None;
      }
      var rest := ParseNames(raw[index + 1..]);
      if rest.Some? {
        assert names + ([decoded.value] + rest.value) == names + [decoded.value] + rest.value;
      }
      names := names + [decoded.value];
    }
    assert names + [] == names;
    return Some(names);
  }

  lemma EmptyIsNotCanonical()
    ensures Decoded([]) == None
  {
    DecodedIsExact([], []);
    forall d: Bytes ensures Escaped(d) != [] { EscapedAlphabet(d); }
  }

  ghost predicate AllNonempty(names: seq<Bytes>)
  {
    forall i :: 0 <= i < |names| ==> names[i] != []
  }

  lemma ConsOfNames(first: Bytes, rest: seq<Bytes>)
    ensures EscapedAll([first] + rest) == [Escaped(first)] + EscapedAll(rest)
    ensures AllNonempty([first] + rest) <==> first != [] && AllNonempty(rest)
  {
    hide Escaped;
    var names := [first] + rest;
    if AllNonempty(names) {
      forall i | 0 <= i < |rest| ensures rest[i] != [] { assert names[i + 1] == rest[i]; }
      assert names[0] == first;
    }
  }

  lemma {:induction false} ParsedNamesPrint(raw: seq<Bytes>)
    requires ParseNames(raw).Some?
    ensures AllNonempty(ParseNames(raw).value) && EscapedAll(ParseNames(raw).value) == raw
  {
    if raw != [] {
      ParsedNamesPrint(raw[1..]);
      var first, rest := Decoded(raw[0]).value, ParseNames(raw[1..]).value;
      DecodedIsExact(raw[0], first);
      ConsOfNames(first, rest);
      assert raw == [raw[0]] + raw[1..];
    }
  }

  lemma {:induction false} PrintedNamesParse(names: seq<Bytes>)
    requires AllNonempty(names)
    ensures ParseNames(EscapedAll(names)) == Some(names)
  {
    if names != [] {
      var first, rest := names[0], names[1..];
      assert names == [first] + rest;
      ConsOfNames(first, rest);
      PrintedNamesParse(rest);
      DecodedIsExact(Escaped(first), first);
      assert EscapedAll(names)[1..] == EscapedAll(rest);
    }
  }

  /** Resource paths parse to exactly the nonempty names that print to them. */
  lemma ResourceNamesInvertPrinting(path: Bytes, names: seq<Bytes>)
    ensures ResourceNames(path) == Some(names) <==>
            && names != []
            && AllNonempty(names)
            && Join(EscapedAll(names)) == path
  {
    JoinSplit(path);
    if ResourceNames(path) == Some(names) {
      ParsedNamesPrint(Split(path));
    }
    if names != [] && AllNonempty(names) {
      PrintedNamesParse(names);
      forall i | 0 <= i < |names| ensures SlashFree(EscapedAll(names)[i]) {
        EscapedAlphabet(names[i]);
      }
      SplitJoin(EscapedAll(names));
    }
  }

  // ----------------------------------------------------------------- matching

  /** The meaning of a glob: "*" stands for one name, "**" for any number of names. */
  ghost predicate Glob(pattern: seq<Segment>, names: seq<Bytes>)
    decreases |pattern|
  {
    if pattern == [] then names == []
    else
      match pattern[0]
      case RecursiveWildcard => exists k :: 0 <= k <= |names| && Glob(pattern[1..], names[k..])
      case SingleWildcard => names != [] && Glob(pattern[1..], names[1..])
      case Literal(name) => names != [] && names[0] == name && Glob(pattern[1..], names[1..])
  }

  /** A "*" stands for exactly one name: the pattern selects what it selects with some literal in that place. */
  lemma {:induction false} WildcardIsSomeLiteral(pattern: seq<Segment>, i: nat, names: seq<Bytes>)
    requires i < |pattern| && pattern[i].SingleWildcard?
    ensures Glob(pattern, names) <==> exists name :: Glob(pattern[i := Literal(name)], names)
  {
    if Glob(pattern, names) {
      var name := SomeLiteral(pattern, i, names);
    }
    if name :| Glob(pattern[i := Literal(name)], names) {
      LiteralIsCovered(pattern, i, name, names);
    }
  }

  lemma {:induction false} SomeLiteral(pattern: seq<Segment>, i: nat, names: seq<Bytes>) returns (name: Bytes)
    requires i < |pattern| && pattern[i].SingleWildcard? && Glob(pattern, names)
    ensures Glob(pattern[i := Literal(name)], names)
  {
    var rest := pattern[1..];
    if i == 0 {
      name := names[0];
      assert pattern[0 := Literal(name)][1..] == rest;
    } else {
      var k :| 0 <= k <= |names| && (!pattern[0].RecursiveWildcard? ==> k == 1) && Glob(rest, names[k..]);
      name := SomeLiteral(rest, i - 1, names[k..]);
      assert pattern[i := Literal(name)][1..] == rest[i - 1 := Literal(name)];
    }
  }

  lemma {:induction false} LiteralIsCovered(pattern: seq<Segment>, i: nat, name: Bytes, names: seq<Bytes>)
    requires i < |pattern| && pattern[i].SingleWildcard? && Glob(pattern[i := Literal(name)], names)
    ensures Glob(pattern, names)
  {
    var rest, literal := pattern[1..], pattern[i := Literal(name)];
    if i == 0 {
      assert literal[1..] == rest;
    } else {
      assert literal[1..] == rest[i - 1 := Literal(name)];
      var k :| 0 <= k <= |names| && (!pattern[0].RecursiveWildcard? ==> k == 1) && Glob(literal[1..], names[k..]);
      LiteralIsCovered(rest, i - 1, name, names[k..]);
    }
  }

  function Wildcards(k: nat): seq<Segment>
  {
    seq(k, _ => SingleWildcard)
  }

  /** A final "**" stands for any number of "*". */
  lemma RecursiveIsAnyNumber(pattern: seq<Segment>, names: seq<Bytes>)
    requires WellFormed(pattern) && pattern[|pattern| - 1].RecursiveWildcard?
    ensures Glob(pattern, names) <==> exists k: nat :: Glob(pattern[..|pattern| - 1] + Wildcards(k), names)
  {
    var fixed := pattern[..|pattern| - 1];
    GlobOfRecursive(pattern, names);
    if Glob(pattern, names) {
      var k := |names| - |fixed|;
      GlobOfFixed(fixed + Wildcards(k), names);
      assert Glob(fixed + Wildcards(k), names);
    }
    if k: nat :| Glob(fixed + Wildcards(k), names) {
      GlobOfFixed(fixed + Wildcards(k), names);
      forall i | 0 <= i < |fixed| ensures pattern[i] == (fixed + Wildcards(k))[i] {}
    }
  }

  predicate SegmentMatches(s: Segment, name: Bytes)
  {
    s.SingleWildcard? || (s.Literal? && s.name == name)
  }

  lemma {:induction false} GlobOfFixed(pattern: seq<Segment>, names: seq<Bytes>)
    requires forall i :: 0 <= i < |pattern| ==> !pattern[i].RecursiveWildcard?
    ensures Glob(pattern, names) <==>
            && |names| == |pattern|
            && forall i :: 0 <= i < |pattern| ==> pattern[i].SingleWildcard? || pattern[i] == Literal(names[i])
  {
    if pattern != [] && names != [] {
      GlobOfFixed(pattern[1..], names[1..]);
      var p, n := pattern[1..], names[1..];
      if |n| == |p| && SegmentMatches(pattern[0], names[0])
         && forall i :: 0 <= i < |p| ==> SegmentMatches(p[i], n[i]) {
        forall i | 0 <= i < |pattern| ensures SegmentMatches(pattern[i], names[i]) {
          if i > 0 { assert p[i - 1] == pattern[i] && n[i - 1] == names[i]; }
        }
      }
    }
  }

  lemma {:induction false} GlobOfRecursive(pattern: seq<Segment>, names: seq<Bytes>)
    requires WellFormed(pattern) && pattern[|pattern| - 1].RecursiveWildcard?
    ensures Glob(pattern, names) <==>
            && |names| >= |pattern| - 1
            && forall i :: 0 <= i < |pattern| - 1 ==> pattern[i].SingleWildcard? || pattern[i] == Literal(names[i])
  {
    if |pattern| == 1 {
      assert Glob(pattern[1..], names[|names|..]);
    } else if names != [] {
      WellFormedTail(pattern);
      GlobOfRecursive(pattern[1..], names[1..]);
      var p, n := pattern[1..], names[1..];
      if |n| >= |p| - 1 && SegmentMatches(pattern[0], names[0])
         && forall i :: 0 <= i < |p| - 1 ==> SegmentMatches(p[i], n[i]) {
        forall i | 0 <= i < |pattern| - 1 ensures SegmentMatches(pattern[i], names[i]) {
          if i > 0 { assert p[i - 1] == pattern[i] && n[i - 1] == names[i]; }
        }
      }
    }
  }

  method Matches(selector: seq<Segment>, resource: seq<Bytes>) returns (matched: bool)
    requires WellFormed(selector)
    ensures matched <==> Glob(selector, resource)
  {
    var recursive := selector[|selector| - 1].RecursiveWildcard?;
    var fixed := if recursive then |selector| - 1 else |selector|;
    if recursive {
      GlobOfRecursive(selector, resource);
    } else {
      GlobOfFixed(selector, resource);
    }
    if (!recursive && |resource| != fixed) || (recursive && |resource| < fixed) {
      return false;
    }
    for index := 0 to fixed
      invariant forall i :: 0 <= i < index ==> SegmentMatches(selector[i], resource[i])
    {
      var segment := selector[index];
      if segment.SingleWildcard? {
        continue;
      }
      if !segment.Literal? || segment.name != resource[index] {
        return false;
      }
    }
    return true;
  }

  // ------------------------------------------------------------ whole result

  ghost predicate Selects(selector: Bytes, path: Bytes)
  {
    && Parsed(selector).Ok?
    && ResourceNames(path).Some?
    && Glob(Parsed(selector).value, ResourceNames(path).value)
  }

  ghost function SelectedPaths(selectors: set<Bytes>, resources: set<Bytes>): set<Bytes>
  {
    set path | path in resources && exists s :: s in selectors && Selects(s, path)
  }

  ghost predicate MatchesNothing(selector: Bytes, resources: set<Bytes>)
  {
    forall path :: path in resources ==> !Selects(selector, path)
  }

  /** A selector is reported when it is malformed, and when it matches no resource. */
  ghost predicate Reported(selector: Bytes, resources: set<Bytes>)
  {
    Parsed(selector).Err? || MatchesNothing(selector, resources)
  }

  function IssueOf(selector: Bytes): Issue
  {
    var parsed := Parsed(selector);
    if parsed.Err? then Issue(Malformed, selector, parsed.error) else Issue(Unmatched, selector, NO_MATCH)
  }

  ghost function IssuesOf(selectors: set<Bytes>, resources: set<Bytes>): set<Issue>
  {
    set s | s in selectors && Reported(s, resources) :: IssueOf(s)
  }

  /** What is reported: a malformed selector with the reason why, or one that selects no resource. */
  lemma IssuesAre(selectors: set<Bytes>, resources: set<Bytes>, issue: Issue)
    ensures issue in IssuesOf(selectors, resources) <==>
            && issue.selector in selectors
            && if issue.kind.Malformed? then Parsed(issue.selector) == Err(issue.reason)
               else && issue.reason == NO_MATCH && Parsed(issue.selector).Ok?
                    && forall path :: path in resources && ResourceNames(path).Some? ==>
                         !Glob(Parsed(issue.selector).value, ResourceNames(path).value)
  {
    hide Parsed, ResourceNames, Glob;
  }

  predicate IssueLess(a: Issue, b: Issue)
  {
    if a.kind != b.kind then a.kind.Malformed?
    else if a.selector != b.selector then Less(a.selector, b.selector)
    else Less(a.reason, b.reason)
  }

  lemma IssueLessIsStrictTotalOrder()
    ensures StrictTotalOrder(IssueLess)
  {
    LessIsStrictTotalOrder();
    forall x, y, z | IssueLess(x, y) && IssueLess(y, z) ensures IssueLess(x, z) {
      if x.kind == y.kind == z.kind {
        if x.selector != y.selector && y.selector != z.selector {
          LessTransitive(x.selector, y.selector, z.selector);
          LessIrreflexive(x.selector);
        } else if x.selector == y.selector == z.selector {
          LessTransitive(x.reason, y.reason, z.reason);
        }
      }
    }
    forall x, y ensures x == y || IssueLess(x, y) || IssueLess(y, x) {
      LessConnected(x.selector, y.selector);
      LessConnected(x.reason, y.reason);
    }
  }

  method MatchPublicationSelectors(selectors: seq<Bytes>, resourcePaths: seq<Bytes>)
    returns (r: SelectorMatch)
    ensures r.resourcePaths == SelectedPaths(Elements(selectors), Elements(resourcePaths))
    ensures StrictlySorted(IssueLess, r.issues)
    ensures Elements(r.issues) == IssuesOf(Elements(selectors), Elements(resourcePaths))
  {
    var resources := ParseResources(resourcePaths);
    var paths: set<Bytes> := {};
    var issues: seq<Issue> := [];
    ghost var all := Elements(resourcePaths);
    for i := 0 to |selectors|
      invariant paths == SelectedPaths(Elements(selectors[..i]), all)
      invariant Elements(issues) == IssuesOf(Elements(selectors[..i]), all)
    {
      var selector := selectors[i];
      TakeMore(selectors, i);
      SelectedPathsGrow(Elements(selectors[..i]), selector, all);
      IssuesGrow(Elements(selectors[..i]), selector, all);
      var parsed := ParseSelector(selector);
      if parsed.Err? {
        issues := AddIssue(issues, Malformed, selector, parsed.error);
        continue;
      }
      var selected := SelectWith(selector, parsed.value, resources, all);
      paths := paths + selected;
      if selected == {} {
        issues := AddIssue(issues, Unmatched, selector, NO_MATCH);
      }
    }
    TakeAll(selectors);
    IssueLessIsStrictTotalOrder();
    issues := SortUnique(IssueLess, issues);
    return SelectorMatch(paths, issues);
  }

  method AddIssue(issues: seq<Issue>, kind: IssueKind, selector: Bytes, reason: Bytes) returns (r: seq<Issue>)
    ensures Elements(r) == Elements(issues) + {Issue(kind, selector, reason)}
  {
    r := issues + [Issue(kind, selector, reason)];
  }

  lemma SelectedPathsGrow(selectors: set<Bytes>, s: Bytes, resources: set<Bytes>)
    ensures SelectedPaths(selectors + {s}, resources) ==
            SelectedPaths(selectors, resources) + SelectedPaths({s}, resources)
  {
  }

  lemma IssuesGrow(selectors: set<Bytes>, s: Bytes, resources: set<Bytes>)
    ensures IssuesOf(selectors + {s}, resources) ==
            IssuesOf(selectors, resources) + (if Reported(s, resources) then {IssueOf(s)} else {})
  {
  }

  datatype ParsedResource = ParsedResource(path: Bytes, names: seq<Bytes>)

  method ParseResources(resourcePaths: seq<Bytes>) returns (resources: seq<ParsedResource>)
    ensures forall r :: r in resources <==> r.path in resourcePaths && ResourceNames(r.path) == Some(r.names)
  {
    resources := [];
    for i := 0 to |resourcePaths|
      invariant forall r :: r in resources <==> r.path in resourcePaths[..i] && ResourceNames(r.path) == Some(r.names)
    {
      var parsed := ParseResource(resourcePaths[i]);
      TakeMore(resourcePaths, i);
      if parsed.Some? {
        resources := resources + [ParsedResource(resourcePaths[i], parsed.value)];
      }
    }
    TakeAll(resourcePaths);
  }

  method SelectWith(ghost selector: Bytes, parsed: seq<Segment>, resources: seq<ParsedResource>, ghost all: set<Bytes>)
    returns (paths: set<Bytes>)
    requires Parsed(selector) == Ok(parsed)
    requires forall r :: r in resources <==> r.path in all && ResourceNames(r.path) == Some(r.names)
    ensures paths == SelectedPaths({selector}, all)
    ensures paths == {} <==> MatchesNothing(selector, all)
  {
    ParseInvertsPrint(selector, parsed);
    paths := {};
    for i := 0 to |resources|
      invariant paths == SelectedAmong(selector, resources[..i])
    {
      TakeMore(resources, i);
      assert resources[i] in resources;
      var matched := Matches(parsed, resources[i].names);
      if matched {
        paths := paths + {resources[i].path};
      }
    }
    TakeAll(resources);
    SelectedAmongAll(selector, resources, all);
  }

  ghost function SelectedAmong(selector: Bytes, resources: seq<ParsedResource>): set<Bytes>
  {
    set r | r in resources && Selects(selector, r.path) :: r.path
  }

  lemma SelectedAmongAll(selector: Bytes, resources: seq<ParsedResource>, all: set<Bytes>)
    requires forall r :: r in resources <==> r.path in all && ResourceNames(r.path) == Some(r.names)
    ensures SelectedAmong(selector, resources) == SelectedPaths({selector}, all)
    ensures SelectedPaths({selector}, all) == {} <==> MatchesNothing(selector, all)
  {
    forall path | path in SelectedPaths({selector}, all) ensures path in SelectedAmong(selector, resources) {
      assert ParsedResource(path, ResourceNames(path).value) in resources;
    }
    if SelectedPaths({selector}, all) == {} {
      forall path | path in all ensures !Selects(selector, path) {
        assert path !in SelectedPaths({selector}, all);
      }
    }
  }

  /**
    Reordering or repeating selectors and resources changes nothing: results computed from
    equal sets are equal, sorted issues included.
   */
  lemma ResultDependsOnSetsOnly(a: SelectorMatch, b: SelectorMatch, selectors: set<Bytes>, resources: set<Bytes>)
    requires a.resourcePaths == b.resourcePaths == SelectedPaths(selectors, resources)
    requires StrictlySorted(IssueLess, a.issues) && StrictlySorted(IssueLess, b.issues)
    requires Elements(a.issues) == Elements(b.issues) == IssuesOf(selectors, resources)
    ensures a == b
  {
    IssueLessIsStrictTotalOrder();
    StrictlySortedUnique(IssueLess, a.issues, b.issues);
  }

  /** "**" alone selects every canonical resource path. */
  lemma RecursiveWildcardSelectsAll(path: Bytes)
    ensures Selects("**", path) <==> ResourceNames(path).Some?
  {
    var all := [RecursiveWildcard];
    assert Join(PrintedAll(all)) == "**";
    ParseInvertsPrint("**", all);
    if ResourceNames(path).Some? {
      GlobOfRecursive(all, ResourceNames(path).value);
    }
  }
}
