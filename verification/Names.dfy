/** Job type and queue names: the two patterns and the request validation built on
    them (src/ojs/client/enqueue_pipeline.py). */
module Names {
  import opened Wrappers
  import opened Regex

  const MAX_TYPE_LENGTH := 255
  const MAX_QUEUE_LENGTH := 128

  const LOWER: set<char> := set c: char | 'a' <= c <= 'z'
  const DIGIT: set<char> := set c: char | '0' <= c <= '9'
  const ALNUM: set<char> := LOWER + DIGIT
  const WORD: set<char> := ALNUM + {'_'}
  const SEPARATOR: set<char> := {'-', '.'}

  // ^[a-z][a-z0-9_]*(\.[a-z][a-z0-9_]*)*$
  const SEGMENT_PATTERN := Cat(Class(LOWER), Star(Class(WORD)))
  const DOTTED_PATTERN := Cat(Class({'.'}), SEGMENT_PATTERN)
  const TYPE_PATTERN := Cat(SEGMENT_PATTERN, Star(DOTTED_PATTERN))

  // ^[a-z0-9]([a-z0-9]*[-.]?[a-z0-9]+)*$
  const GROUP_TAIL := Cat(Opt(Class(SEPARATOR)), Plus(Class(ALNUM)))
  const GROUP_PATTERN := Cat(Star(Class(ALNUM)), GROUP_TAIL)
  const QUEUE_PATTERN := Cat(Class(ALNUM), Star(GROUP_PATTERN))

  // ---------------------------------------------------------------- queue names

  /** Separators stand alone and never last; what a sequence of groups can spell. */
  predicate Separated(s: string) {
    && Over(ALNUM + SEPARATOR, s)
    && (s != "" ==> s[|s| - 1] in ALNUM)
    && forall i | 0 <= i < |s| - 1 :: !(s[i] in SEPARATOR && s[i + 1] in SEPARATOR)
  }

  /** What a queue name is: starts and ends alphanumeric, no two adjacent separators. */
  predicate IsQueueName(s: string) {
    s != "" && s[0] in ALNUM && Separated(s)
  }

  lemma GroupIsSeparated(s: string)
    requires Matches(GROUP_PATTERN, s)
    ensures s != "" && Separated(s)
  {
    var k :| 0 <= k <= |s| && Matches(Star(Class(ALNUM)), s[..k]) && Matches(GROUP_TAIL, s[k..]);
    StarOfClass(ALNUM, s[..k]);
    GroupTailSeparated(s[k..]);
    assert s == s[..k] + s[k..];
    if k > 0 { HeadSeparated(s[..k], s[k..]); }
  }

  lemma GroupTailSeparated(s: string)
    requires Matches(GROUP_TAIL, s)
    ensures s != "" && Separated(s)
  {
    var j :| 0 <= j <= |s| && Matches(Opt(Class(SEPARATOR)), s[..j]) && Matches(Plus(Class(ALNUM)), s[j..]);
    PlusOfClass(ALNUM, s[j..]);
    assert j > 0 ==> Matches(Class(SEPARATOR), s[..j]);
    TailSeparated(s[..j], s[j..]);
    assert s == s[..j] + s[j..];
  }

  lemma TailSeparated(separator: string, letters: string)
    requires letters != "" && Over(ALNUM, letters)
    requires |separator| <= 1 && Over(SEPARATOR, separator)
    ensures Separated(separator + letters)
  {
  }

  lemma HeadSeparated(letters: string, tail: string)
    requires letters != "" && Over(ALNUM, letters) && Separated(tail)
    ensures Separated(letters + tail)
  {
    assert Separated(letters);
    SeparatedTogether(letters, tail);
  }

  lemma GroupOf(s: string)
    requires (|s| == 1 && s[0] in ALNUM) || (|s| == 2 && s[0] in SEPARATOR && s[1] in ALNUM)
    ensures Matches(GROUP_PATTERN, s)
  {
    var j := |s| - 1;
    PlusOfClass(ALNUM, s[j..]);
    assert Matches(Opt(Class(SEPARATOR)), s[..j]);
    Concatenated(Opt(Class(SEPARATOR)), Plus(Class(ALNUM)), s, j);
    assert s[..0] == "" && s[0..] == s;
    assert Matches(Star(Class(ALNUM)), s[..0]);
    Concatenated(Star(Class(ALNUM)), GROUP_TAIL, s, 0);
  }

  lemma {:induction false} GroupsAreSeparated(s: string)
    requires Matches(Star(GROUP_PATTERN), s)
    ensures Separated(s)
    decreases |s|
  {
    if s != "" {
      var k :| 0 < k <= |s| && Matches(GROUP_PATTERN, s[..k]) && Matches(Star(GROUP_PATTERN), s[k..]);
      GroupIsSeparated(s[..k]);
      GroupsAreSeparated(s[k..]);
      assert s == s[..k] + s[k..];
      SeparatedTogether(s[..k], s[k..]);
    }
  }

  lemma SeparatedTogether(a: string, b: string)
    requires a != "" && Separated(a) && Separated(b)
    ensures Separated(a + b)
  {
  }

  lemma {:induction false} SeparatedAreGroups(s: string)
    requires Separated(s)
    ensures Matches(Star(GROUP_PATTERN), s)
    decreases |s|
  {
    if s != "" {
      var k := if s[0] in SEPARATOR then 2 else 1;
      assert |s| >= k;
      GroupOf(s[..k]);
      assert Separated(s[k..]);
      SeparatedAreGroups(s[k..]);
    }
  }

  /** The queue pattern accepts exactly the queue names. */
  lemma QueuePatternAcceptsExactly(s: string)
    ensures Matches(QUEUE_PATTERN, s) <==> IsQueueName(s)
  {
    if Matches(QUEUE_PATTERN, s) {
      var k :| 0 <= k <= |s| && Matches(Class(ALNUM), s[..k]) && Matches(Star(GROUP_PATTERN), s[k..]);
      GroupsAreSeparated(s[1..]);
    }
    if IsQueueName(s) {
      SeparatedAreGroups(s[1..]);
      assert Matches(Class(ALNUM), s[..1]);
      Concatenated(Class(ALNUM), Star(GROUP_PATTERN), s, 1);
    }
  }

  // ------------------------------------------------------------------ job types

  predicate IsSegment(s: string) {
    s != "" && s[0] in LOWER && Over(WORD, s)
  }

  function Dotted(segments: seq<string>): string
    requires segments != []
  {
    if |segments| == 1 then segments[0] else segments[0] + "." + Dotted(segments[1..])
  }

  ghost predicate IsTypeName(s: string) {
    exists segments: seq<string> | segments != [] ::
      (forall i | 0 <= i < |segments| :: IsSegment(segments[i])) && s == Dotted(segments)
  }

  /** One left-to-right pass; `inside` says whether a segment has been opened. */
  predicate ScanType(s: string, inside: bool) {
    if s == "" then inside
    else if !inside then s[0] in LOWER && ScanType(s[1..], true)
    else if s[0] == '.' then ScanType(s[1..], false)
    else s[0] in WORD && ScanType(s[1..], true)
  }

  lemma SegmentPattern(s: string)
    ensures Matches(SEGMENT_PATTERN, s) <==> IsSegment(s)
  {
    if Matches(SEGMENT_PATTERN, s) {
      var k :| 0 <= k <= |s| && Matches(Class(LOWER), s[..k]) && Matches(Star(Class(WORD)), s[k..]);
      StarOfClass(WORD, s[1..]);
      assert s == [s[0]] + s[1..];
    }
    if IsSegment(s) {
      StarOfClass(WORD, s[1..]);
      assert Matches(Class(LOWER), s[..1]);
      Concatenated(Class(LOWER), Star(Class(WORD)), s, 1);
    }
  }

  /** After an open segment, word characters may follow before anything else. */
  lemma {:induction false} ScanWord(w: string, rest: string)
    requires Over(WORD, w)
    ensures ScanType(w + rest, true) <==> ScanType(rest, true)
  {
    if w == "" {
      assert w + rest == rest;
    } else {
      ScanWord(w[1..], rest);
      assert (w + rest)[1..] == w[1..] + rest && (w + rest)[0] == w[0];
    }
  }

  lemma ScanSegment(segment: string, rest: string)
    requires IsSegment(segment)
    ensures ScanType(segment + rest, false) <==> ScanType(rest, true)
  {
    ScanWord(segment[1..], rest);
    assert (segment + rest)[1..] == segment[1..] + rest && (segment + rest)[0] == segment[0];
  }

  lemma {:induction false} DottedScans(segments: seq<string>)
    requires segments != [] && forall i | 0 <= i < |segments| :: IsSegment(segments[i])
    ensures ScanType(Dotted(segments), false)
  {
    if |segments| == 1 {
      ScanSegment(segments[0], "");
      assert segments[0] + "" == segments[0];
    } else {
      DottedScans(segments[1..]);
      var rest := "." + Dotted(segments[1..]);
      assert rest[1..] == Dotted(segments[1..]);
      ScanSegment(segments[0], rest);
      assert Dotted(segments) == segments[0] + rest;
    }
  }

  /** A scanned string is its first segment, alone or followed by a dot and more. */
  lemma {:induction false} ScanSplits(s: string) returns (k: nat)
    requires ScanType(s, true)
    ensures k <= |s| && Over(WORD, s[..k])
    ensures k < |s| ==> s[k] == '.' && ScanType(s[k + 1..], false)
  {
    if s == "" || s[0] == '.' {
      k := 0;
    } else {
      var j := ScanSplits(s[1..]);
      k := j + 1;
      assert s[..k] == [s[0]] + s[1..][..j];
      if k < |s| { assert s[k + 1..] == s[1..][j + 1..]; }
    }
  }

  lemma ScanSplitsSegment(s: string) returns (k: nat)
    requires ScanType(s, false)
    ensures k <= |s| && IsSegment(s[..k])
    ensures k < |s| ==> s[k] == '.' && ScanType(s[k + 1..], false)
  {
    var j := ScanSplits(s[1..]);
    k := j + 1;
    assert s[..k] == [s[0]] + s[1..][..j];
    if k < |s| { assert s[k + 1..] == s[1..][j + 1..]; }
  }

  lemma {:induction false} ScanIsDotted(s: string) returns (segments: seq<string>)
    requires ScanType(s, false)
    ensures segments != [] && s == Dotted(segments)
    ensures forall i | 0 <= i < |segments| :: IsSegment(segments[i])
    decreases |s|
  {
    var k := ScanSplitsSegment(s);
    if k == |s| {
      segments := [s[..k]];
      assert s == s[..k];
    } else {
      var more := ScanIsDotted(s[k + 1..]);
      segments := [s[..k]] + more;
      assert segments[1..] == more;
      assert s == s[..k] + "." + s[k + 1..];
    }
  }

  lemma ScanExactly(s: string)
    ensures ScanType(s, false) <==> IsTypeName(s)
  {
    if ScanType(s, false) {
      var _ := ScanIsDotted(s);
    }
    if IsTypeName(s) {
      var segments: seq<string> :| segments != []
        && (forall i | 0 <= i < |segments| :: IsSegment(segments[i])) && s == Dotted(segments);
      DottedScans(segments);
    }
  }

  lemma DottedPiece(s: string)
    ensures Matches(DOTTED_PATTERN, s) <==> s != "" && s[0] == '.' && IsSegment(s[1..])
  {
    if Matches(DOTTED_PATTERN, s) {
      var k :| 0 <= k <= |s| && Matches(Class({'.'}), s[..k]) && Matches(SEGMENT_PATTERN, s[k..]);
      SegmentPattern(s[1..]);
    }
    if s != "" && s[0] == '.' && IsSegment(s[1..]) {
      SegmentPattern(s[1..]);
      assert Matches(Class({'.'}), s[..1]);
      Concatenated(Class({'.'}), SEGMENT_PATTERN, s, 1);
    }
  }

  ghost predicate DottedRest(s: string) {
    s == "" || (s[0] == '.' && ScanType(s[1..], false))
  }

  lemma {:induction false} DottedTailScans(s: string)
    requires Matches(Star(DOTTED_PATTERN), s)
    ensures DottedRest(s)
    decreases |s|
  {
    if s != "" {
      var k :| 0 < k <= |s| && Matches(DOTTED_PATTERN, s[..k]) && Matches(Star(DOTTED_PATTERN), s[k..]);
      DottedPiece(s[..k]);
      DottedTailScans(s[k..]);
      ScanSegment(s[..k][1..], s[k..]);
      assert s[1..] == s[..k][1..] + s[k..];
    }
  }

  lemma {:induction false} DottedTailMatches(s: string)
    requires DottedRest(s)
    ensures Matches(Star(DOTTED_PATTERN), s)
    decreases |s|
  {
    if s != "" {
      var k := ScanSplitsSegment(s[1..]);
      assert s[..k + 1][1..] == s[1..][..k];
      DottedPiece(s[..k + 1]);
      if k + 1 < |s| { assert s[k + 1..][1..] == s[1..][k + 1..]; }
      DottedTailMatches(s[k + 1..]);
    }
  }

  /** The type pattern accepts exactly the dot-joined non-empty segments, which one
      left-to-right scan decides. */
  lemma TypePatternAcceptsExactly(s: string)
    ensures Matches(TYPE_PATTERN, s) <==> IsTypeName(s)
    ensures ScanType(s, false) <==> IsTypeName(s)
  {
    ScanExactly(s);
    if Matches(TYPE_PATTERN, s) { MatchScans(s); }
    if ScanType(s, false) { ScanMatches(s); }
  }

  lemma MatchScans(s: string)
    requires Matches(TYPE_PATTERN, s)
    ensures ScanType(s, false)
  {
    var k :| 0 <= k <= |s| && Matches(SEGMENT_PATTERN, s[..k]) && Matches(Star(DOTTED_PATTERN), s[k..]);
    SegmentPattern(s[..k]);
    DottedTailScans(s[k..]);
    ScanSegment(s[..k], s[k..]);
    assert s == s[..k] + s[k..];
  }

  lemma ScanMatches(s: string)
    requires ScanType(s, false)
    ensures Matches(TYPE_PATTERN, s)
  {
    var k := ScanSplitsSegment(s);
    SegmentPattern(s[..k]);
    if k < |s| { assert s[k..][1..] == s[k + 1..]; }
    DottedTailMatches(s[k..]);
    Concatenated(SEGMENT_PATTERN, Star(DOTTED_PATTERN), s, k);
  }

  // ----------------------------------------------------------------- validation

  datatype NameError =
    | EmptyType | TypeTooLong(length: nat) | BadType
    | EmptyQueue | QueueTooLong(length: nat) | BadQueue

  /** The characters that str.strip removes. */
  predicate IsSpace(c: char) {
    || '\t' <= c <= '\r' || '\U{1c}' <= c <= ' ' || c == '\U{85}' || c == '\U{a0}'
    || c == '\U{1680}' || '\U{2000}' <= c <= '\U{200a}' || c == '\U{2028}' || c == '\U{2029}'
    || c == '\U{202f}' || c == '\U{205f}' || c == '\U{3000}'
  }

  predicate IsBlank(s: string) {
    forall i | 0 <= i < |s| :: IsSpace(s[i])
  }

  function ValidateRequest(jobType: string, queue: string): Result<(), NameError> {
    if IsBlank(jobType) then Err(EmptyType)
    else if |jobType| > MAX_TYPE_LENGTH then Err(TypeTooLong(|jobType|))
    else if !ScanType(jobType, false) then Err(BadType)
    else if IsBlank(queue) then Err(EmptyQueue)
    else if |queue| > MAX_QUEUE_LENGTH then Err(QueueTooLong(|queue|))
    else if !IsQueueName(queue) then Err(BadQueue)
    else Ok(())
  }

  /** A request is accepted exactly when both names are well formed and short enough:
      the blank checks in front reject nothing the patterns would have let through. */
  lemma ValidatesExactly(jobType: string, queue: string)
    ensures ValidateRequest(jobType, queue).Ok? <==>
            && Matches(TYPE_PATTERN, jobType) && |jobType| <= MAX_TYPE_LENGTH
            && Matches(QUEUE_PATTERN, queue) && |queue| <= MAX_QUEUE_LENGTH
    ensures ValidateRequest(jobType, queue).Ok? <==>
            && IsTypeName(jobType) && |jobType| <= MAX_TYPE_LENGTH
            && IsQueueName(queue) && |queue| <= MAX_QUEUE_LENGTH
  {
    TypePatternAcceptsExactly(jobType);
    QueuePatternAcceptsExactly(queue);
    if ScanType(jobType, false) { assert !IsSpace(jobType[0]); }
    if IsQueueName(queue) { assert !IsSpace(queue[0]); }
  }
}
