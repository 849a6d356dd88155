/**
 Labels against path segments. Replacing a segment that is a number, after a listed
 one, is what normalize_endpoint is meant for; this is exactly when it does that.
 */
module EndpointSegments {
  import opened Sequences
  import opened Endpoint

  // What stands before the first slash.
  function FirstSegment(s: string): (seg: string)
    ensures seg <= s && NoSlash(seg)
    ensures |seg| < |s| ==> s[|seg|] == '/'
  {
    if s == "" || s[0] == '/' then "" else [s[0]] + FirstSegment(s[1..])
  }

  // A listed segment and the number after it: s is /name/number and what follows.
  ghost predicate NumberAfter(digit: char -> bool, p: Pattern, s: string)
    requires s != ""
  {
    var seg := FirstSegment(s[1..]);
    var rest := s[1 + |seg|..];
    p.name == seg && rest != "" && Number(digit, FirstSegment(rest[1..]))
  }

  // What is left after the first two segments of s, each with the slash before it.
  function AfterTwo(s: string): (left: string)
    requires s != ""
    ensures |left| < |s|
    ensures left == "" || left[0] == '/'
  {
    var rest := s[1 + |FirstSegment(s[1..])|..];
    if rest == "" then "" else rest[1 + |FirstSegment(rest[1..])|..]
  }

  // Segment by segment: a number right after a listed segment becomes the placeholder.
  ghost function WholeFrom(digit: char -> bool, among: set<Pattern>, s: string): string
    requires s == "" || s[0] == '/'
    decreases |s|
  {
    if s == "" then ""
    else
      var seg := FirstSegment(s[1..]);
      if exists p :: p in among && NumberAfter(digit, p, s) then
        var p :| p in among && NumberAfter(digit, p, s);
        Prefix(p) + (p.holder + WholeFrom(digit, among, AfterTwo(s)))
      else
        "/" + (seg + WholeFrom(digit, among, s[1 + |seg|..]))
  }

  ghost function WholeSegments(digit: char -> bool, among: set<Pattern>, s: string): string {
    var seg := FirstSegment(s);
    seg + WholeFrom(digit, among, s[|seg|..])
  }

  // A listed segment, then one that starts with a digit but is not a number.
  ghost predicate MixedAt(digit: char -> bool, p: Pattern, s: string) {
    MatchAt(digit, p, s) && !Number(digit, FirstSegment(s[|Prefix(p)|..]))
  }

  ghost predicate Mixed(digit: char -> bool, among: set<Pattern>, s: string) {
    exists i, p :: 0 <= i <= |s| && p in among && MixedAt(digit, p, s[i..])
  }

  // ---------- segments ----------

  lemma SegmentIs(n: string, t: string)
    requires NoSlash(n) && n <= t && (|n| < |t| ==> t[|n|] == '/')
    ensures FirstSegment(t) == n
  {
    var seg := FirstSegment(t);
    assert forall i :: 0 <= i < |n| ==> n[i] == t[i];
    assert forall i :: 0 <= i < |seg| ==> seg[i] == t[i];
    assert |seg| == |n|;
  }

  // A match is a listed segment followed by one that starts with a digit.
  lemma MatchedSegment(digit: char -> bool, p: Pattern, s: string)
    requires DigitLike(digit) && Shaped(p) && MatchAt(digit, p, s)
    ensures s[0] == '/' && FirstSegment(s[1..]) == p.name
    ensures |s| > |p.name| + 2 && s[1 + |p.name|] == '/' && digit(s[2 + |p.name|])
    ensures s[1 + |p.name|..][1..] == s[|Prefix(p)|..] && Prefix(p) == "/" + p.name + "/"
  {
    var n := p.name;
    assert Prefix(p)[0] == s[0] && Prefix(p)[1 + |n|] == s[1 + |n|];
    assert forall i :: 0 <= i < |n| ==> n[i] == Prefix(p)[i + 1] == s[i + 1];
    assert n <= s[1..];
    SegmentIs(n, s[1..]);
  }

  lemma SegmentMatches(digit: char -> bool, p: Pattern, s: string)
    requires s != "" && s[0] == '/' && NumberAfter(digit, p, s)
    ensures MatchAt(digit, p, s)
  {
    var n := FirstSegment(s[1..]);
    var rest := s[1 + |n|..];
    var number := FirstSegment(rest[1..]);
    assert s[1..][|n|] == '/' && rest[0] == '/';
    assert s == "/" + (n + ("/" + rest[1..]));
    PrefixSplit(p, rest[1..]);
    assert digit(number[0]) && number[0] == rest[1..][0] == s[|Prefix(p)|];
  }

  // ---------- mixed segments ----------

  // Where no listed segment starts, none is mixed.
  lemma MixedLater(digit: char -> bool, among: set<Pattern>, s: string, n: nat)
    requires Apart(among) && n <= |s|
    requires forall p :: p in among ==> !MixedAt(digit, p, s)
    requires forall i :: 0 < i < n ==> NoStart(s[i..])
    ensures Mixed(digit, among, s) <==> Mixed(digit, among, s[n..])
  {
    assert s[0..] == s;
    if Mixed(digit, among, s) {
      var i, p :| 0 <= i <= |s| && p in among && MixedAt(digit, p, s[i..]);
      if i < n {
        NoMatchHere(digit, p, s[i..]);
      }
      assert s[n..][i - n..] == s[i..];
    }
    if Mixed(digit, among, s[n..]) {
      var i, p :| 0 <= i <= |s[n..]| && p in among && MixedAt(digit, p, s[n..][i..]);
      assert s[n..][i..] == s[n + i..];
    }
  }

  lemma NoStartIn(digit: char -> bool, s: string, seg: string)
    requires s != "" && seg == FirstSegment(s[1..])
    ensures forall i :: 0 < i < 1 + |seg| ==> NoStart(s[i..])
  {
    forall i | 0 < i < 1 + |seg| ensures NoStart(s[i..]) {
      assert s[i..][0] == s[i] == s[1..][i - 1] == seg[i - 1];
    }
  }

  // ---------- the three cases ----------

  lemma WholeCopies(digit: char -> bool, among: set<Pattern>, s: string)
    requires s != "" && s[0] == '/' && forall p :: p in among ==> !NumberAfter(digit, p, s)
    ensures var seg := FirstSegment(s[1..]);
      WholeFrom(digit, among, s) == "/" + (seg + WholeFrom(digit, among, s[1 + |seg|..]))
  {
  }

  lemma SegmentPasses(digit: char -> bool, among: set<Pattern>, s: string)
    requires Apart(among) && s != "" && s[0] == '/' && !Hit(digit, among, s)
    ensures var seg := FirstSegment(s[1..]);
      OnePass(digit, among, s) == "/" + (seg + OnePass(digit, among, s[1 + |seg|..]))
  {
    var seg := FirstSegment(s[1..]);
    var rest := s[1 + |seg|..];
    assert s[1..] == seg + rest && s == "/" + (seg + rest);
    PassStep(digit, among, '/', seg + rest);
    PassCopies(digit, among, seg, rest);
  }

  lemma NoNumberAfter(digit: char -> bool, among: set<Pattern>, s: string)
    requires s != "" && s[0] == '/' && !Hit(digit, among, s)
    ensures forall p :: p in among ==> !NumberAfter(digit, p, s)
  {
    forall p | p in among ensures !NumberAfter(digit, p, s) {
      if NumberAfter(digit, p, s) {
        SegmentMatches(digit, p, s);
      }
    }
  }

  lemma PassCopiesSegment(digit: char -> bool, among: set<Pattern>, s: string)
    requires DigitLike(digit) && Apart(among) && s != "" && s[0] == '/' && !Hit(digit, among, s)
    ensures var seg := FirstSegment(s[1..]);
      && OnePass(digit, among, s) == "/" + (seg + OnePass(digit, among, s[1 + |seg|..]))
      && WholeFrom(digit, among, s) == "/" + (seg + WholeFrom(digit, among, s[1 + |seg|..]))
      && (Mixed(digit, among, s) <==> Mixed(digit, among, s[1 + |seg|..]))
  {
    SegmentPasses(digit, among, s);
    NoNumberAfter(digit, among, s);
    WholeCopies(digit, among, s);
    NoStartIn(digit, s, FirstSegment(s[1..]));
    MixedLater(digit, among, s, 1 + |FirstSegment(s[1..])|);
  }

  lemma PassReplacesNumber(digit: char -> bool, among: set<Pattern>, p: Pattern, number: string, rest: string)
    requires DigitLike(digit) && Apart(among) && p in among && Numbered(digit, number, rest)
    ensures OnePass(digit, among, Prefix(p) + (number + rest)) == Prefix(p) + (p.holder + OnePass(digit, among, rest))
  {
    MatchOf(digit, p, number, rest);
    PassAtMatch(digit, among, p, Prefix(p) + (number + rest));
  }

  // A number that ends its segment, after a listed segment.
  lemma NumberIsAfter(digit: char -> bool, p: Pattern, number: string, rest: string)
    requires Shaped(p) && Number(digit, number) && NoSlash(number) && (rest == "" || rest[0] == '/')
    ensures var s := Prefix(p) + (number + rest);
      && s != "" && s[0] == '/' && NumberAfter(digit, p, s)
      && FirstSegment(s[1..]) == p.name
      && s[1 + |p.name|..] == "/" + (number + rest)
      && FirstSegment(number + rest) == number && AfterTwo(s) == rest
  {
    SegmentIs(number, number + rest);
    PrefixSplit(p, number + rest);
    TwoSegments(p.name, number, rest);
  }

  lemma OneSegment(name: string, after: string)
    requires NoSlash(name) && (after == "" || after[0] == '/')
    ensures var s := "/" + (name + after);
      s[1..] == name + after && FirstSegment(s[1..]) == name && s[1 + |name|..] == after
  {
    var s := "/" + (name + after);
    assert s[1..] == name + after;
    SegmentIs(name, s[1..]);
    assert s[1 + |name|..] == s[1..][|name|..] == after;
  }

  lemma TwoSegments(name: string, number: string, rest: string)
    requires NoSlash(name) && NoSlash(number) && (rest == "" || rest[0] == '/')
    ensures var s := "/" + (name + ("/" + (number + rest)));
      && FirstSegment(s[1..]) == name && s[1 + |name|..] == "/" + (number + rest)
      && s[1 + |name|..][1..] == number + rest && AfterTwo(s) == rest
  {
    OneSegment(name, "/" + (number + rest));
    OneSegment(number, rest);
  }

  lemma WholeAtNumber(digit: char -> bool, among: set<Pattern>, p: Pattern, s: string)
    requires Apart(among) && p in among && s != "" && s[0] == '/' && NumberAfter(digit, p, s)
    ensures WholeFrom(digit, among, s) == Prefix(p) + (p.holder + WholeFrom(digit, among, AfterTwo(s)))
  {
    forall q | q in among && NumberAfter(digit, q, s) ensures q == p {
      assert q.name == p.name;
    }
  }

  lemma WholeReplacesNumber(digit: char -> bool, among: set<Pattern>, p: Pattern, number: string, rest: string)
    requires DigitLike(digit) && Apart(among) && p in among
    requires Number(digit, number) && NoSlash(number) && (rest == "" || rest[0] == '/')
    ensures var s := Prefix(p) + (number + rest);
      s[0] == '/' && WholeFrom(digit, among, s) == Prefix(p) + (p.holder + WholeFrom(digit, among, rest))
  {
    NumberIsAfter(digit, p, number, rest);
    WholeAtNumber(digit, among, p, Prefix(p) + (number + rest));
  }

  lemma NumberIsNotMixed(digit: char -> bool, among: set<Pattern>, p: Pattern, number: string, rest: string)
    requires DigitLike(digit) && Apart(among) && p in among
    requires Number(digit, number) && NoSlash(number) && (rest == "" || rest[0] == '/')
    ensures Mixed(digit, among, Prefix(p) + (number + rest)) <==> Mixed(digit, among, rest)
  {
    var s, after := Prefix(p) + (number + rest), "/" + (number + rest);
    NumberIsAfter(digit, p, number, rest);
    assert s[|Prefix(p)|..] == number + rest;
    forall q | q in among ensures !MixedAt(digit, q, s) {
      if MatchAt(digit, q, s) {
        OnePattern(digit, p, q, s);
      }
    }
    NoStartIn(digit, s, p.name);
    MixedLater(digit, among, s, 1 + |p.name|);
    NumberAlone(digit, among, number, rest);
  }

  // The number itself is no listed segment.
  lemma NumberAlone(digit: char -> bool, among: set<Pattern>, number: string, rest: string)
    requires DigitLike(digit) && Apart(among) && Number(digit, number) && FirstSegment(number + rest) == number
    ensures Mixed(digit, among, "/" + (number + rest)) <==> Mixed(digit, among, rest)
  {
    var after := "/" + (number + rest);
    assert after[1..] == number + rest;
    assert digit(number[0]) && after[1] == number[0];
    forall q | q in among ensures !MixedAt(digit, q, after) {
      NoMatchHere(digit, q, after);
    }
    NoStartIn(digit, after, number);
    MixedLater(digit, among, after, 1 + |number|);
    assert after[1 + |number|..] == rest;
  }

  lemma MixedDiffers(digit: char -> bool, among: set<Pattern>, p: Pattern, s: string)
    requires DigitLike(digit) && Apart(among) && p in among && MixedAt(digit, p, s)
    requires s != "" && s[0] == '/'
    ensures OnePass(digit, among, s) != WholeFrom(digit, among, s) && Mixed(digit, among, s)
  {
    var n := |p.name|;
    PassAtMatch(digit, among, p, s);
    assert OnePass(digit, among, s)[n + 2] == p.holder[0] == ':';
    MatchedSegment(digit, p, s);
    WholeKeepsMixed(digit, among, p, s);
    assert s[0..] == s;
  }

  lemma WholeKeepsMixed(digit: char -> bool, among: set<Pattern>, p: Pattern, s: string)
    requires DigitLike(digit) && Apart(among) && p in among && s != "" && s[0] == '/' && MixedAt(digit, p, s)
    ensures |WholeFrom(digit, among, s)| > |p.name| + 2 && digit(WholeFrom(digit, among, s)[|p.name| + 2])
  {
    MatchedSegment(digit, p, s);
    var rest := s[1 + |p.name|..];
    WholeCopies(digit, among, s);
    WholeStarts(digit, among, rest);
    assert WholeFrom(digit, among, s) == "/" + (p.name + WholeFrom(digit, among, rest));
  }

  // Segment by segment, the first character of the first segment stays.
  lemma WholeStarts(digit: char -> bool, among: set<Pattern>, s: string)
    requires |s| > 1 && s[0] == '/' && digit(s[1]) && DigitLike(digit)
    requires forall p :: p in among ==> Shaped(p)
    ensures |WholeFrom(digit, among, s)| > 1 && WholeFrom(digit, among, s)[1] == s[1]
  {
    var seg := FirstSegment(s[1..]);
    assert seg[0] == s[1..][0] == s[1];
    WholeCopies(digit, among, s);
  }

  // Whether the two agree on s comes down to whether they agree on rest.
  ghost predicate AgreeUnlessMixed(digit: char -> bool, among: set<Pattern>, s: string)
    requires s == "" || s[0] == '/'
  {
    OnePass(digit, among, s) == WholeFrom(digit, among, s) <==> !Mixed(digit, among, s)
  }

  lemma NumberAgrees(digit: char -> bool, among: set<Pattern>, p: Pattern, number: string, rest: string)
    requires DigitLike(digit) && Apart(among) && p in among
    requires Number(digit, number) && NoSlash(number) && (rest == "" || rest[0] == '/')
    requires AgreeUnlessMixed(digit, among, rest)
    ensures var s := Prefix(p) + (number + rest);
      s[0] == '/' && AgreeUnlessMixed(digit, among, s)
  {
    PassReplacesNumber(digit, among, p, number, rest);
    WholeReplacesNumber(digit, among, p, number, rest);
    NumberIsNotMixed(digit, among, p, number, rest);
    SplitSame(p.holder, OnePass(digit, among, rest), WholeFrom(digit, among, rest));
    SplitSame(Prefix(p), p.holder + OnePass(digit, among, rest), p.holder + WholeFrom(digit, among, rest));
  }

  lemma SegmentAgrees(digit: char -> bool, among: set<Pattern>, s: string)
    requires DigitLike(digit) && Apart(among) && s != "" && s[0] == '/' && !Hit(digit, among, s)
    requires AgreeUnlessMixed(digit, among, s[1 + |FirstSegment(s[1..])|..])
    ensures AgreeUnlessMixed(digit, among, s)
  {
    var seg := FirstSegment(s[1..]);
    var rest := s[1 + |seg|..];
    PassCopiesSegment(digit, among, s);
    SplitSame(seg, OnePass(digit, among, rest), WholeFrom(digit, among, rest));
    SplitSame("/", seg + OnePass(digit, among, rest), seg + WholeFrom(digit, among, rest));
  }

  // The number and the rest of s after a match.
  lemma MatchParts(digit: char -> bool, p: Pattern, s: string) returns (number: string, rest: string)
    requires MatchAt(digit, p, s)
    ensures s == Prefix(p) + (number + rest) && number == FirstSegment(s[|Prefix(p)|..])
    ensures rest == "" || rest[0] == '/'
  {
    var tail := s[|Prefix(p)|..];
    number := FirstSegment(tail);
    rest := tail[|number|..];
    assert s == Prefix(p) + tail && tail == number + rest;
  }

  lemma NothingAgrees(digit: char -> bool, among: set<Pattern>)
    requires Apart(among)
    ensures AgreeUnlessMixed(digit, among, "")
  {
    forall i, p | 0 <= i <= 0 && p in among ensures !MixedAt(digit, p, ""[i..]) {
      NoMatchHere(digit, p, ""[i..]);
    }
  }

  lemma {:induction false} PassFromExact(digit: char -> bool, among: set<Pattern>, s: string)
    requires DigitLike(digit) && Apart(among) && (s == "" || s[0] == '/')
    ensures AgreeUnlessMixed(digit, among, s)
    decreases |s|
  {
    if s == "" {
      NothingAgrees(digit, among);
    } else if Hit(digit, among, s) {
      var p :| p in among && MatchAt(digit, p, s);
      var number, rest := MatchParts(digit, p, s);
      if Number(digit, number) {
        PassFromExact(digit, among, rest);
        NumberAgrees(digit, among, p, number, rest);
      } else {
        MixedDiffers(digit, among, p, s);
      }
    } else {
      PassFromExact(digit, among, s[1 + |FirstSegment(s[1..])|..]);
      SegmentAgrees(digit, among, s);
    }
  }

  // ---------- main results ----------

  lemma PassExact(digit: char -> bool, among: set<Pattern>, s: string)
    requires DigitLike(digit) && Apart(among)
    ensures OnePass(digit, among, s) == WholeSegments(digit, among, s) <==> !Mixed(digit, among, s)
  {
    var seg := FirstSegment(s);
    var rest := s[|seg|..];
    assert s == seg + rest;
    PassCopies(digit, among, seg, rest);
    PassFromExact(digit, among, rest);
    SplitSame(seg, OnePass(digit, among, rest), WholeFrom(digit, among, rest));
    MixedAfterFirst(digit, among, s);
  }

  lemma MixedAfterFirst(digit: char -> bool, among: set<Pattern>, s: string)
    requires Apart(among)
    ensures Mixed(digit, among, s) <==> Mixed(digit, among, s[|FirstSegment(s)|..])
  {
    var seg := FirstSegment(s);
    if seg == "" {
      assert s[|seg|..] == s;
    } else {
      forall i | 0 <= i < |seg| ensures NoStart(s[i..]) {
        assert s[i..][0] == seg[i];
      }
      assert s[0..] == s;
      forall p | p in among ensures !MixedAt(digit, p, s) {
        NoMatchHere(digit, p, s);
      }
      MixedLater(digit, among, s, |seg|);
    }
  }

  /**
   A label is the endpoint with whole numeric segments replaced, exactly when no listed
   segment is followed by one that starts with a digit and is not a number.
   */
  lemma LabelReplacesSegments(digit: char -> bool, s: string)
    requires DigitLike(digit)
    ensures Normalize(digit, s) == WholeSegments(digit, ALL, s) <==> !Mixed(digit, ALL, s)
  {
    AllApart();
    NormalizeIsPass(digit, s);
    PassExact(digit, ALL, s);
  }

  const DECIMAL := (c: char) => '0' <= c <= '9'

  /** Otherwise the digits alone are replaced: /jobs/1b is labelled /jobs/:idb. */
  lemma HalfASegment()
    ensures Normalize(DECIMAL, "/jobs/1b") == "/jobs/:idb"
    ensures Normalize(DECIMAL, "/jobs/1b") != WholeSegments(DECIMAL, ALL, "/jobs/1b")
  {
    AllApart();
    JobPath("1b");
    HalfLabel();
    HalfIsMixed();
    LabelReplacesSegments(DECIMAL, "/jobs/1b");
  }

  // Whatever ends the segment after the digits stays in the label.
  lemma LabelKeepsTail(digit: char -> bool, p: Pattern, number: string, tail: string)
    requires DigitLike(digit) && p in ALL && Numbered(digit, number, tail) && NoSlash(tail)
    ensures Normalize(digit, Prefix(p) + (number + tail)) == Prefix(p) + (p.holder + tail)
  {
    AllApart();
    NormalizeIsPass(digit, Prefix(p) + (number + tail));
    PassReplacesNumber(digit, ALL, p, number, tail);
    PassCopies(digit, ALL, tail, "");
    assert tail + "" == tail;
  }

  /** The five segments and their placeholders; what ends the segment stays. */
  lemma FiveSegments(digit: char -> bool, number: string, tail: string)
    requires DigitLike(digit) && Numbered(digit, number, tail) && NoSlash(tail)
    ensures Normalize(digit, "/projects/" + (number + tail)) == "/projects/" + (":id" + tail)
    ensures Normalize(digit, "/merge_requests/" + (number + tail)) == "/merge_requests/" + (":iid" + tail)
    ensures Normalize(digit, "/pipelines/" + (number + tail)) == "/pipelines/" + (":id" + tail)
    ensures Normalize(digit, "/jobs/" + (number + tail)) == "/jobs/" + (":id" + tail)
    ensures Normalize(digit, "/notes/" + (number + tail)) == "/notes/" + (":id" + tail)
  {
    FivePrefixes();
    LabelKeepsTail(digit, PROJECTS, number, tail);
    LabelKeepsTail(digit, MERGE_REQUESTS, number, tail);
    LabelKeepsTail(digit, PIPELINES, number, tail);
    LabelKeepsTail(digit, JOBS, number, tail);
    LabelKeepsTail(digit, NOTES, number, tail);
  }

  lemma FivePrefixes()
    ensures Prefix(PROJECTS) == "/projects/" && Prefix(MERGE_REQUESTS) == "/merge_requests/"
    ensures Prefix(PIPELINES) == "/pipelines/" && Prefix(JOBS) == "/jobs/" && Prefix(NOTES) == "/notes/"
    ensures ALL == {Pattern("projects", ":id"), Pattern("merge_requests", ":iid"), Pattern("pipelines", ":id"),
                    Pattern("jobs", ":id"), Pattern("notes", ":id")}
  {
  }

  // A listed prefix with a digit after it, somewhere in s.
  ghost predicate IdAfter(digit: char -> bool, prefix: string, s: string) {
    exists i :: 0 <= i <= |s| && prefix <= s[i..] && |s[i..]| > |prefix| && digit(s[i..][|prefix|])
  }

  /** An endpoint with no id after any of the five stays as it is. */
  lemma NoIdsNoChange(digit: char -> bool, s: string)
    requires DigitLike(digit)
    requires !IdAfter(digit, "/projects/", s) && !IdAfter(digit, "/merge_requests/", s)
    requires !IdAfter(digit, "/pipelines/", s) && !IdAfter(digit, "/jobs/", s) && !IdAfter(digit, "/notes/", s)
    ensures Normalize(digit, s) == s
  {
    NormalizeIsPass(digit, s);
    NoneMatches(digit, s);
    PassUnchanged(digit, ALL, s);
  }

  ghost predicate NoMatches(digit: char -> bool, p: Pattern, s: string) {
    forall i :: 0 <= i <= |s| ==> !MatchAt(digit, p, s[i..])
  }

  lemma NoMatchAnywhere(digit: char -> bool, p: Pattern, prefix: string, s: string)
    requires Prefix(p) == prefix && !IdAfter(digit, prefix, s)
    ensures NoMatches(digit, p, s)
  {
  }

  lemma FirstThree(digit: char -> bool, s: string)
    requires !IdAfter(digit, "/projects/", s) && !IdAfter(digit, "/merge_requests/", s) && !IdAfter(digit, "/pipelines/", s)
    ensures NoMatches(digit, PROJECTS, s) && NoMatches(digit, MERGE_REQUESTS, s) && NoMatches(digit, PIPELINES, s)
  {
    FivePrefixes();
    NoMatchAnywhere(digit, PROJECTS, "/projects/", s);
    NoMatchAnywhere(digit, MERGE_REQUESTS, "/merge_requests/", s);
    NoMatchAnywhere(digit, PIPELINES, "/pipelines/", s);
  }

  lemma LastTwo(digit: char -> bool, s: string)
    requires !IdAfter(digit, "/jobs/", s) && !IdAfter(digit, "/notes/", s)
    ensures NoMatches(digit, JOBS, s) && NoMatches(digit, NOTES, s)
  {
    FivePrefixes();
    NoMatchAnywhere(digit, JOBS, "/jobs/", s);
    NoMatchAnywhere(digit, NOTES, "/notes/", s);
  }

  lemma NoneMatches(digit: char -> bool, s: string)
    requires !IdAfter(digit, "/projects/", s) && !IdAfter(digit, "/merge_requests/", s)
    requires !IdAfter(digit, "/pipelines/", s) && !IdAfter(digit, "/jobs/", s) && !IdAfter(digit, "/notes/", s)
    ensures forall p :: p in ALL ==> NoMatches(digit, p, s)
  {
    FirstThree(digit, s);
    LastTwo(digit, s);
  }

  lemma {:induction false} PassUnchanged(digit: char -> bool, among: set<Pattern>, s: string)
    requires forall p :: p in among ==> NoMatches(digit, p, s)
    ensures OnePass(digit, among, s) == s
  {
    if s != "" {
      assert s[0..] == s;
      forall p | p in among ensures NoMatches(digit, p, s[1..]) && !MatchAt(digit, p, s) {
        assert NoMatches(digit, p, s);
        assert forall i :: 0 <= i <= |s[1..]| ==> s[1..][i..] == s[i + 1..];
      }
      PassUnchanged(digit, among, s[1..]);
      assert s == [s[0]] + s[1..];
    }
  }

  lemma JobPath(t: string)
    ensures Prefix(JOBS) == "/jobs/" && JOBS.holder == ":id" && JOBS in ALL
    ensures Prefix(JOBS) + t == "/jobs/" + t
  {
  }

  lemma HalfLabel()
    ensures Normalize(DECIMAL, "/jobs/1b") == "/jobs/:idb"
  {
    JobPath("1" + "b");
    LabelKeepsTail(DECIMAL, JOBS, "1", "b");
    assert "/jobs/" + ("1" + "b") == "/jobs/1b";
    assert "/jobs/" + (":id" + "b") == "/jobs/:idb";
  }

  lemma HalfIsMixed()
    ensures Mixed(DECIMAL, ALL, "/jobs/1b")
  {
    var s := "/jobs/1b";
    JobPath("1b");
    assert s[|Prefix(JOBS)|..] == "1b" && s[|Prefix(JOBS)|] == '1';
    SegmentIs("1b", "1b");
    assert !Number(DECIMAL, "1b") by {
      assert !DECIMAL("1b"[1]);
    }
    assert s[0..] == s;
    assert MixedAt(DECIMAL, JOBS, s[0..]);
  }
}
