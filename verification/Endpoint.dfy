/**
 Metric labels for endpoints: five substitutions one after the other, and the
 single pass over the path they amount to. The laws hold for any set of segment
 patterns with different names; normalize_endpoint has five.
 */
module Endpoint {
  import opened Sequences

  // /name/\d+ is replaced by /name/holder
  datatype Pattern = Pattern(name: string, holder: string)

  const PROJECTS := Pattern("projects", ":id")
  const MERGE_REQUESTS := Pattern("merge_requests", ":iid")
  const PIPELINES := Pattern("pipelines", ":id")
  const JOBS := Pattern("jobs", ":id")
  const NOTES := Pattern("notes", ":id")

  function Prefix(p: Pattern): string {
    "/" + p.name + "/"
  }

  predicate MatchAt(digit: char -> bool, p: Pattern, s: string) {
    Prefix(p) <= s && |s| > |Prefix(p)| && digit(s[|Prefix(p)|])
  }

  // What is left of s after \d*.
  function DropDigits(digit: char -> bool, s: string): (rest: string)
    ensures |rest| <= |s|
    ensures rest == "" || !digit(rest[0])
  {
    if s == "" || !digit(s[0]) then s else DropDigits(digit, s[1..])
  }

  // What follows a match at the start of s.
  function AfterMatch(digit: char -> bool, p: Pattern, s: string): (rest: string)
    requires MatchAt(digit, p, s)
    ensures |rest| < |s|
    ensures rest == "" || !digit(rest[0])
  {
    DropDigits(digit, s[|Prefix(p)|..])
  }

  // re.sub for one pattern, left to right.
  function Sub(digit: char -> bool, p: Pattern, s: string): string
    decreases |s|
  {
    if s == "" then ""
    else if MatchAt(digit, p, s) then Prefix(p) + (p.holder + Sub(digit, p, AfterMatch(digit, p, s)))
    else [s[0]] + Sub(digit, p, s[1..])
  }

  function Normalize(digit: char -> bool, endpoint: string): string {
    var s1 := Sub(digit, PROJECTS, endpoint);
    var s2 := Sub(digit, MERGE_REQUESTS, s1);
    var s3 := Sub(digit, PIPELINES, s2);
    var s4 := Sub(digit, JOBS, s3);
    Sub(digit, NOTES, s4)
  }

  // ---------- one pass ----------

  // What \d may match: no separator and nothing a listed segment is spelled with.
  ghost predicate DigitLike(digit: char -> bool) {
    !digit('/') && !digit(':') && !digit('_') && forall c :: 'a' <= c <= 'z' ==> !digit(c)
  }

  ghost predicate NoSlash(p: string) {
    forall i :: 0 <= i < |p| ==> p[i] != '/'
  }

  ghost predicate Shaped(p: Pattern) {
    && p.name != "" && 'a' <= p.name[0] <= 'z' && NoSlash(p.name)
    && p.holder != "" && p.holder[0] == ':' && NoSlash(p.holder)
  }

  // Shaped patterns with different names.
  ghost predicate Apart(among: set<Pattern>) {
    && (forall p :: p in among ==> Shaped(p))
    && (forall p, q :: p in among && q in among && p.name == q.name ==> p == q)
  }

  ghost predicate Hit(digit: char -> bool, among: set<Pattern>, s: string) {
    exists p :: p in among && MatchAt(digit, p, s)
  }

  // All patterns replaced in a single pass.
  ghost function OnePass(digit: char -> bool, among: set<Pattern>, s: string): string
    decreases |s|
  {
    if s == "" then ""
    else if Hit(digit, among, s) then
      var p :| p in among && MatchAt(digit, p, s);
      Prefix(p) + (p.holder + OnePass(digit, among, AfterMatch(digit, p, s)))
    else [s[0]] + OnePass(digit, among, s[1..])
  }

  // ---------- matches ----------

  lemma NameHead(n: string, s: string)
    requires n + "/" <= s
    ensures s != "" && s[0] == if n == "" then '/' else n[0]
  {
    assert (n + "/")[0] == s[0];
  }

  // Two names followed by a slash at the start of the same text are one name.
  lemma {:induction false} OneName(n: string, m: string, s: string)
    requires NoSlash(n) && NoSlash(m) && n + "/" <= s && m + "/" <= s
    ensures n == m
  {
    NameHead(n, s);
    NameHead(m, s);
    if n != "" && m != "" {
      assert (n + "/")[1..] == n[1..] + "/" && (m + "/")[1..] == m[1..] + "/";
      OneName(n[1..], m[1..], s[1..]);
      assert n == [n[0]] + n[1..] && m == [m[0]] + m[1..];
    }
  }

  lemma OnePattern(digit: char -> bool, p: Pattern, q: Pattern, s: string)
    requires Shaped(p) && Shaped(q) && Prefix(p) <= s && Prefix(q) <= s
    ensures p.name == q.name
  {
    assert Prefix(p)[1..] == p.name + "/" && Prefix(q)[1..] == q.name + "/";
    OneName(p.name, q.name, s[1..]);
  }

  // A match starts with a slash and a letter.
  lemma MatchHead(digit: char -> bool, p: Pattern, s: string)
    requires Shaped(p) && MatchAt(digit, p, s)
    ensures |s| > 1 && s[0] == '/' && 'a' <= s[1] <= 'z'
  {
    assert Prefix(p)[0] == s[0] && Prefix(p)[1] == s[1];
  }

  // A slash that no name follows, or no slash at all.
  ghost predicate NoStart(s: string) {
    s == "" || s[0] != '/' || (|s| > 1 && !('a' <= s[1] <= 'z'))
  }

  lemma NoMatchHere(digit: char -> bool, p: Pattern, s: string)
    requires Shaped(p) && NoStart(s)
    ensures !MatchAt(digit, p, s)
  {
    if MatchAt(digit, p, s) {
      MatchHead(digit, p, s);
    }
  }

  lemma NoHitHere(digit: char -> bool, among: set<Pattern>, s: string)
    requires Apart(among) && NoStart(s)
    ensures !Hit(digit, among, s)
  {
    forall p | p in among ensures !MatchAt(digit, p, s) {
      NoMatchHere(digit, p, s);
    }
  }

  // ---------- copying ----------

  lemma SubStep(digit: char -> bool, p: Pattern, c: char, t: string)
    requires !MatchAt(digit, p, [c] + t)
    ensures Sub(digit, p, [c] + t) == [c] + Sub(digit, p, t)
  {
    assert ([c] + t)[1..] == t;
  }

  lemma PassStep(digit: char -> bool, among: set<Pattern>, c: char, t: string)
    requires !Hit(digit, among, [c] + t)
    ensures OnePass(digit, among, [c] + t) == [c] + OnePass(digit, among, t)
  {
    assert ([c] + t)[1..] == t;
  }

  lemma {:induction false} SubCopies(digit: char -> bool, p: Pattern, u: string, t: string)
    requires Shaped(p) && NoSlash(u)
    ensures Sub(digit, p, u + t) == u + Sub(digit, p, t)
  {
    if u == "" {
      assert u + t == t && u + Sub(digit, p, t) == Sub(digit, p, t);
    } else {
      var rest := u[1..];
      assert u == [u[0]] + rest;
      Assoc([u[0]], rest, t);
      NoMatchHere(digit, p, [u[0]] + (rest + t));
      SubStep(digit, p, u[0], rest + t);
      SubCopies(digit, p, rest, t);
      Assoc([u[0]], rest, Sub(digit, p, t));
    }
  }

  lemma {:induction false} PassCopies(digit: char -> bool, among: set<Pattern>, u: string, t: string)
    requires Apart(among) && NoSlash(u)
    ensures OnePass(digit, among, u + t) == u + OnePass(digit, among, t)
  {
    if u == "" {
      assert u + t == t && u + OnePass(digit, among, t) == OnePass(digit, among, t);
    } else {
      var rest := u[1..];
      assert u == [u[0]] + rest;
      Assoc([u[0]], rest, t);
      NoHitHere(digit, among, [u[0]] + (rest + t));
      PassStep(digit, among, u[0], rest + t);
      PassCopies(digit, among, rest, t);
      Assoc([u[0]], rest, OnePass(digit, among, t));
    }
  }

  lemma PrefixSplit(p: Pattern, t: string)
    ensures Prefix(p) + t == "/" + (p.name + ("/" + t))
  {
    Assoc("/" + p.name, "/", t);
    Assoc("/", p.name, "/" + t);
  }

  // A slash, a name, a slash and the rest, step by step.
  lemma SubOverSegment(digit: char -> bool, p: Pattern, q: Pattern, t: string)
    requires Shaped(p) && Shaped(q) && t != "" && !('a' <= t[0] <= 'z')
    requires !MatchAt(digit, p, Prefix(q) + t)
    ensures Sub(digit, p, Prefix(q) + t) == Prefix(q) + Sub(digit, p, t)
  {
    PrefixSplit(q, t);
    SubStep(digit, p, '/', q.name + ("/" + t));
    SubCopies(digit, p, q.name, "/" + t);
    NoMatchHere(digit, p, "/" + t);
    SubStep(digit, p, '/', t);
    PrefixSplit(q, Sub(digit, p, t));
  }

  lemma PassOverSegment(digit: char -> bool, among: set<Pattern>, q: Pattern, t: string)
    requires Apart(among) && Shaped(q) && t != "" && !('a' <= t[0] <= 'z')
    requires !Hit(digit, among, Prefix(q) + t)
    ensures OnePass(digit, among, Prefix(q) + t) == Prefix(q) + OnePass(digit, among, t)
  {
    PrefixSplit(q, t);
    PassStep(digit, among, '/', q.name + ("/" + t));
    PassCopies(digit, among, q.name, "/" + t);
    NoHitHere(digit, among, "/" + t);
    PassStep(digit, among, '/', t);
    PrefixSplit(q, OnePass(digit, among, t));
  }

  // A replaced part holds no match of its own and starts none.
  lemma SubSkipsReplacement(digit: char -> bool, p: Pattern, q: Pattern, t: string)
    requires DigitLike(digit) && Shaped(p) && Shaped(q)
    ensures Sub(digit, p, Prefix(q) + (q.holder + t)) == Prefix(q) + (q.holder + Sub(digit, p, t))
  {
    ReplacementIsNoMatch(digit, p, q, q.holder + t);
    SubOverSegment(digit, p, q, q.holder + t);
    SubCopies(digit, p, q.holder, t);
  }

  lemma ReplacementIsNoMatch(digit: char -> bool, p: Pattern, q: Pattern, tail: string)
    requires DigitLike(digit) && Shaped(p) && Shaped(q) && tail != "" && tail[0] == ':'
    ensures !MatchAt(digit, p, Prefix(q) + tail)
  {
    var s := Prefix(q) + tail;
    assert Prefix(q) <= s && s[|Prefix(q)|] == ':';
    if Prefix(p) <= s {
      OnePattern(digit, p, q, s);
    }
  }

  // ---------- a match and its number ----------

  ghost predicate Number(digit: char -> bool, d: string) {
    d != "" && forall i :: 0 <= i < |d| ==> digit(d[i])
  }

  // A number, then text that does not continue it.
  ghost predicate Numbered(digit: char -> bool, d: string, b: string) {
    Number(digit, d) && (b == "" || !digit(b[0]))
  }

  lemma {:induction false} DropsNumber(digit: char -> bool, d: string, b: string)
    requires (forall i :: 0 <= i < |d| ==> digit(d[i])) && (b == "" || !digit(b[0]))
    ensures DropDigits(digit, d + b) == b
  {
    if d == "" {
      assert d + b == b;
    } else {
      assert (d + b)[0] == d[0] && (d + b)[1..] == d[1..] + b;
      DropsNumber(digit, d[1..], b);
    }
  }

  function TakeDigits(digit: char -> bool, s: string): string {
    if s == "" || !digit(s[0]) then "" else [s[0]] + TakeDigits(digit, s[1..])
  }

  lemma {:induction false} DigitsSplit(digit: char -> bool, s: string)
    ensures s == TakeDigits(digit, s) + DropDigits(digit, s)
    ensures forall i :: 0 <= i < |TakeDigits(digit, s)| ==> digit(TakeDigits(digit, s)[i])
  {
    if s != "" && digit(s[0]) {
      DigitsSplit(digit, s[1..]);
      Assoc([s[0]], TakeDigits(digit, s[1..]), DropDigits(digit, s[1..]));
      assert s == [s[0]] + s[1..];
    }
  }

  // The number after a segment at the start of s.
  function NumberOf(digit: char -> bool, p: Pattern, s: string): string
    requires MatchAt(digit, p, s)
  {
    TakeDigits(digit, s[|Prefix(p)|..])
  }

  lemma MatchSplits(digit: char -> bool, p: Pattern, s: string)
    requires MatchAt(digit, p, s)
    ensures s == Prefix(p) + (NumberOf(digit, p, s) + AfterMatch(digit, p, s))
    ensures Numbered(digit, NumberOf(digit, p, s), AfterMatch(digit, p, s))
  {
    var tail := s[|Prefix(p)|..];
    assert tail[0] == s[|Prefix(p)|] && s == Prefix(p) + tail;
    DigitsSplit(digit, tail);
  }

  lemma MatchOf(digit: char -> bool, p: Pattern, d: string, b: string)
    requires Numbered(digit, d, b)
    ensures MatchAt(digit, p, Prefix(p) + (d + b)) && AfterMatch(digit, p, Prefix(p) + (d + b)) == b
  {
    var s := Prefix(p) + (d + b);
    assert s[|Prefix(p)|] == d[0] && s[|Prefix(p)|..] == d + b;
    DropsNumber(digit, d, b);
  }

  lemma NumberHasNoSlash(digit: char -> bool, d: string)
    requires DigitLike(digit) && Number(digit, d)
    ensures NoSlash(d) && !('a' <= d[0] <= 'z')
  {
    assert digit(d[0]);
  }

  // ---------- a pass and one more pattern ----------

  // What a pass starts with: a copied character, or a slash and a letter.
  lemma PassHead(digit: char -> bool, among: set<Pattern>, s: string)
    requires Apart(among) && s != ""
    ensures var o := OnePass(digit, among, s);
      && o != ""
      && (Hit(digit, among, s) ==> |o| > 1 && o[0] == '/' && 'a' <= o[1] <= 'z')
      && (!Hit(digit, among, s) ==> o == [s[0]] + OnePass(digit, among, s[1..]))
  {
    if Hit(digit, among, s) {
      var p :| p in among && MatchAt(digit, p, s) &&
        OnePass(digit, among, s) == Prefix(p) + (p.holder + OnePass(digit, among, AfterMatch(digit, p, s)));
      assert Shaped(p) && Prefix(p)[0] == '/' && Prefix(p)[1] == p.name[0];
    }
  }

  lemma PassAtMatch(digit: char -> bool, among: set<Pattern>, p: Pattern, s: string)
    requires Apart(among) && p in among && MatchAt(digit, p, s)
    ensures OnePass(digit, among, s) == Prefix(p) + (p.holder + OnePass(digit, among, AfterMatch(digit, p, s)))
  {
    assert Hit(digit, among, s);
    forall q | q in among && MatchAt(digit, q, s) ensures q == p {
      OnePattern(digit, p, q, s);
    }
  }

  // A pass over the others copies a match of p unchanged.
  lemma PassKeepsMatch(digit: char -> bool, among: set<Pattern>, p: Pattern, s: string)
    requires DigitLike(digit) && Apart(among) && Shaped(p) && MatchAt(digit, p, s) && !Hit(digit, among, s)
    ensures MatchAt(digit, p, OnePass(digit, among, s))
    ensures AfterMatch(digit, p, OnePass(digit, among, s)) == OnePass(digit, among, AfterMatch(digit, p, s))
  {
    var d, b := NumberOf(digit, p, s), AfterMatch(digit, p, s);
    var b' := OnePass(digit, among, b);
    MatchSplits(digit, p, s);
    NumberHasNoSlash(digit, d);
    PassOverSegment(digit, among, p, d + b);
    PassCopies(digit, among, d, b);
    if b != "" {
      PassHead(digit, among, b);
    }
    MatchOf(digit, p, d, b');
  }

  // Text in which every slash is followed by a digit can only have been copied.
  lemma {:induction false} CopiedBack(digit: char -> bool, among: set<Pattern>, s: string, q: string)
    requires DigitLike(digit) && Apart(among) && q <= OnePass(digit, among, s)
    requires forall i :: 0 <= i < |q| && q[i] == '/' ==> i + 1 < |q| && digit(q[i + 1])
    ensures q <= s
  {
    if q != "" {
      var o := OnePass(digit, among, s);
      PassHead(digit, among, s);
      assert q[0] == o[0] && (|q| > 1 ==> q[1] == o[1]);
      assert !Hit(digit, among, s);
      assert o[1..] == OnePass(digit, among, s[1..]);
      assert q[1..] <= o[1..];
      CopiedBack(digit, among, s[1..], q[1..]);
      assert q == [q[0]] + q[1..] && s == [s[0]] + s[1..];
    }
  }

  // What follows the first slash of a match: a name, a slash and a digit.
  lemma MatchTail(digit: char -> bool, p: Pattern, c: char, t: string, i: nat)
    requires DigitLike(digit) && Shaped(p) && MatchAt(digit, p, [c] + t)
    requires i < |Prefix(p)| && t[i] == '/'
    ensures i + 1 < |Prefix(p)| && digit(t[i + 1])
  {
    var o, n := [c] + t, |Prefix(p)|;
    assert forall k :: 0 <= k < n ==> o[k] == Prefix(p)[k];
    assert forall k :: 0 < k < n - 1 ==> Prefix(p)[k] == p.name[k - 1];
    assert t[i] == o[i + 1] && t[n - 1] == o[n];
  }

  lemma TailWasThere(digit: char -> bool, among: set<Pattern>, p: Pattern, c: char, u: string)
    requires DigitLike(digit) && Apart(among) && Shaped(p) && MatchAt(digit, p, [c] + OnePass(digit, among, u))
    ensures |u| >= |Prefix(p)| && u[..|Prefix(p)|] == OnePass(digit, among, u)[..|Prefix(p)|]
  {
    var t, n := OnePass(digit, among, u), |Prefix(p)|;
    var q := t[..n];
    forall i | 0 <= i < |q| && q[i] == '/' ensures i + 1 < |q| && digit(q[i + 1]) {
      MatchTail(digit, p, c, t, i);
    }
    CopiedBack(digit, among, u, q);
  }

  lemma SameStart(digit: char -> bool, p: Pattern, c: char, t: string, u: string)
    requires MatchAt(digit, p, [c] + t)
    requires |u| >= |Prefix(p)| && u[..|Prefix(p)|] == t[..|Prefix(p)|]
    ensures MatchAt(digit, p, [c] + u)
  {
    var n, o, s := |Prefix(p)|, [c] + t, [c] + u;
    assert forall i :: 0 <= i < n ==> u[i] == u[..n][i] == t[..n][i] == t[i];
    assert forall i :: 0 <= i <= n ==> s[i] == o[i];
    assert s[..n] == o[..n];
  }

  // A match after a pass, at an unreplaced character, was there before it.
  lemma MatchWasThere(digit: char -> bool, among: set<Pattern>, p: Pattern, s: string)
    requires DigitLike(digit) && Apart(among) && Shaped(p) && s != ""
    requires MatchAt(digit, p, [s[0]] + OnePass(digit, among, s[1..]))
    ensures MatchAt(digit, p, s)
  {
    TailWasThere(digit, among, p, s[0], s[1..]);
    SameStart(digit, p, s[0], OnePass(digit, among, s[1..]), s[1..]);
    assert s == [s[0]] + s[1..];
  }

  /** Substituting one more pattern after a pass is a pass over one more pattern. */
  lemma {:induction false} SubExtendsPass(digit: char -> bool, among: set<Pattern>, p: Pattern, s: string)
    requires DigitLike(digit) && Apart(among + {p})
    ensures Sub(digit, p, OnePass(digit, among, s)) == OnePass(digit, among + {p}, s)
    decreases |s|
  {
    if s != "" {
      assert Apart(among) && Shaped(p) && p in among + {p};
      if Hit(digit, among, s) {
        HitCase(digit, among, p, s);
        var q :| q in among && MatchAt(digit, q, s);
        SubExtendsPass(digit, among, p, AfterMatch(digit, q, s));
        PassAtMatch(digit, among, q, s);
        PassAtMatch(digit, among + {p}, q, s);
        SubSkipsReplacement(digit, p, q, OnePass(digit, among, AfterMatch(digit, q, s)));
      } else if MatchAt(digit, p, s) {
        PassKeepsMatch(digit, among, p, s);
        SubExtendsPass(digit, among, p, AfterMatch(digit, p, s));
        PassAtMatch(digit, among + {p}, p, s);
        SubAtMatch(digit, p, OnePass(digit, among, s));
      } else {
        SubExtendsPass(digit, among, p, s[1..]);
        NoMatchCase(digit, among, p, s);
      }
    }
  }

  lemma HitCase(digit: char -> bool, among: set<Pattern>, p: Pattern, s: string)
    requires Hit(digit, among, s)
    ensures Hit(digit, among + {p}, s)
  {
    var q :| q in among && MatchAt(digit, q, s);
    assert q in among + {p};
  }

  lemma SubAtMatch(digit: char -> bool, p: Pattern, o: string)
    requires MatchAt(digit, p, o)
    ensures Sub(digit, p, o) == Prefix(p) + (p.holder + Sub(digit, p, AfterMatch(digit, p, o)))
  {
  }

  lemma NoMatchCase(digit: char -> bool, among: set<Pattern>, p: Pattern, s: string)
    requires DigitLike(digit) && Apart(among) && Shaped(p) && s != ""
    requires !Hit(digit, among, s) && !MatchAt(digit, p, s)
    ensures Sub(digit, p, OnePass(digit, among, s)) == [s[0]] + Sub(digit, p, OnePass(digit, among, s[1..]))
    ensures OnePass(digit, among + {p}, s) == [s[0]] + OnePass(digit, among + {p}, s[1..])
  {
    assert s == [s[0]] + s[1..];
    assert !Hit(digit, among + {p}, s);
    PassStep(digit, among, s[0], s[1..]);
    PassStep(digit, among + {p}, s[0], s[1..]);
    if MatchAt(digit, p, [s[0]] + OnePass(digit, among, s[1..])) {
      MatchWasThere(digit, among, p, s);
    }
    SubStep(digit, p, s[0], OnePass(digit, among, s[1..]));
  }

  lemma {:induction false} EmptyPass(digit: char -> bool, s: string)
    ensures OnePass(digit, {}, s) == s
  {
    if s != "" {
      EmptyPass(digit, s[1..]);
      assert s == [s[0]] + s[1..];
      assert !Hit(digit, {}, s);
    }
  }

  // ---------- main results ----------

  const ALL := {PROJECTS, MERGE_REQUESTS, PIPELINES, JOBS, NOTES}

  lemma AllApart()
    ensures Apart(ALL)
  {
    ShapedNames();
    ShapedLongNames();
    assert |PROJECTS.name| == 8 && |MERGE_REQUESTS.name| == 14 && |PIPELINES.name| == 9;
    assert |JOBS.name| == 4 && |NOTES.name| == 5;
  }

  lemma ShapedNames()
    ensures Shaped(PROJECTS) && Shaped(JOBS) && Shaped(NOTES)
  {
  }

  lemma ShapedLongNames()
    ensures Shaped(MERGE_REQUESTS) && Shaped(PIPELINES)
  {
  }

  // The substitutions of order carried out one after the other.
  function Chain(digit: char -> bool, order: seq<Pattern>, s: string): string {
    if order == [] then s else Sub(digit, order[|order| - 1], Chain(digit, order[..|order| - 1], s))
  }

  function Listed(order: seq<Pattern>): set<Pattern> {
    set p | p in order
  }

  lemma {:induction false} ChainIsPass(digit: char -> bool, order: seq<Pattern>, s: string)
    requires DigitLike(digit) && Apart(Listed(order))
    ensures Chain(digit, order, s) == OnePass(digit, Listed(order), s)
  {
    if order == [] {
      EmptyPass(digit, s);
      assert Listed(order) == {};
    } else {
      var init, p := order[..|order| - 1], order[|order| - 1];
      assert order == init + [p];
      assert Listed(order) == Listed(init) + {p};
      ChainIsPass(digit, init, s);
      SubExtendsPass(digit, Listed(init), p, s);
    }
  }

  const ORDER := [PROJECTS, MERGE_REQUESTS, PIPELINES, JOBS, NOTES]

  lemma ChainLast(digit: char -> bool, init: seq<Pattern>, p: Pattern, s: string)
    ensures Chain(digit, init + [p], s) == Sub(digit, p, Chain(digit, init, s))
  {
    assert (init + [p])[..|init|] == init;
  }

  lemma NormalizeIsChain(digit: char -> bool, s: string)
    ensures Normalize(digit, s) == Chain(digit, ORDER, s)
  {
    ChainLast(digit, [], PROJECTS, s);
    ChainLast(digit, [] + [PROJECTS], MERGE_REQUESTS, s);
    ChainLast(digit, [] + [PROJECTS] + [MERGE_REQUESTS], PIPELINES, s);
    ChainLast(digit, [] + [PROJECTS] + [MERGE_REQUESTS] + [PIPELINES], JOBS, s);
    ChainLast(digit, [] + [PROJECTS] + [MERGE_REQUESTS] + [PIPELINES] + [JOBS], NOTES, s);
    assert ORDER == [] + [PROJECTS] + [MERGE_REQUESTS] + [PIPELINES] + [JOBS] + [NOTES];
  }

  lemma ListedOrder()
    ensures Listed(ORDER) == ALL
  {
    assert ORDER[0] == PROJECTS && ORDER[1] == MERGE_REQUESTS && ORDER[2] == PIPELINES && ORDER[3] == JOBS && ORDER[4] == NOTES;
    assert forall p :: p in ALL ==> p in ORDER;
    assert forall p :: p in Listed(ORDER) <==> p in ALL;
  }

  /** The label is what a single pass over the path would give. */
  lemma NormalizeIsPass(digit: char -> bool, s: string)
    requires DigitLike(digit)
    ensures Normalize(digit, s) == OnePass(digit, ALL, s)
  {
    AllApart();
    NormalizeIsChain(digit, s);
    ListedOrder();
    ChainIsPass(digit, ORDER, s);
  }

  /** The five substitutions give the same label in whatever order they are made. */
  lemma AnyOrderSameLabel(digit: char -> bool, order: seq<Pattern>, s: string)
    requires DigitLike(digit) && Listed(order) == ALL
    ensures Chain(digit, order, s) == Normalize(digit, s)
  {
    AllApart();
    ChainIsPass(digit, order, s);
    NormalizeIsPass(digit, s);
  }

  lemma NormalizeFixed(digit: char -> bool, p: Pattern, s: string)
    requires DigitLike(digit) && p in ALL
    ensures Sub(digit, p, Normalize(digit, s)) == Normalize(digit, s)
  {
    AllApart();
    NormalizeIsPass(digit, s);
    assert ALL + {p} == ALL;
    SubExtendsPass(digit, ALL, p, s);
  }

  /** Normalizing a label changes nothing. */
  lemma NormalizeIdempotent(digit: char -> bool, s: string)
    requires DigitLike(digit)
    ensures Normalize(digit, Normalize(digit, s)) == Normalize(digit, s)
  {
    NormalizeFixed(digit, PROJECTS, s);
    NormalizeFixed(digit, MERGE_REQUESTS, s);
    NormalizeFixed(digit, PIPELINES, s);
    NormalizeFixed(digit, JOBS, s);
    NormalizeFixed(digit, NOTES, s);
  }

  lemma SubOfMatch(digit: char -> bool, p: Pattern, s: string)
    requires Shaped(p) && MatchAt(digit, p, s)
    ensures |Sub(digit, p, s)| > |Prefix(p)| && Sub(digit, p, s)[|Prefix(p)|] == ':'
  {
    SubAtMatch(digit, p, s);
  }

  lemma {:induction false} FixedHasNoMatch(digit: char -> bool, p: Pattern, s: string, i: nat)
    requires DigitLike(digit) && Shaped(p) && Sub(digit, p, s) == s && i <= |s|
    ensures !MatchAt(digit, p, s[i..])
  {
    if s != "" {
      if MatchAt(digit, p, s) {
        SubOfMatch(digit, p, s);
      }
      assert s == [s[0]] + s[1..];
      SubStep(digit, p, s[0], s[1..]);
      assert s[1..] == ([s[0]] + Sub(digit, p, s[1..]))[1..] == Sub(digit, p, s[1..]);
      if i > 0 {
        FixedHasNoMatch(digit, p, s[1..], i - 1);
        assert s[1..][i - 1..] == s[i..];
      } else {
        assert s[0..] == s;
      }
    }
  }

  /** No label has a listed segment with a number after it. */
  lemma LabelHasNoIds(digit: char -> bool, p: Pattern, s: string, i: nat)
    requires DigitLike(digit) && p in ALL && i <= |Normalize(digit, s)|
    ensures !MatchAt(digit, p, Normalize(digit, s)[i..])
  {
    AllApart();
    NormalizeFixed(digit, p, s);
    FixedHasNoMatch(digit, p, Normalize(digit, s), i);
  }

  // ---------- numbers do not matter ----------

  lemma MatchIsLonger(digit: char -> bool, p: Pattern, a: string, t: string)
    requires DigitLike(digit) && Shaped(p) && a != "" && Prefix(p) <= t && MatchAt(digit, p, a + t)
    ensures |a| > |Prefix(p)| && MatchAt(digit, p, a)
  {
    var s, n := a + t, |Prefix(p)|;
    assert s[|a|] == t[0] == Prefix(p)[0] == '/' && s[|a| + 1] == t[1] == Prefix(p)[1] == p.name[0];
    assert forall i :: 0 <= i < n ==> s[i] == Prefix(p)[i];
    assert forall i :: 0 < i < n - 1 ==> Prefix(p)[i] == p.name[i - 1];
    assert |a| > n;
    assert Prefix(p) == s[..n] == a[..n];
    assert s[n] == a[n];
  }

  // A match that starts before the numbered segment ends before it too.
  lemma EarlierMatchEndsEarlier(digit: char -> bool, p: Pattern, a: string, t: string)
    requires DigitLike(digit) && Shaped(p) && a != "" && Prefix(p) <= t && MatchAt(digit, p, a + t)
    ensures MatchAt(digit, p, a) && AfterMatch(digit, p, a + t) == AfterMatch(digit, p, a) + t
  {
    MatchIsLonger(digit, p, a, t);
    MatchSplits(digit, p, a);
    var d, b := NumberOf(digit, p, a), AfterMatch(digit, p, a);
    assert t[0] == Prefix(p)[0] == '/';
    assert (b + t)[0] == if b != "" then b[0] else t[0];
    Assoc(Prefix(p), d + b, t);
    Assoc(d, b, t);
    MatchOf(digit, p, d, b + t);
  }

  lemma StepOver(digit: char -> bool, p: Pattern, a: string, t: string)
    requires a != "" && !MatchAt(digit, p, a + t)
    ensures Sub(digit, p, a + t) == [a[0]] + Sub(digit, p, a[1..] + t)
  {
    assert a == [a[0]] + a[1..];
    Assoc([a[0]], a[1..], t);
    SubStep(digit, p, a[0], a[1..] + t);
  }

  lemma MatchesAgree(digit: char -> bool, p: Pattern, a: string, t: string, t': string)
    requires DigitLike(digit) && Shaped(p) && a != "" && Prefix(p) <= t && Prefix(p) <= t'
    requires MatchAt(digit, p, a + t)
    ensures MatchAt(digit, p, a + t')
  {
    MatchIsLonger(digit, p, a, t);
    var n := |Prefix(p)|;
    assert (a + t')[..n] == a[..n] && (a + t')[n] == a[n];
  }

  lemma {:induction false} SameAfterSub(digit: char -> bool, p: Pattern, a: string, d: string, d': string, b: string)
    requires DigitLike(digit) && Shaped(p) && Numbered(digit, d, b) && Numbered(digit, d', b)
    ensures Sub(digit, p, a + (Prefix(p) + (d + b))) == Sub(digit, p, a + (Prefix(p) + (d' + b)))
    decreases |a|
  {
    var t, t' := Prefix(p) + (d + b), Prefix(p) + (d' + b);
    if a == "" {
      assert a + t == t && a + t' == t';
      MatchOf(digit, p, d, b);
      MatchOf(digit, p, d', b);
      SubAtMatch(digit, p, t);
      SubAtMatch(digit, p, t');
    } else if MatchAt(digit, p, a + t) {
      MatchesAgree(digit, p, a, t, t');
      EarlierMatchEndsEarlier(digit, p, a, t);
      EarlierMatchEndsEarlier(digit, p, a, t');
      SameAfterSub(digit, p, AfterMatch(digit, p, a), d, d', b);
      SubAtMatch(digit, p, a + t);
      SubAtMatch(digit, p, a + t');
    } else {
      if MatchAt(digit, p, a + t') {
        MatchesAgree(digit, p, a, t', t);
      }
      StepOver(digit, p, a, t);
      StepOver(digit, p, a, t');
      SameAfterSub(digit, p, a[1..], d, d', b);
    }
  }

  lemma NormalizeAfterSub(digit: char -> bool, p: Pattern, s: string)
    requires DigitLike(digit) && p in ALL
    ensures Normalize(digit, Sub(digit, p, s)) == Normalize(digit, s)
  {
    var order := [p] + ORDER;
    ListedOrder();
    assert Listed(order) == ALL by {
      assert forall q :: q in order <==> q == p || q in ORDER;
      assert forall q :: q in Listed(order) <==> q in ALL;
    }
    AnyOrderSameLabel(digit, order, s);
    ChainSplits(digit, [p], ORDER, s);
    assert [p][..0] == [] && Chain(digit, [p], s) == Sub(digit, p, s);
    NormalizeIsChain(digit, Sub(digit, p, s));
  }

  lemma {:induction false} ChainSplits(digit: char -> bool, first: seq<Pattern>, then': seq<Pattern>, s: string)
    ensures Chain(digit, first + then', s) == Chain(digit, then', Chain(digit, first, s))
  {
    if then' == [] {
      assert first + then' == first;
    } else {
      var init, p := then'[..|then'| - 1], then'[|then'| - 1];
      assert (first + then')[..|first + then'| - 1] == first + init && (first + then')[|first + then'| - 1] == p;
      ChainSplits(digit, first, init, s);
    }
  }

  /** Two endpoints that differ only in the number after a listed segment get one label. */
  lemma NumbersDoNotMatter(digit: char -> bool, p: Pattern, a: string, d: string, d': string, b: string)
    requires DigitLike(digit) && p in ALL && Numbered(digit, d, b) && Numbered(digit, d', b)
    ensures Normalize(digit, a + (Prefix(p) + (d + b))) == Normalize(digit, a + (Prefix(p) + (d' + b)))
  {
    AllApart();
    SameAfterSub(digit, p, a, d, d', b);
    NormalizeAfterSub(digit, p, a + (Prefix(p) + (d + b)));
    NormalizeAfterSub(digit, p, a + (Prefix(p) + (d' + b)));
  }
}
