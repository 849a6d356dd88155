/**
 The JSON text that every digest of the rollback archive is taken over: compact
 separators, non-ASCII characters kept as they are. The main result is unique
 decodability: a text determines the value it was written from, also when more
 text follows it, so two different values never share a text.
 */
module JsonText {
  import opened Sequences

  datatype Field = Field(key: string, value: Json)

  datatype Json =
    | JNull
    | JBool(b: bool)
    | JInt(n: int)
    | JStr(s: string)
    | JArr(items: seq<Json>)
    | JObj(fields: seq<Field>)

  // ---------- writing ----------

  function Digit(n: nat): (c: char)
    requires n < 10
    ensures IsDigit(c) && DigitValue(c) == n
  {
    ('0' as int + n) as char
  }

  predicate IsDigit(c: char) {
    '0' <= c <= '9'
  }

  function DigitValue(c: char): int {
    c as int - '0' as int
  }

  function NatText(n: nat): string {
    if n < 10 then [Digit(n)] else NatText(n / 10) + [Digit(n % 10)]
  }

  function IntText(n: int): string {
    if n < 0 then "-" + NatText(-n) else NatText(n)
  }

  function HexDigit(n: nat): char
    requires n < 16
  {
    if n < 10 then ('0' as int + n) as char else ('a' as int + (n - 10)) as char
  }

  function EscapeChar(c: char): string {
    if c == '\"' then "\\\""
    else if c == '\\' then "\\\\"
    else if c == '\n' then "\\n"
    else if c == '\r' then "\\r"
    else if c == '\t' then "\\t"
    else if c == '\U{8}' then "\\b"
    else if c == '\U{C}' then "\\f"
    else if c < ' ' then ['\\', 'u', '0', '0', HexDigit(c as int / 16), HexDigit(c as int % 16)]
    else [c]
  }

  function Escape(s: string): string {
    if s == "" then "" else EscapeChar(s[0]) + Escape(s[1..])
  }

  function Quote(s: string): string {
    "\"" + Escape(s) + "\""
  }

  function Text(v: Json): string
    decreases v, 1
  {
    match v
    case JNull => "null"
    case JBool(b) => if b then "true" else "false"
    case JInt(n) => IntText(n)
    case JStr(s) => Quote(s)
    case JArr(items) => "[" + Items(items) + "]"
    case JObj(fields) => "{" + Members(fields) + "}"
  }

  function Items(items: seq<Json>): string
    decreases items, 0
  {
    if items == [] then ""
    else if |items| == 1 then Text(items[0])
    else Text(items[0]) + "," + Items(items[1..])
  }

  function Members(fields: seq<Field>): string
    decreases fields, 0
  {
    if fields == [] then ""
    else if |fields| == 1 then Quote(fields[0].key) + ":" + Text(fields[0].value)
    else Quote(fields[0].key) + ":" + Text(fields[0].value) + "," + Members(fields[1..])
  }

  // ---------- numbers ----------

  function NatValue(s: string): int {
    if s == "" then 0 else NatValue(s[..|s| - 1]) * 10 + DigitValue(s[|s| - 1])
  }

  lemma {:induction false} NatTextFacts(n: nat)
    ensures NatText(n) != ""
    ensures forall i :: 0 <= i < |NatText(n)| ==> IsDigit(NatText(n)[i])
    ensures NatValue(NatText(n)) == n
  {
    if n < 10 {
      assert NatValue([Digit(n)]) == NatValue([]) * 10 + DigitValue(Digit(n));
    } else {
      NatTextFacts(n / 10);
      assert NatText(n)[..|NatText(n)| - 1] == NatText(n / 10);
    }
  }

  // Text that may follow a value inside a larger text: nothing, or a separator.
  predicate Stops(x: string) {
    x == "" || x[0] == ',' || x[0] == ']' || x[0] == '}'
  }

  lemma DigitsReach(p: string, x: string, q: string, y: string)
    requires Stops(x) && p + x == q + y
    requires forall i :: 0 <= i < |q| ==> IsDigit(q[i])
    ensures |q| <= |p|
  {
    assert forall i :: 0 <= i < |q| ==> (p + x)[i] == q[i];
    assert |x| > 0 ==> (p + x)[|p|] == x[0];
  }

  lemma NatUnique(a: nat, b: nat, x: string, y: string)
    requires Stops(x) && Stops(y)
    requires NatText(a) + x == NatText(b) + y
    ensures a == b && x == y
  {
    NatTextFacts(a);
    NatTextFacts(b);
    DigitsReach(NatText(a), x, NatText(b), y);
    DigitsReach(NatText(b), y, NatText(a), x);
    SplitAt(NatText(a), x, NatText(b), y);
  }

  lemma IntUnique(a: int, b: int, x: string, y: string)
    requires Stops(x) && Stops(y)
    requires IntText(a) + x == IntText(b) + y
    ensures a == b && x == y
  {
    IntHead(a);
    IntHead(b);
    HeadOfSum(IntText(a), x, IntText(b), y);
    if a < 0 {
      Drop1('-', NatText(-a), x, '-', NatText(-b), y);
      NatUnique(-a, -b, x, y);
    } else {
      NatUnique(a, b, x, y);
    }
  }

  lemma HeadOfSum(p: string, x: string, q: string, y: string)
    requires p != "" && q != "" && p + x == q + y
    ensures p[0] == q[0]
  {
    assert p[0] == (p + x)[0] == (q + y)[0] == q[0];
  }

  // Equal texts with a leading character: the characters and the rests agree.
  lemma Drop1(c: char, p: string, x: string, d: char, q: string, y: string)
    requires [c] + p + x == [d] + q + y
    ensures c == d && p + x == q + y
  {
    Assoc([c], p, x);
    Assoc([d], q, y);
    SplitAt([c], p + x, [d], q + y);
  }

  lemma IntHead(n: int)
    ensures IntText(n) != ""
    ensures n < 0 ==> IntText(n)[0] == '-'
    ensures n >= 0 ==> IsDigit(IntText(n)[0])
  {
    NatTextFacts(if n < 0 then -n else n);
  }

  // ---------- strings ----------

  lemma EscapeCharUnique(c: char, d: char, x: string, y: string)
    requires EscapeChar(c) + x == EscapeChar(d) + y
    ensures c == d && x == y
  {
    var p, q := EscapeChar(c), EscapeChar(d);
    assert p[0] == (p + x)[0] == (q + y)[0] == q[0];
    if |p| > 1 {
      assert p[1] == (p + x)[1] == (q + y)[1] == q[1];
      if |p| == 6 {
        assert |q| == 6;
        SplitAt(p, x, q, y);
        assert p[4] == q[4] && p[5] == q[5];
        assert c as int / 16 == d as int / 16 && c as int % 16 == d as int % 16;
      } else {
        SplitAt(p, x, q, y);
      }
    } else {
      SplitAt(p, x, q, y);
    }
  }

  lemma EscapeHead(s: string)
    requires s != ""
    ensures Escape(s) != "" && Escape(s)[0] != '\"'
    ensures Escape(s) == EscapeChar(s[0]) + Escape(s[1..])
  {
    assert EscapeChar(s[0])[0] != '\"';
  }

  lemma {:induction false} EscapeUnique(s: string, t: string, x: string, y: string)
    requires Escape(s) + ("\"" + x) == Escape(t) + ("\"" + y)
    ensures s == t && x == y
  {
    if s != "" {
      EscapeHead(s);
      Assoc(EscapeChar(s[0]), Escape(s[1..]), "\"" + x);
    }
    if t != "" {
      EscapeHead(t);
      Assoc(EscapeChar(t[0]), Escape(t[1..]), "\"" + y);
    }
    if s != "" && t != "" {
      EscapeCharUnique(s[0], t[0], Escape(s[1..]) + ("\"" + x), Escape(t[1..]) + ("\"" + y));
      EscapeUnique(s[1..], t[1..], x, y);
    } else {
      assert (Escape(s) + ("\"" + x))[0] == (Escape(t) + ("\"" + y))[0];
      assert "\"" + x == Escape("") + ("\"" + x);
      assert "\"" + y == Escape("") + ("\"" + y);
      SplitAt("\"", x, "\"", y);
    }
  }

  lemma QuoteUnique(s: string, t: string, x: string, y: string)
    requires Quote(s) + x == Quote(t) + y
    ensures s == t && x == y
  {
    assert Quote(s) + x == "\"" + (Escape(s) + ("\"" + x));
    assert Quote(t) + y == "\"" + (Escape(t) + ("\"" + y));
    SplitAt("\"", Escape(s) + ("\"" + x), "\"", Escape(t) + ("\"" + y));
    EscapeUnique(s, t, x, y);
  }

  // ---------- values ----------

  // The first character of a text tells which kind of value it was written from.
  predicate StartsLike(v: Json, c: char) {
    match v
    case JNull => c == 'n'
    case JBool(b) => c == if b then 't' else 'f'
    case JInt(_) => IsDigit(c) || c == '-'
    case JStr(_) => c == '\"'
    case JArr(_) => c == '['
    case JObj(_) => c == '{'
  }

  lemma TextHead(v: Json)
    ensures Text(v) != "" && StartsLike(v, Text(v)[0])
  {
    if v.JInt? {
      IntHead(v.n);
    }
  }

  lemma {:induction false} TextUnique(a: Json, b: Json, x: string, y: string)
    requires Stops(x) && Stops(y)
    requires Text(a) + x == Text(b) + y
    ensures a == b && x == y
    decreases a, 1
  {
    TextHead(a);
    TextHead(b);
    HeadOfSum(Text(a), x, Text(b), y);
    match a
    case JNull => SplitAt(Text(a), x, Text(b), y);
    case JBool(_) => SplitAt(Text(a), x, Text(b), y);
    case JInt(n) => IntUnique(n, b.n, x, y);
    case JStr(s) => QuoteUnique(s, b.s, x, y);
    case JArr(items) =>
      Unwrap('[', Items(items), ']', x, Items(b.items), y);
      ItemsUnique(items, b.items, "]" + x, "]" + y);
      SplitAt("]", x, "]", y);
    case JObj(fields) =>
      Unwrap('{', Members(fields), '}', x, Members(b.fields), y);
      MembersUnique(fields, b.fields, "}" + x, "}" + y);
      SplitAt("}", x, "}", y);
  }

  lemma Unwrap(open: char, p: string, close: char, x: string, q: string, y: string)
    requires [open] + p + [close] + x == [open] + q + [close] + y
    ensures p + ([close] + x) == q + ([close] + y)
  {
    assert [open] + p + [close] + x == [open] + (p + ([close] + x));
    assert [open] + q + [close] + y == [open] + (q + ([close] + y));
    SplitAt([open], p + ([close] + x), [open], q + ([close] + y));
  }

  // What follows the first entry of a list whose other entries are written as
  // rest, when x follows the whole list.
  function After(more: bool, rest: string, x: string): string {
    if more then "," + (rest + x) else x
  }

  lemma AfterUnique(m: bool, r: string, x: string, m': bool, r': string, y: string)
    requires x != "" && x[0] != ',' && y != "" && y[0] != ','
    requires After(m, r, x) == After(m', r', y)
    ensures m == m' && if m then r + x == r' + y else x == y
  {
    assert After(m, r, x)[0] == After(m', r', y)[0];
    if m {
      SplitAt(",", r + x, ",", r' + y);
    }
  }

  // t, the separator and r, followed by x.
  lemma Glue(t: string, r: string, x: string)
    requires t != ""
    ensures t + "," + r + x == t + ("," + (r + x))
    ensures t + "," + r != "" && (t + "," + r)[0] == t[0]
  {
  }

  lemma ItemsSplit(p: seq<Json>, x: string)
    requires p != []
    ensures Items(p) + x == Text(p[0]) + After(|p| > 1, Items(p[1..]), x)
    ensures Items(p) != "" && Items(p)[0] != ']'
  {
    TextHead(p[0]);
    if |p| > 1 {
      Glue(Text(p[0]), Items(p[1..]), x);
    }
  }

  lemma {:induction false} ItemsUnique(p: seq<Json>, q: seq<Json>, x: string, y: string)
    requires x != "" && x[0] == ']' && y != "" && y[0] == ']'
    requires Items(p) + x == Items(q) + y
    ensures p == q && x == y
    decreases p, 0
  {
    if p == [] || q == [] {
      OneEmpty(Items(p), x, Items(q), y);
      if p != [] { ItemsSplit(p, x); }
      if q != [] { ItemsSplit(q, y); }
    } else {
      ItemsSplit(p, x);
      ItemsSplit(q, y);
      TextUnique(p[0], q[0], After(|p| > 1, Items(p[1..]), x), After(|q| > 1, Items(q[1..]), y));
      AfterUnique(|p| > 1, Items(p[1..]), x, |q| > 1, Items(q[1..]), y);
      if |p| > 1 {
        ItemsUnique(p[1..], q[1..], x, y);
      }
      assert p == [p[0]] + p[1..] && q == [q[0]] + q[1..];
    }
  }

  lemma OneEmpty(p: string, x: string, q: string, y: string)
    requires p + x == q + y && (p == "" || q == "")
    requires x != "" && y != "" && x[0] == y[0]
    ensures p != "" ==> p[0] == x[0]
    ensures q != "" ==> q[0] == x[0]
    ensures p == "" && q == "" ==> x == y
  {
    assert (p + x)[0] == (q + y)[0];
    assert p == "" ==> p + x == x;
    assert q == "" ==> q + y == y;
  }

  lemma GlueMember(k: string, t: string, x: string)
    requires k != ""
    ensures k + ":" + t + x == k + (":" + (t + x))
    ensures k + ":" + t != "" && (k + ":" + t)[0] == k[0]
  {
  }

  lemma MembersSplit(p: seq<Field>, x: string)
    requires p != []
    ensures Members(p) + x == Quote(p[0].key) + (":" + (Text(p[0].value) + After(|p| > 1, Members(p[1..]), x)))
    ensures Members(p) != "" && Members(p)[0] == '\"'
  {
    var k, t := Quote(p[0].key), Text(p[0].value);
    GlueMember(k, t, x);
    if |p| > 1 {
      GlueMember(k, t, "," + (Members(p[1..]) + x));
      Glue(k + ":" + t, Members(p[1..]), x);
    }
  }

  lemma {:induction false} MembersUnique(p: seq<Field>, q: seq<Field>, x: string, y: string)
    requires x != "" && x[0] == '}' && y != "" && y[0] == '}'
    requires Members(p) + x == Members(q) + y
    ensures p == q && x == y
    decreases p, 0
  {
    if p == [] || q == [] {
      OneEmpty(Members(p), x, Members(q), y);
      if p != [] { MembersSplit(p, x); }
      if q != [] { MembersSplit(q, y); }
    } else {
      MembersSplit(p, x);
      MembersSplit(q, y);
      var u, w := Text(p[0].value) + After(|p| > 1, Members(p[1..]), x), Text(q[0].value) + After(|q| > 1, Members(q[1..]), y);
      QuoteUnique(p[0].key, q[0].key, ":" + u, ":" + w);
      SplitAt(":", u, ":", w);
      TextUnique(p[0].value, q[0].value, After(|p| > 1, Members(p[1..]), x), After(|q| > 1, Members(q[1..]), y));
      AfterUnique(|p| > 1, Members(p[1..]), x, |q| > 1, Members(q[1..]), y);
      if |p| > 1 {
        MembersUnique(p[1..], q[1..], x, y);
      }
      assert p == [p[0]] + p[1..] && q == [q[0]] + q[1..];
    }
  }

  /** The text of a value determines the value. */
  lemma TextInjective(a: Json, b: Json)
    ensures Text(a) == Text(b) <==> a == b
  {
    if Text(a) == Text(b) {
      assert Text(a) + "" == Text(a) && Text(b) + "" == Text(b);
      TextUnique(a, b, "", "");
    }
  }

  lemma KnownNumber()
    ensures Text(JInt(-12)) == "-12"
  {
    assert NatText(1) == "1";
    assert NatText(12) == "1" + "2";
  }

  lemma KnownString()
    ensures Text(JStr("a\"b")) == "\"a\\\"b\""
  {
    var s := "a\"b";
    assert s[1..] == "\"b" && s[1..][1..] == "b" && "b"[1..] == "";
    assert Escape("b") == "b";
    assert Escape("\"b") == "\\\"" + "b";
  }

  /** The text of one row of values: compact, with quotes escaped and numbers plain. */
  lemma KnownText()
    ensures Text(JArr([JInt(-12), JStr("a\"b"), JNull])) == "[-12,\"a\\\"b\",null]"
  {
    var items := [JInt(-12), JStr("a\"b"), JNull];
    KnownNumber();
    KnownString();
    assert items[1..] == [JStr("a\"b"), JNull] && items[1..][1..] == [JNull];
    assert Items([JNull]) == "null";
    assert Items(items[1..]) == "\"a\\\"b\"" + "," + "null";
    assert Items(items) == "-12" + "," + Items(items[1..]);
  }
}
