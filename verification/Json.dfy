/** JSON as the token codec reads and writes it (src/valiss/token.py): Go-style
    serialization without whitespace, and Python's json.loads. A floating-point
    number is held by its text. */
module Json {
  import opened Bits
  import opened Errors
  import Utf8

  predicate IsDigit(c: char) {
    '0' <= c <= '9'
  }

  predicate AllDigits(s: string) {
    forall i :: 0 <= i < |s| ==> IsDigit(s[i])
  }

  predicate IsFraction(s: string) {
    s == "" || (|s| >= 2 && s[0] == '.' && AllDigits(s[1..]))
  }

  predicate IsExponent(s: string) {
    s == ""
    || (|s| >= 2 && (s[0] == 'e' || s[0] == 'E')
        && var d := if s[1] == '+' || s[1] == '-' then s[2..] else s[1..]; d != "" && AllDigits(d))
  }

  type Fraction = s: string | IsFraction(s) witness ""

  type Exponent = s: string | IsExponent(s) witness ""

  datatype Json =
    | Null
    | Bool(b: bool)
    | Int(n: int)
    | Float(neg: bool, whole: nat, frac: Fraction, exp: Exponent)
    | Str(s: string)
    | Arr(items: seq<Json>)
    | Obj(fields: seq<Field>)

  datatype Field = Field(key: string, value: Json)

  // ---- writing -------------------------------------------------------------

  function HexDigit(n: nat): char
    requires n < 16
  {
    if n < 10 then ('0' as int + n) as char else ('a' as int + (n - 10)) as char
  }

  function Hex4(n: nat): string
    requires n < 0x10000
  {
    [HexDigit(n / 0x1000), HexDigit(n / 0x100 % 16), HexDigit(n / 0x10 % 16), HexDigit(n % 16)]
  }

  /** The escapes of json.dumps with ensure_ascii off. */
  function Escape(c: char): string {
    if c == '"' then "\\\""
    else if c == '\\' then "\\\\"
    else if c == '\n' then "\\n"
    else if c == '\r' then "\\r"
    else if c == '\t' then "\\t"
    else if c as int == 8 then "\\b"
    else if c as int == 12 then "\\f"
    else if c as int < 0x20 then "\\u" + Hex4(c as int)
    else [c]
  }

  /** The five characters Go's encoder also escapes. */
  predicate IsHtml(c: char) {
    c == '<' || c == '>' || c == '&' || c == '\U{2028}' || c == '\U{2029}'
  }

  function Html(c: char): string {
    if IsHtml(c) then "\\u" + Hex4(c as int) else [c]
  }

  /** One escaping pass over a string value; `go` adds the five characters. */
  function Escaped(s: string, go: bool): string {
    if s == "" then ""
    else (if go && IsHtml(s[0]) then Html(s[0]) else Escape(s[0])) + Escaped(s[1..], go)
  }

  function DecimalNat(n: nat): string {
    var d := ('0' as int + n % 10) as char;
    if n < 10 then [d] else DecimalNat(n / 10) + [d]
  }

  function Decimal(n: int): string {
    if n < 0 then "-" + DecimalNat(-n) else DecimalNat(n)
  }

  /** Sign, whole part, ".digits" and "e[sign]digits", either of the last two absent. */
  function FloatText(neg: bool, whole: nat, frac: Fraction, exp: Exponent): string {
    (if neg then "-" else "") + (DecimalNat(whole) + (frac + exp))
  }

  function Quoted(s: string, go: bool): string {
    "\"" + Escaped(s, go) + "\""
  }

  function Dump(v: Json, go: bool): string
    decreases v, 1
  {
    match v
    case Null => "null"
    case Bool(b) => if b then "true" else "false"
    case Int(n) => Decimal(n)
    case Float(neg, whole, frac, exp) => FloatText(neg, whole, frac, exp)
    case Str(s) => Quoted(s, go)
    case Arr(items) => "[" + DumpItems(items, go) + "]"
    case Obj(fields) => "{" + DumpFields(fields, go) + "}"
  }

  function DumpItems(items: seq<Json>, go: bool): string
    decreases items, 0
  {
    if items == [] then ""
    else if |items| == 1 then Dump(items[0], go)
    else Dump(items[0], go) + "," + DumpItems(items[1..], go)
  }

  function DumpFields(fields: seq<Field>, go: bool): string
    decreases fields, 0
  {
    if fields == [] then ""
    else
      var f := Quoted(fields[0].key, go) + ":" + Dump(fields[0].value, go);
      if |fields| == 1 then f else f + "," + DumpFields(fields[1..], go)
  }

  /** str.replace of one character. */
  function Replace(s: string, c: char, text: string): string {
    if s == "" then ""
    else (if s[0] == c then text else [s[0]]) + Replace(s[1..], c, text)
  }

  /** The source's serializer: dump, then five replacements over the whole text. */
  function GoText(v: Json): string {
    var s := Dump(v, false);
    var s1 := Replace(s, '<', "\\u003c");
    var s2 := Replace(s1, '>', "\\u003e");
    var s3 := Replace(s2, '&', "\\u0026");
    var s4 := Replace(s3, '\U{2028}', "\\u2028");
    Replace(s4, '\U{2029}', "\\u2029")
  }

  function GoJson(v: Json): Bytes {
    Utf8.Encode(GoText(v))
  }

  // ---- the five replacements are one escaping pass ---------------------------

  /** Every character of `done` replaced by its escape. */
  function Pass(s: string, done: set<char>): string {
    if s == "" then ""
    else (if s[0] in done then Html(s[0]) else [s[0]]) + Pass(s[1..], done)
  }

  const HTML: set<char> := {'<', '>', '&', '\U{2028}', '\U{2029}'}

  lemma HtmlTexts()
    ensures Html('<') == "\\u003c" && Html('>') == "\\u003e" && Html('&') == "\\u0026"
    ensures Html('\U{2028}') == "\\u2028" && Html('\U{2029}') == "\\u2029"
  {
  }

  /** An escape contains none of the five characters. */
  lemma HtmlIsSafe(c: char, d: char)
    requires IsHtml(c) && d in Html(c)
    ensures !IsHtml(d)
  {
  }

  lemma {:induction false} ReplaceConcat(a: string, b: string, c: char, text: string)
    ensures Replace(a + b, c, text) == Replace(a, c, text) + Replace(b, c, text)
  {
    if a == "" {
      assert a + b == b;
    } else {
      assert (a + b)[1..] == a[1..] + b;
      ReplaceConcat(a[1..], b, c, text);
    }
  }

  lemma {:induction false} ReplaceAbsent(s: string, c: char, text: string)
    requires c !in s
    ensures Replace(s, c, text) == s
  {
    if s != "" {
      ReplaceAbsent(s[1..], c, text);
      assert s == [s[0]] + s[1..];
    }
  }

  lemma {:induction false} ReplacePass(s: string, done: set<char>, c: char)
    requires done <= HTML && c in HTML && c !in done
    ensures Replace(Pass(s, done), c, Html(c)) == Pass(s, done + {c})
  {
    if s != "" {
      ReplacePass(s[1..], done, c);
      var head := if s[0] in done then Html(s[0]) else [s[0]];
      ReplaceConcat(head, Pass(s[1..], done), c, Html(c));
      if s[0] in done {
        if c in Html(s[0]) { HtmlIsSafe(s[0], c); }
        ReplaceAbsent(Html(s[0]), c, Html(c));
      } else {
        assert [s[0]][1..] == "";
        assert Replace([s[0]], c, Html(c)) == if s[0] == c then Html(c) else [s[0]];
      }
    }
  }

  lemma {:induction false} PassNothing(s: string)
    ensures Pass(s, {}) == s
  {
    if s != "" {
      PassNothing(s[1..]);
      assert s == [s[0]] + s[1..];
    }
  }

  lemma {:induction false} PassConcat(a: string, b: string, done: set<char>)
    ensures Pass(a + b, done) == Pass(a, done) + Pass(b, done)
  {
    if a == "" {
      assert a + b == b;
    } else {
      assert (a + b)[1..] == a[1..] + b;
      PassConcat(a[1..], b, done);
    }
  }

  lemma {:induction false} PassSafe(s: string, done: set<char>)
    requires forall c :: c in s ==> c !in done
    ensures Pass(s, done) == s
  {
    if s != "" {
      PassSafe(s[1..], done);
      assert s == [s[0]] + s[1..];
    }
  }

  lemma SuccessiveReplacements(v: Json)
    ensures GoText(v) == Pass(Dump(v, false), HTML)
  {
    HtmlTexts();
    var s := Dump(v, false);
    hide Dump, Replace, Pass, Html;
    PassNothing(s);
    ReplacePass(s, {}, '<');
    ReplacePass(s, {'<'}, '>');
    ReplacePass(s, {'<', '>'}, '&');
    ReplacePass(s, {'<', '>', '&'}, '\U{2028}');
    ReplacePass(s, {'<', '>', '&', '\U{2028}'}, '\U{2029}');
    assert {} + {'<'} == {'<'};
    assert {'<'} + {'>'} == {'<', '>'};
    assert {'<', '>'} + {'&'} == {'<', '>', '&'};
    assert {'<', '>', '&'} + {'\U{2028}'} == {'<', '>', '&', '\U{2028}'};
    assert {'<', '>', '&', '\U{2028}'} + {'\U{2029}'} == HTML;
  }

  lemma PassEscape(c: char)
    ensures Pass(Escape(c), HTML) == if IsHtml(c) then Html(c) else Escape(c)
  {
    if IsHtml(c) {
      assert Escape(c) == [c] && [c][1..] == "";
      assert Pass([c], HTML) == Html(c) + Pass("", HTML);
    } else {
      forall d | d in Escape(c) ensures d !in HTML {
      }
      PassSafe(Escape(c), HTML);
    }
  }

  lemma {:induction false} PassEscaped(s: string)
    ensures Pass(Escaped(s, false), HTML) == Escaped(s, true)
  {
    if s != "" {
      PassEscaped(s[1..]);
      PassEscape(s[0]);
      PassConcat(Escape(s[0]), Escaped(s[1..], false), HTML);
    }
  }

  lemma PassQuoted(s: string)
    ensures Pass(Quoted(s, false), HTML) == Quoted(s, true)
  {
    PassEscaped(s);
    PassConcat("\"" + Escaped(s, false), "\"", HTML);
    PassConcat("\"", Escaped(s, false), HTML);
    PassSafe("\"", HTML);
  }

  lemma {:induction false} DecimalDigits(n: nat)
    ensures DecimalNat(n) != ""
    ensures forall i :: 0 <= i < |DecimalNat(n)| ==> '0' <= DecimalNat(n)[i] <= '9'
  {
    if n >= 10 { DecimalDigits(n / 10); }
  }

  lemma PassDecimal(n: int)
    ensures Pass(Decimal(n), HTML) == Decimal(n)
  {
    DecimalDigits(if n < 0 then -n else n);
    PassSafe(Decimal(n), HTML);
  }

  predicate IsPlain(s: string) {
    forall i :: 0 <= i < |s| ==> !IsHtml(s[i])
  }

  lemma PassPlain(s: string)
    requires IsPlain(s)
    ensures Pass(s, HTML) == s
  {
  }

  lemma PassWords()
    ensures Pass("null", HTML) == "null"
    ensures Pass("true", HTML) == "true" && Pass("false", HTML) == "false"
  {
    hide Pass;
    PassPlain("null");
    PassPlain("true");
    PassPlain("false");
  }

  lemma FloatPlain(neg: bool, whole: nat, frac: Fraction, exp: Exponent)
    ensures IsPlain(FloatText(neg, whole, frac, exp))
  {
    DigitsPlain(whole);
    PartsPlain(frac, exp);
    SignPlain();
    hide DecimalNat, IsFraction, IsExponent, IsPlain;
    PlainConcat(frac, exp);
    PlainConcat(DecimalNat(whole), frac + exp);
    PlainConcat(if neg then "-" else "", DecimalNat(whole) + (frac + exp));
  }

  lemma SignPlain()
    ensures IsPlain("-") && IsPlain("")
  {
  }

  lemma PlainConcat(a: string, b: string)
    requires IsPlain(a) && IsPlain(b)
    ensures IsPlain(a + b)
  {
    hide IsHtml;
  }

  lemma DigitsPlain(n: nat)
    ensures IsPlain(DecimalNat(n))
  {
    DecimalDigits(n);
    hide DecimalNat;
  }

  lemma PartsPlain(frac: Fraction, exp: Exponent)
    ensures IsPlain(frac) && IsPlain(exp)
  {
  }

  lemma {:induction false} PassDump(v: Json)
    ensures Pass(Dump(v, false), HTML) == Dump(v, true)
    decreases v, 1
  {
    hide Pass, Decimal, FloatText, Quoted, DumpItems, DumpFields, IsPlain;
    match v
    case Null => PassWords();
    case Bool(b) => PassWords();
    case Int(n) => PassDecimal(n);
    case Float(neg, whole, frac, exp) =>
      FloatPlain(neg, whole, frac, exp);
      PassPlain(FloatText(neg, whole, frac, exp));
    case Str(s) => PassQuoted(s);
    case Arr(items) =>
      PassItems(items);
      BracketsPlain();
      PassBracketed("[", DumpItems(items, false), "]");
    case Obj(fields) =>
      PassFields(fields);
      BracketsPlain();
      PassBracketed("{", DumpFields(fields, false), "}");
  }

  lemma BracketsPlain()
    ensures IsPlain("[") && IsPlain("]") && IsPlain("{") && IsPlain("}")
  {
  }

  lemma PassBracketed(open: string, body: string, close: string)
    requires IsPlain(open) && IsPlain(close)
    ensures Pass(open + body + close, HTML) == open + Pass(body, HTML) + close
  {
    PassConcat(open + body, close, HTML);
    PassConcat(open, body, HTML);
    PassPlain(open);
    PassPlain(close);
  }

  lemma {:induction false} PassItems(items: seq<Json>)
    ensures Pass(DumpItems(items, false), HTML) == DumpItems(items, true)
    decreases items, 0
  {
    if items != [] {
      PassDump(items[0]);
      if |items| > 1 {
        PassItems(items[1..]);
        PassConcat(Dump(items[0], false) + ",", DumpItems(items[1..], false), HTML);
        PassBracketed("", Dump(items[0], false), ",");
        assert "" + Dump(items[0], false) == Dump(items[0], false);
        assert "" + Dump(items[0], true) == Dump(items[0], true);
      }
    }
  }

  lemma {:induction false} PassFields(fields: seq<Field>)
    ensures Pass(DumpFields(fields, false), HTML) == DumpFields(fields, true)
    decreases fields, 0
  {
    hide Pass, Quoted;
    if fields == [] {
      PassPlain("");
    } else {
      var key, value := Quoted(fields[0].key, false), Dump(fields[0].value, false);
      PassDump(fields[0].value);
      PassQuoted(fields[0].key);
      PassConcat(key + ":", value, HTML);
      PassBracketed("", key, ":");
      assert "" + key == key && "" + Quoted(fields[0].key, true) == Quoted(fields[0].key, true);
      if |fields| > 1 {
        var f := key + ":" + value;
        PassFields(fields[1..]);
        PassConcat(f + ",", DumpFields(fields[1..], false), HTML);
        PassBracketed("", f, ",");
        assert "" + f == f && "" + Pass(f, HTML) == Pass(f, HTML);
      }
    }
  }

  /** The serializer's five replacements amount to one escaping pass over the
      string values, and leave none of the five characters anywhere. */
  lemma OnePassEscaping(v: Json)
    ensures GoText(v) == Dump(v, true)
    ensures forall c :: c in GoText(v) ==> !IsHtml(c)
  {
    SuccessiveReplacements(v);
    PassDump(v);
    NoneLeft(Dump(v, false));
  }

  lemma {:induction false} NoneLeft(s: string)
    ensures forall c :: c in Pass(s, HTML) ==> !IsHtml(c)
  {
    if s != "" {
      NoneLeft(s[1..]);
      forall c | c in Pass(s, HTML) ensures !IsHtml(c) {
        var head := if s[0] in HTML then Html(s[0]) else [s[0]];
        if c in head && s[0] in HTML { HtmlIsSafe(s[0], c); }
      }
    }
  }

  // ---- reading -------------------------------------------------------------

  datatype Parsed<+T> = Fail | Done(value: T, rest: string)

  predicate IsWs(c: char) {
    c == ' ' || c == '\t' || c == '\n' || c == '\r'
  }

  function SkipWs(s: string): (t: string)
    ensures |t| <= |s|
  {
    if s != "" && IsWs(s[0]) then SkipWs(s[1..]) else s
  }

  function HexValue(c: char): Option<nat> {
    if '0' <= c <= '9' then Some(c as int - '0' as int)
    else if 'a' <= c <= 'f' then Some(c as int - 'a' as int + 10)
    else if 'A' <= c <= 'F' then Some(c as int - 'A' as int + 10)
    else None
  }

  function ReadHex4(s: string): (h: Option<nat>)
    ensures h.Some? ==> |s| >= 4 && h.value < 0x10000
  {
    if |s| < 4 then None
    else
      var a, b, c, d := HexValue(s[0]), HexValue(s[1]), HexValue(s[2]), HexValue(s[3]);
      if a.None? || b.None? || c.None? || d.None? then None
      else Some(a.value * 0x1000 + b.value * 0x100 + c.value * 0x10 + d.value)
  }

  /** The escape after a backslash. A surrogate pair makes one character; a lone
      surrogate is no character of this model. */
  function ReadEscape(s: string): (p: Parsed<char>)
    ensures p.Done? ==> |p.rest| < |s|
  {
    if s == "" then Fail
    else
      var c, rest := s[0], s[1..];
      if c == '"' || c == '\\' || c == '/' then Done(c, rest)
      else if c == 'n' then Done('\n', rest)
      else if c == 'r' then Done('\r', rest)
      else if c == 't' then Done('\t', rest)
      else if c == 'b' then Done(8 as char, rest)
      else if c == 'f' then Done(12 as char, rest)
      else if c == 'u' then
        var h := ReadHex4(rest);
        if h.None? then Fail
        else if h.value < 0xd800 || 0xe000 <= h.value then Done(h.value as char, rest[4..])
        else if h.value < 0xdc00 && |rest| >= 6 && rest[4] == '\\' && rest[5] == 'u' then
          var l := ReadHex4(rest[6..]);
          if l.Some? && 0xdc00 <= l.value < 0xe000 then
            Done((0x10000 + (h.value - 0xd800) * 0x400 + (l.value - 0xdc00)) as char, rest[10..])
          else Fail
        else Fail
      else Fail
  }

  /** The rest of a string, after its opening quote. */
  function ReadChars(s: string): (p: Parsed<string>)
    ensures p.Done? ==> |p.rest| < |s|
    decreases |s|
  {
    if s == "" then Fail
    else if s[0] == '"' then Done("", s[1..])
    else if s[0] == '\\' then
      match ReadEscape(s[1..])
      case Fail => Fail
      case Done(c, after) => Prepend(c, ReadChars(after))
    else if s[0] as int < 0x20 then Fail
    else Prepend(s[0], ReadChars(s[1..]))
  }

  function Prepend(c: char, p: Parsed<string>): Parsed<string> {
    match p case Fail => Fail case Done(t, rest) => Done([c] + t, rest)
  }

  function TakeDigits(s: string): (d: string)
    ensures |d| <= |s| && d == s[..|d|]
    ensures s != "" && IsDigit(s[0]) ==> d != ""
    ensures forall i :: 0 <= i < |d| ==> IsDigit(d[i])
  {
    if s != "" && IsDigit(s[0]) then [s[0]] + TakeDigits(s[1..]) else ""
  }

  function DigitsValue(d: string): nat
    requires forall i :: 0 <= i < |d| ==> IsDigit(d[i])
  {
    if d == "" then 0
    else
      assert IsDigit(d[|d| - 1]);
      var last: nat := d[|d| - 1] as int - '0' as int;
      10 * DigitsValue(d[..|d| - 1]) + last
  }

  /** Zero, or digits that do not start with zero. */
  function ReadWhole(s: string): (p: Parsed<nat>)
    ensures p.Done? ==> |p.rest| < |s|
  {
    if s == "" || !IsDigit(s[0]) then Fail
    else if s[0] == '0' then Done(0, s[1..])
    else
      var d := TakeDigits(s);
      Done(DigitsValue(d), s[|d|..])
  }

  function TakeFraction(s: string): (f: Fraction)
    ensures |f| <= |s|
  {
    if |s| >= 2 && s[0] == '.' && IsDigit(s[1]) then "." + TakeDigits(s[1..]) else ""
  }

  function TakeExponent(s: string): (e: Exponent)
    ensures |e| <= |s|
  {
    if s == "" || (s[0] != 'e' && s[0] != 'E') then ""
    else
      var k := if |s| >= 2 && (s[1] == '+' || s[1] == '-') then 2 else 1;
      var d := TakeDigits(s[k..]);
      if d == "" then "" else s[..k] + d
  }

  /** An integer, unless there is a fraction or an exponent. */
  function NumberValue(neg: bool, n: nat, frac: Fraction, exp: Exponent): Json {
    if frac == "" && exp == "" then Int(if neg then -(n as int) else n) else Float(neg, n, frac, exp)
  }

  /** An optional minus, a whole number, and a fraction or an exponent if they follow. */
  function ReadNumber(s: string): (p: Parsed<Json>)
    ensures p.Done? ==> |p.rest| < |s|
  {
    var neg := s != "" && s[0] == '-';
    match ReadWhole(if neg then s[1..] else s)
    case Fail => Fail
    case Done(whole, rest) =>
      var frac := TakeFraction(rest);
      var exp := TakeExponent(rest[|frac|..]);
      Done(NumberValue(neg, whole, frac, exp), rest[|frac|..][|exp|..])
  }

  function Literal(s: string, word: string, v: Json): Parsed<Json> {
    if |word| <= |s| && s[..|word|] == word then Done(v, s[|word|..]) else Fail
  }

  function ReadValue(s: string): (p: Parsed<Json>)
    ensures p.Done? ==> |p.rest| < |s|
    decreases |s|, 0
  {
    if s == "" then Fail
    else if s[0] == '"' then
      match ReadChars(s[1..]) case Fail => Fail case Done(t, rest) => Done(Str(t), rest)
    else if s[0] == '[' then
      var t := SkipWs(s[1..]);
      if t != "" && t[0] == ']' then Done(Arr([]), t[1..])
      else match ReadItems(t, []) case Fail => Fail case Done(items, rest) => Done(Arr(items), rest)
    else if s[0] == '{' then
      var t := SkipWs(s[1..]);
      if t != "" && t[0] == '}' then Done(Obj([]), t[1..])
      else match ReadFields(t, []) case Fail => Fail case Done(fields, rest) => Done(Obj(fields), rest)
    else if s[0] == 'n' then Literal(s, "null", Null)
    else if s[0] == 't' then Literal(s, "true", Bool(true))
    else if s[0] == 'f' then Literal(s, "false", Bool(false))
    else ReadNumber(s)
  }

  function ReadItems(s: string, acc: seq<Json>): (p: Parsed<seq<Json>>)
    ensures p.Done? ==> |p.rest| < |s|
    decreases |s|, 1
  {
    match ReadValue(s)
    case Fail => Fail
    case Done(v, rest) =>
      var t := SkipWs(rest);
      if t == "" then Fail
      else if t[0] == ']' then Done(acc + [v], t[1..])
      else if t[0] == ',' then ReadItems(SkipWs(t[1..]), acc + [v])
      else Fail
  }

  /** Dictionary assignment: a repeated key keeps its place and takes the last
      value. */
  function Insert(fields: seq<Field>, key: string, value: Json): seq<Field> {
    if fields == [] then [Field(key, value)]
    else if fields[0].key == key then [Field(key, value)] + fields[1..]
    else [fields[0]] + Insert(fields[1..], key, value)
  }

  function ReadFields(s: string, acc: seq<Field>): (p: Parsed<seq<Field>>)
    ensures p.Done? ==> |p.rest| < |s|
    decreases |s|, 1
  {
    if s == "" || s[0] != '"' then Fail
    else match ReadChars(s[1..])
      case Fail => Fail
      case Done(key, rest) =>
        var t := SkipWs(rest);
        if t == "" || t[0] != ':' then Fail
        else match ReadValue(SkipWs(t[1..]))
          case Fail => Fail
          case Done(v, rest') =>
            var t' := SkipWs(rest');
            if t' == "" then Fail
            else if t'[0] == '}' then Done(Insert(acc, key, v), t'[1..])
            else if t'[0] == ',' then ReadFields(SkipWs(t'[1..]), Insert(acc, key, v))
            else Fail
  }

  function Loads(s: string): Option<Json> {
    match ReadValue(SkipWs(s))
    case Fail => None
    case Done(v, rest) => if SkipWs(rest) == "" then Some(v) else None
  }

  function LoadsBytes(bs: Bytes): Option<Json> {
    match Utf8.Decode(bs) case None => None case Some(s) => Loads(s)
  }

  // ---- reading inverts writing -------------------------------------------------

  ghost predicate WellFormed(v: Json)
    decreases v, 1
  {
    match v
    case Arr(items) => WellFormedItems(items)
    case Obj(fields) => WellFormedFields(fields)
    case Float(_, _, frac, exp) => frac != "" || exp != ""
    case _ => true
  }

  ghost predicate WellFormedItems(items: seq<Json>)
    decreases items, 0
  {
    items == [] || (WellFormed(items[0]) && WellFormedItems(items[1..]))
  }

  /** A dictionary has no key twice. */
  ghost predicate WellFormedFields(fields: seq<Field>)
    decreases fields, 0
  {
    fields == []
    || (WellFormed(fields[0].value) && NoKey(fields[1..], fields[0].key) && WellFormedFields(fields[1..]))
  }

  ghost predicate NoKey(fields: seq<Field>, key: string) {
    forall i :: 0 <= i < |fields| ==> fields[i].key != key
  }

  lemma HexDigitValue(k: nat)
    requires k < 16
    ensures HexValue(HexDigit(k)) == Some(k)
  {
  }

  lemma Nibbles(n: nat)
    ensures n == n / 0x1000 * 0x1000 + n / 0x100 % 16 * 0x100 + n / 0x10 % 16 * 0x10 + n % 16
  {
    var q := n / 0x10;
    assert n / 0x100 == q / 16;
    assert n / 0x1000 == q / 16 / 16;
  }

  lemma HexRoundTrip(n: nat, rest: string)
    requires n < 0x10000
    ensures ReadHex4(Hex4(n) + rest) == Some(n)
    ensures (Hex4(n) + rest)[4..] == rest
  {
    var a, b, c, d := n / 0x1000, n / 0x100 % 16, n / 0x10 % 16, n % 16;
    HexDigitValue(a);
    HexDigitValue(b);
    HexDigitValue(c);
    HexDigitValue(d);
    Nibbles(n);
    hide HexValue, HexDigit;
    var s := Hex4(n) + rest;
    assert s[0] == HexDigit(a) && s[1] == HexDigit(b) && s[2] == HexDigit(c) && s[3] == HexDigit(d);
  }

  function EscapeGo(c: char): string {
    if IsHtml(c) then Html(c) else Escape(c)
  }

  lemma ReadUnicode(c: char, rest: string)
    requires c as int < 0x20 || IsHtml(c)
    ensures ReadChars("\\u" + Hex4(c as int) + rest) == Prepend(c, ReadChars(rest))
  {
    var n: nat := c as int;
    HexRoundTrip(n, rest);
    hide Hex4, ReadHex4;
    var hex := Hex4(n) + rest;
    var s := "\\u" + Hex4(n) + rest;
    assert s[0] == '\\' && s[1..] == "u" + hex && ("u" + hex)[1..] == hex;
    assert ReadEscape("u" + hex) == Done(c, rest);
  }

  lemma ReadShort(c: char, letter: char, rest: string)
    requires ReadEscape([letter] + rest) == Done(c, rest)
    ensures ReadChars("\\" + [letter] + rest) == Prepend(c, ReadChars(rest))
  {
    hide ReadEscape;
    var s := "\\" + [letter] + rest;
    assert s[0] == '\\' && s[1..] == [letter] + rest;
  }

  lemma ShortEscape(letter: char, rest: string)
    requires letter != 'u'
    ensures ReadEscape([letter] + rest) ==
            if letter == '"' || letter == '\\' || letter == '/' then Done(letter, rest)
            else if letter == 'n' then Done('\n', rest)
            else if letter == 'r' then Done('\r', rest)
            else if letter == 't' then Done('\t', rest)
            else if letter == 'b' then Done(8 as char, rest)
            else if letter == 'f' then Done(12 as char, rest)
            else Fail
  {
  }

  lemma ReadRaw(c: char, rest: string)
    requires c != '"' && c != '\\' && c as int >= 0x20
    ensures ReadChars([c] + rest) == Prepend(c, ReadChars(rest))
  {
  }

  /** One escaped character reads back as itself. */
  lemma ReadEscaped(c: char, rest: string)
    ensures ReadChars(EscapeGo(c) + rest) == Prepend(c, ReadChars(rest))
  {
    hide ReadChars, ReadEscape, Hex4;
    var short :=
      if c == '"' || c == '\\' then Some(c)
      else if c == '\n' then Some('n')
      else if c == '\r' then Some('r')
      else if c == '\t' then Some('t')
      else if c as int == 8 then Some('b')
      else if c as int == 12 then Some('f')
      else None;
    if short.Some? {
      assert EscapeGo(c) == "\\" + [short.value];
      ShortEscape(short.value, rest);
      ReadShort(c, short.value, rest);
    } else if IsHtml(c) || c as int < 0x20 {
      assert EscapeGo(c) == "\\u" + Hex4(c as int);
      ReadUnicode(c, rest);
    } else {
      ReadRaw(c, rest);
    }
  }

  lemma {:induction false} ReadEscapedAll(s: string, rest: string)
    ensures ReadChars(Escaped(s, true) + "\"" + rest) == Done(s, rest)
  {
    if s == "" {
      assert "" + "\"" + rest == "\"" + rest && ("\"" + rest)[1..] == rest;
    } else {
      var tail := Escaped(s[1..], true) + "\"" + rest;
      assert Escaped(s, true) + "\"" + rest == EscapeGo(s[0]) + tail;
      ReadEscaped(s[0], tail);
      ReadEscapedAll(s[1..], rest);
      assert [s[0]] + s[1..] == s;
    }
  }

  lemma ReadQuoted(s: string, rest: string)
    ensures var t := Quoted(s, true) + rest;
            t != "" && t[0] == '"' && ReadChars(t[1..]) == Done(s, rest)
  {
    var t := Quoted(s, true) + rest;
    assert t[1..] == Escaped(s, true) + "\"" + rest;
    ReadEscapedAll(s, rest);
  }

  lemma {:induction false} DecimalValue(n: nat)
    ensures forall i :: 0 <= i < |DecimalNat(n)| ==> IsDigit(DecimalNat(n)[i])
    ensures DecimalNat(n) != "" && DigitsValue(DecimalNat(n)) == n
    ensures DecimalNat(n)[0] == '0' <==> n == 0
  {
    if n >= 10 {
      DecimalValue(n / 10);
      assert DecimalNat(n)[..|DecimalNat(n)| - 1] == DecimalNat(n / 10);
    } else {
      assert DecimalNat(n)[..0] == "";
    }
  }

  /** What may follow a number: nothing that would lengthen it. */
  predicate Stops(rest: string) {
    rest == "" || (!IsDigit(rest[0]) && rest[0] != '.' && rest[0] != 'e' && rest[0] != 'E')
  }

  lemma {:induction false} TakeAll(d: string, rest: string)
    requires (rest == "" || !IsDigit(rest[0])) && AllDigits(d)
    ensures TakeDigits(d + rest) == d
  {
    if d == "" {
      assert "" + rest == rest;
    } else {
      assert (d + rest)[1..] == d[1..] + rest;
      TakeAll(d[1..], rest);
      assert [d[0]] + d[1..] == d;
    }
  }

  lemma DecimalZero()
    ensures DecimalNat(0) == "0"
  {
  }

  lemma WholeRead(n: nat, rest: string)
    requires rest == "" || !IsDigit(rest[0])
    ensures ReadWhole(DecimalNat(n) + rest) == Done(n, rest)
    ensures var t := DecimalNat(n) + rest; t != "" && IsDigit(t[0])
  {
    hide DecimalNat, DigitsValue, TakeDigits;
    var d := DecimalNat(n);
    DecimalValue(n);
    DecimalZero();
    TakeAll(d, rest);
    var digits := d + rest;
    assert digits[|d|..] == rest && digits[0] == d[0];
  }

  lemma NothingTaken(rest: string)
    requires Stops(rest)
    ensures TakeFraction(rest) == "" && TakeExponent(rest) == ""
  {
  }

  /** A number is read as its sign and its parts say. */
  lemma SignedNumber(neg: bool, u: string, n: nat, frac: Fraction, exp: Exponent, tail: string, rest: string)
    requires u != "" && IsDigit(u[0]) && ReadWhole(u) == Done(n, tail)
    requires TakeFraction(tail) == frac && TakeExponent(tail[|frac|..]) == exp && tail[|frac|..][|exp|..] == rest
    ensures ReadNumber((if neg then "-" else "") + u) == Done(NumberValue(neg, n, frac, exp), rest)
    ensures var s := (if neg then "-" else "") + u; s != "" && (s[0] == '-' || IsDigit(s[0]))
  {
    hide ReadWhole, TakeFraction, TakeExponent, IsFraction, IsExponent, NumberValue;
    var s := (if neg then "-" else "") + u;
    assert neg ==> s[0] == '-' && s[1..] == u;
    assert !neg ==> s == u && u[0] != '-';
  }

  lemma SignFirst(n: int, m: nat, rest: string)
    requires m == if n < 0 then -n else n
    ensures Decimal(n) + rest == (if n < 0 then "-" else "") + (DecimalNat(m) + rest)
  {
    hide DecimalNat;
  }

  lemma NothingCut(rest: string)
    requires Stops(rest)
    ensures TakeFraction(rest) == "" && TakeExponent(rest[|""|..]) == "" && rest[|""|..][|""|..] == rest
  {
    NothingTaken(rest);
    hide TakeFraction, TakeExponent;
    assert rest[0..] == rest;
  }

  lemma ReadDecimal(n: int, rest: string)
    requires Stops(rest)
    ensures ReadNumber(Decimal(n) + rest) == Done(Int(n), rest)
    ensures var t := Decimal(n) + rest; t != "" && (t[0] == '-' || IsDigit(t[0]))
  {
    var m: nat := if n < 0 then -n else n;
    var u := DecimalNat(m) + rest;
    WholeRead(m, rest);
    NothingCut(rest);
    SignFirst(n, m, rest);
    hide DecimalNat, Decimal, ReadWhole, TakeFraction, TakeExponent, ReadNumber, IsDigit, Stops;
    SignedNumber(n < 0, u, m, "", "", rest, rest);
  }

  lemma FractionTaken(frac: Fraction, rest: string)
    requires rest == "" || (!IsDigit(rest[0]) && rest[0] != '.')
    ensures TakeFraction(frac + rest) == frac && (frac + rest)[|frac|..] == rest
  {
    if frac == "" {
      assert "" + rest == rest;
    } else {
      assert (frac + rest)[1..] == frac[1..] + rest;
      TakeAll(frac[1..], rest);
      assert "." + frac[1..] == frac;
    }
  }

  lemma CutInside(a: string, b: string, k: nat)
    requires k <= |a|
    ensures (a + b)[k..] == a[k..] + b && (a + b)[..k] == a[..k] && (a + b)[|a|..] == b
  {
  }

  lemma SomeExponentTaken(exp: Exponent, rest: string, k: nat)
    requires exp != "" && k == (if exp[1] == '+' || exp[1] == '-' then 2 else 1)
    requires rest == "" || !IsDigit(rest[0])
    ensures TakeExponent(exp + rest) == exp
  {
    hide TakeDigits;
    CutInside(exp, rest, k);
    TakeAll(exp[k..], rest);
    assert exp[..k] + exp[k..] == exp;
  }

  lemma ExponentTaken(exp: Exponent, rest: string)
    requires Stops(rest)
    ensures TakeExponent(exp + rest) == exp && (exp + rest)[|exp|..] == rest
  {
    if exp == "" {
      assert "" + rest == rest;
    } else {
      hide TakeExponent, IsExponent;
      SomeExponentTaken(exp, rest, if exp[1] == '+' || exp[1] == '-' then 2 else 1);
    }
  }

  lemma TailStops(frac: Fraction, exp: Exponent, rest: string)
    requires Stops(rest)
    ensures var end := exp + rest; end == "" || (!IsDigit(end[0]) && end[0] != '.')
    ensures var tail := frac + (exp + rest); tail == "" || !IsDigit(tail[0])
  {
  }

  lemma ReadFloat(neg: bool, whole: nat, frac: Fraction, exp: Exponent, rest: string)
    requires (frac != "" || exp != "") && Stops(rest)
    ensures var t := FloatText(neg, whole, frac, exp) + rest;
            && ReadNumber(t) == Done(Float(neg, whole, frac, exp), rest)
            && t != "" && (t[0] == '-' || IsDigit(t[0]))
  {
    hide DecimalNat, ReadWhole, TakeFraction, TakeExponent, IsFraction, IsExponent, Stops, ReadNumber, IsDigit;
    var end := exp + rest;
    var tail := frac + end;
    var digits := DecimalNat(whole) + tail;
    TailStops(frac, exp, rest);
    FractionTaken(frac, end);
    ExponentTaken(exp, rest);
    WholeRead(whole, tail);
    SignedNumber(neg, digits, whole, frac, exp, tail, rest);
    assert FloatText(neg, whole, frac, exp) + rest == (if neg then "-" else "") + digits by {
      Reassociate(if neg then "-" else "", DecimalNat(whole), frac, exp, rest);
    }
  }

  lemma Reassociate(a: string, b: string, c: string, d: string, e: string)
    ensures a + (b + (c + d)) + e == a + (b + (c + (d + e)))
  {
  }

  lemma {:induction false} InsertNew(fields: seq<Field>, key: string, value: Json)
    requires NoKey(fields, key)
    ensures Insert(fields, key, value) == fields + [Field(key, value)]
  {
    if fields != [] { InsertNew(fields[1..], key, value); }
  }

  predicate StartsValue(s: string) {
    s != "" && !IsWs(s[0]) && s[0] != ']' && s[0] != '}'
  }

  lemma ReadArr(body: string, items: seq<Json>, rest: string)
    requires StartsValue(body) && ReadItems(body, []) == Done(items, rest)
    ensures ReadValue("[" + body) == Done(Arr(items), rest)
  {
    hide ReadItems;
    assert ("[" + body)[1..] == body;
  }

  lemma ReadObj(body: string, fields: seq<Field>, rest: string)
    requires StartsValue(body) && ReadFields(body, []) == Done(fields, rest)
    ensures ReadValue("{" + body) == Done(Obj(fields), rest)
  {
    hide ReadFields;
    assert ("{" + body)[1..] == body;
  }

  lemma ReadEmpty(rest: string)
    ensures ReadValue("[]" + rest) == Done(Arr([]), rest)
    ensures ReadValue("{}" + rest) == Done(Obj([]), rest)
  {
    hide ReadItems, ReadFields;
    assert ("[]" + rest)[1..] == "]" + rest && ("]" + rest)[1..] == rest;
    assert ("{}" + rest)[1..] == "}" + rest && ("}" + rest)[1..] == rest;
  }

  lemma ReadWord(word: string, v: Json, rest: string)
    requires (word == "null" && v == Null) || (word == "true" && v == Bool(true))
          || (word == "false" && v == Bool(false))
    ensures ReadValue(word + rest) == Done(v, rest) && StartsValue(word + rest)
  {
    hide ReadItems, ReadFields, ReadChars, ReadNumber;
    assert (word + rest)[..|word|] == word && (word + rest)[|word|..] == rest;
    assert (word + rest)[0] == word[0];
  }

  lemma NumberRead(s: string, v: Json, rest: string)
    requires s != "" && (s[0] == '-' || IsDigit(s[0])) && ReadNumber(s) == Done(v, rest)
    ensures ReadValue(s) == Done(v, rest) && StartsValue(s)
  {
    hide ReadItems, ReadFields, ReadChars, ReadNumber, Literal;
  }

  lemma ReadStr(t: string, rest: string)
    ensures ReadValue(Quoted(t, true) + rest) == Done(Str(t), rest)
    ensures StartsValue(Quoted(t, true) + rest)
  {
    ReadQuoted(t, rest);
    hide ReadItems, ReadFields, ReadChars, ReadNumber, Quoted;
  }

  lemma ReadAtom(v: Json, rest: string)
    requires WellFormed(v) && !v.Arr? && !v.Obj? && Stops(rest)
    ensures StartsValue(Dump(v, true) + rest) && ReadValue(Dump(v, true) + rest) == Done(v, rest)
  {
    hide ReadValue, StartsValue, Quoted, Decimal, FloatText, ReadNumber, IsFraction, IsExponent, Stops;
    match v
    case Null => ReadWord("null", Null, rest);
    case Bool(b) => ReadWord(if b then "true" else "false", v, rest);
    case Int(n) =>
      ReadDecimal(n, rest);
      NumberRead(Decimal(n) + rest, v, rest);
    case Float(neg, whole, frac, exp) =>
      ReadFloat(neg, whole, frac, exp, rest);
      NumberRead(FloatText(neg, whole, frac, exp) + rest, v, rest);
    case Str(t) => ReadStr(t, rest);
  }

  lemma ReadDumpArr(items: seq<Json>, rest: string)
    requires items != [] ==>
               StartsValue(DumpItems(items, true) + "]" + rest)
               && ReadItems(DumpItems(items, true) + "]" + rest, []) == Done(items, rest)
    ensures StartsValue(Dump(Arr(items), true) + rest)
    ensures ReadValue(Dump(Arr(items), true) + rest) == Done(Arr(items), rest)
  {
    hide ReadValue, ReadItems, DumpItems;
    assert Dump(Arr(items), true) + rest == "[" + (DumpItems(items, true) + "]" + rest);
    if items == [] {
      EmptyDumps();
      ReadEmpty(rest);
      assert "[" + ("" + "]" + rest) == "[]" + rest;
    } else {
      ReadArr(DumpItems(items, true) + "]" + rest, items, rest);
    }
  }

  lemma ReadDumpObj(fields: seq<Field>, rest: string)
    requires fields != [] ==>
               StartsValue(DumpFields(fields, true) + "}" + rest)
               && ReadFields(DumpFields(fields, true) + "}" + rest, []) == Done(fields, rest)
    ensures StartsValue(Dump(Obj(fields), true) + rest)
    ensures ReadValue(Dump(Obj(fields), true) + rest) == Done(Obj(fields), rest)
  {
    hide ReadValue, ReadFields, DumpFields;
    assert Dump(Obj(fields), true) + rest == "{" + (DumpFields(fields, true) + "}" + rest);
    if fields == [] {
      EmptyDumps();
      ReadEmpty(rest);
      assert "{" + ("" + "}" + rest) == "{}" + rest;
    } else {
      ReadObj(DumpFields(fields, true) + "}" + rest, fields, rest);
    }
  }

  lemma {:induction false} ReadDump(v: Json, rest: string)
    requires WellFormed(v) && Stops(rest)
    ensures StartsValue(Dump(v, true) + rest)
    ensures ReadValue(Dump(v, true) + rest) == Done(v, rest)
    decreases v, 1
  {
    hide ReadValue, ReadItems, ReadFields, Dump, DumpItems, DumpFields, StartsValue, Stops;
    match v
    case Arr(items) =>
      if items != [] {
        ReadDumpItems(items, [], rest);
        assert [] + items == items;
      }
      ReadDumpArr(items, rest);
    case Obj(fields) =>
      if fields != [] {
        ReadDumpFields(fields, [], rest);
        assert [] + fields == fields;
      }
      ReadDumpObj(fields, rest);
    case _ => ReadAtom(v, rest);
  }

  lemma EmptyDumps()
    ensures DumpItems([], true) == "" && DumpFields([], true) == ""
  {
  }

  lemma ItemsLast(s: string, v: Json, rest: string, acc: seq<Json>)
    requires ReadValue(s) == Done(v, "]" + rest)
    ensures ReadItems(s, acc) == Done(acc + [v], rest)
  {
  }

  lemma ItemsMore(s: string, v: Json, tail: string, acc: seq<Json>)
    requires ReadValue(s) == Done(v, "," + tail) && StartsValue(tail)
    ensures ReadItems(s, acc) == ReadItems(tail, acc + [v])
  {
  }

  lemma Regroup(a: string, b: string, c: string, d: string, e: string, f: string)
    ensures a + b + c == a + (b + c)
    ensures a + b + c + d == a + (b + (c + d))
    ensures a + b + c + d + e == a + (b + (c + (d + e)))
    ensures a + b + c + d + e + f == a + (b + (c + (d + (e + f))))
  {
  }

  lemma DumpItemsStep(items: seq<Json>)
    requires items != []
    ensures DumpItems(items, true)
         == if |items| == 1 then Dump(items[0], true) else Dump(items[0], true) + "," + DumpItems(items[1..], true)
  {
  }

  lemma DumpItemsCons(items: seq<Json>, rest: string)
    requires items != []
    ensures DumpItems(items, true) + "]" + rest
         == Dump(items[0], true)
            + if |items| == 1 then "]" + rest else "," + (DumpItems(items[1..], true) + "]" + rest)
  {
    hide Dump, DumpItems;
    DumpItemsStep(items);
    var d, t := Dump(items[0], true), DumpItems(items[1..], true);
    Regroup(d, "]", rest, "", "", "");
    Regroup(d, ",", t, "]", rest, "");
    Regroup(t, "]", rest, "", "", "");
  }

  lemma {:induction false} ReadDumpItems(items: seq<Json>, acc: seq<Json>, rest: string)
    requires items != [] && WellFormedItems(items)
    ensures StartsValue(DumpItems(items, true) + "]" + rest)
    ensures ReadItems(DumpItems(items, true) + "]" + rest, acc) == Done(acc + items, rest)
    decreases items, 0
  {
    hide ReadValue, ReadItems, Dump, DumpItems, StartsValue;
    var v, d := items[0], Dump(items[0], true);
    var s := DumpItems(items, true) + "]" + rest;
    DumpItemsCons(items, rest);
    if |items| == 1 {
      ReadDump(v, "]" + rest);
      ItemsLast(s, v, rest, acc);
      assert [v] == items;
    } else {
      var tail := DumpItems(items[1..], true) + "]" + rest;
      ReadDump(v, "," + tail);
      ReadDumpItems(items[1..], acc + [v], rest);
      ItemsMore(s, v, tail, acc);
      assert acc + [v] + items[1..] == acc + items;
    }
  }

  /** A field is read up to its value, and what follows decides what comes next. */
  lemma FieldRead(f: Field, after: string, acc: seq<Field>)
    requires NoKey(acc, f.key) && StartsValue(Dump(f.value, true) + after)
    requires ReadValue(Dump(f.value, true) + after) == Done(f.value, after)
    ensures var s := Quoted(f.key, true) + (":" + (Dump(f.value, true) + after));
            && StartsValue(s)
            && ReadFields(s, acc) ==
               (var t := SkipWs(after);
                if t == "" then Fail
                else if t[0] == '}' then Done(acc + [f], t[1..])
                else if t[0] == ',' then ReadFields(SkipWs(t[1..]), acc + [f])
                else Fail)
  {
    InsertNew(acc, f.key, f.value);
    var value := Dump(f.value, true) + after;
    ReadQuoted(f.key, ":" + value);
    hide ReadValue, ReadChars, Dump, Quoted, Insert;
    assert SkipWs(":" + value) == ":" + value && (":" + value)[1..] == value;
    assert SkipWs(value) == value;
  }

  lemma DumpFieldsStep(fields: seq<Field>)
    requires fields != []
    ensures DumpFields(fields, true)
         == (var q, d := Quoted(fields[0].key, true), Dump(fields[0].value, true);
             if |fields| == 1 then q + ":" + d else q + ":" + d + "," + DumpFields(fields[1..], true))
  {
  }

  lemma DumpFieldsCons(fields: seq<Field>, rest: string)
    requires fields != []
    ensures DumpFields(fields, true) + "}" + rest
         == Quoted(fields[0].key, true)
            + (":" + (Dump(fields[0].value, true)
                      + if |fields| == 1 then "}" + rest else "," + (DumpFields(fields[1..], true) + "}" + rest)))
  {
    hide Dump, DumpFields, Quoted;
    DumpFieldsStep(fields);
    var q, d, t := Quoted(fields[0].key, true), Dump(fields[0].value, true), DumpFields(fields[1..], true);
    Regroup(q, ":", d, "}", rest, "");
    Regroup(q, ":", d, ",", t, "}" + rest);
    Regroup(q + ":" + d + "," + t, "}", rest, "", "", "");
    Regroup(t, "}", rest, "", "", "");
  }

  lemma {:induction false} ReadDumpFields(fields: seq<Field>, acc: seq<Field>, rest: string)
    requires fields != [] && WellFormedFields(fields)
    requires forall i :: 0 <= i < |fields| ==> NoKey(acc, fields[i].key)
    ensures StartsValue(DumpFields(fields, true) + "}" + rest)
    ensures ReadFields(DumpFields(fields, true) + "}" + rest, acc) == Done(acc + fields, rest)
    decreases fields, 0
  {
    hide ReadValue, ReadFields, Dump, DumpFields, StartsValue, Quoted, SkipWs;
    var f := fields[0];
    DumpFieldsCons(fields, rest);
    if |fields| == 1 {
      ReadDump(f.value, "}" + rest);
      FieldRead(f, "}" + rest, acc);
      BraceBefore(rest);
      assert [f] == fields;
    } else {
      var tail, acc' := DumpFields(fields[1..], true) + "}" + rest, acc + [f];
      ReadDump(f.value, "," + tail);
      FieldRead(f, "," + tail, acc);
      forall i | 0 <= i < |fields[1..]| ensures NoKey(acc', fields[1..][i].key) {
        assert NoKey(acc, fields[i + 1].key);
      }
      ReadDumpFields(fields[1..], acc', rest);
      CommaBefore(tail);
      assert acc' + fields[1..] == acc + fields;
    }
  }

  lemma CommaBefore(tail: string)
    requires StartsValue(tail)
    ensures SkipWs("," + tail) == "," + tail && SkipWs(("," + tail)[1..]) == tail
  {
  }

  lemma BraceBefore(rest: string)
    ensures SkipWs("}" + rest) == "}" + rest && ("}" + rest)[1..] == rest
  {
  }

  lemma SkipToValue(s: string)
    requires StartsValue(s)
    ensures SkipWs(s) == s
  {
  }

  /** Serializing and parsing gives every JSON value back, through UTF-8. */
  lemma GoJsonRoundTrip(v: Json)
    requires WellFormed(v)
    ensures LoadsBytes(GoJson(v)) == Some(v)
  {
    hide ReadValue, GoText, Dump, WellFormed;
    OnePassEscaping(v);
    Utf8.RoundTrip(GoText(v));
    ReadDump(v, "");
    assert Dump(v, true) + "" == Dump(v, true);
    SkipToValue(Dump(v, true));
  }

  // ---- the text is as short as JSON allows ---------------------------------------------

  lemma OnePrepended(x: char, p: Parsed<string>, c: char, rest: string)
    requires Prepend(x, p) == Done([c], rest)
    ensures x == c && p == Done("", rest)
  {
    assert ([x] + p.value)[0] == x && ([x] + p.value)[1..] == p.value;
    assert [c][1..] == "";
  }

  lemma FirstStep(s: string, c: char)
    requires ReadChars(s) == Done([c], "")
    ensures s != "" && s[0] != '"'
    ensures s[0] == '\\' ==> ReadEscape(s[1..]).Done? && ReadEscape(s[1..]).value == c
                              && ReadChars(ReadEscape(s[1..]).rest) == Done("", "")
    ensures s[0] != '\\' ==> s[0] == c && c as int >= 0x20
  {
    hide ReadEscape, Prepend;
    if s[0] == '\\' {
      OnePrepended(ReadEscape(s[1..]).value, ReadChars(ReadEscape(s[1..]).rest), c, "");
    } else {
      OnePrepended(s[0], ReadChars(s[1..]), c, "");
    }
  }

  /** Four hexadecimal digits do not fit before the closing quote. */
  lemma TooFewDigits(u: string)
    requires 1 <= |u| <= 4 && u[0] == 'u'
    ensures ReadEscape(u + "\"").Fail?
  {
    var rest := (u + "\"")[1..];
    assert |rest| == |u| && rest[|u| - 1] == '"' && HexValue('"').None?;
  }

  lemma ShortOnly(u: string)
    requires 1 <= |u| <= 4 && ReadEscape(u + "\"").Done?
    ensures |Escape(ReadEscape(u + "\"").value)| <= 2
  {
    var rest := (u + "\"")[1..];
    if u[0] == 'u' { TooFewDigits(u); }
    assert u + "\"" == [u[0]] + rest;
    hide ReadEscape, Hex4;
    if u[0] != 'u' { ShortEscape(u[0], rest); }
  }

  lemma EscapeLength(c: char)
    ensures |Escape(c)| <= 6
    ensures c as int >= 0x20 && c != '"' && c != '\\' ==> |Escape(c)| == 1
  {
  }

  /** A backslash alone would escape the closing quote. */
  lemma LoneBackslash(s: string, c: char)
    requires s == "\\" + "\""
    ensures ReadChars(s) != Done([c], "")
  {
    assert s[1..] == "\"" && ("\"")[1..] == "";
    assert ReadEscape("\"") == Done('"', "");
    assert ReadChars("") == Fail;
  }

  /** Between quotes, t stands for the character c. */
  ghost predicate Denotes(t: string, c: char) {
    ReadChars(t + "\"") == Done([c], "")
  }

  lemma DenotesFirst(t: string, c: char)
    requires Denotes(t, c)
    ensures t != "" && t[0] != '"'
    ensures t[0] == '\\' ==> t[1..] != "" && ReadEscape(t[1..] + "\"").Done?
                              && ReadEscape(t[1..] + "\"").value == c
    ensures t[0] != '\\' ==> t[0] == c && c as int >= 0x20
  {
    hide ReadChars, ReadEscape;
    var s := t + "\"";
    FirstStep(s, c);
    if t != "" {
      assert s[0] == t[0] && s[1..] == t[1..] + "\"";
      if t[0] == '\\' && t[1..] == "" { LoneBackslash(s, c); }
    }
  }

  /** No way of writing a character inside a JSON string is shorter than the escape the
      serializer writes, but for the five characters it escapes besides. */
  lemma ShortestEscape(c: char, t: string)
    requires Denotes(t, c)
    ensures |Escape(c)| <= |t|
  {
    hide Denotes, Escape, ReadEscape;
    DenotesFirst(t, c);
    EscapeLength(c);
    if t[0] == '\\' && |t| <= 5 { ShortOnly(t[1..]); }
  }

  /** No string and no key of the value holds a space. */
  ghost predicate Spaceless(v: Json)
    decreases v, 1
  {
    match v
    case Str(s) => ' ' !in s
    case Arr(items) => SpacelessItems(items)
    case Obj(fields) => SpacelessFields(fields)
    case _ => true
  }

  ghost predicate SpacelessItems(items: seq<Json>)
    decreases items, 0
  {
    items == [] || (Spaceless(items[0]) && SpacelessItems(items[1..]))
  }

  ghost predicate SpacelessFields(fields: seq<Field>)
    decreases fields, 0
  {
    fields == [] || (' ' !in fields[0].key && Spaceless(fields[0].value) && SpacelessFields(fields[1..]))
  }

  ghost predicate Solid(s: string) {
    forall i :: 0 <= i < |s| ==> !IsWs(s[i])
  }

  lemma {:induction false} EscapedSolid(s: string)
    requires ' ' !in s
    ensures Solid(Escaped(s, true))
  {
    if s != "" {
      EscapedSolid(s[1..]);
      assert Solid(EscapeGo(s[0])) by { EscapeSolid(s[0]); }
    }
  }

  lemma EscapeSolid(c: char)
    requires c != ' '
    ensures Solid(EscapeGo(c))
  {
  }

  lemma FloatSolid(neg: bool, whole: nat, frac: Fraction, exp: Exponent)
    ensures Solid(FloatText(neg, whole, frac, exp))
  {
    DigitsSolid(whole);
    PartsSolid(frac, exp);
    SignSolid();
    hide DecimalNat, IsFraction, IsExponent, Solid;
    SolidConcat(frac, exp);
    SolidConcat(DecimalNat(whole), frac + exp);
    SolidConcat(if neg then "-" else "", DecimalNat(whole) + (frac + exp));
  }

  lemma SignSolid()
    ensures Solid("-") && Solid("")
  {
  }

  lemma SolidConcat(a: string, b: string)
    requires Solid(a) && Solid(b)
    ensures Solid(a + b)
  {
    hide IsWs;
  }

  lemma DigitsSolid(n: nat)
    ensures Solid(DecimalNat(n))
  {
    DecimalDigits(n);
    hide DecimalNat;
  }

  lemma PartsSolid(frac: Fraction, exp: Exponent)
    ensures Solid(frac) && Solid(exp)
  {
  }

  /** Spaces and line breaks in the text come from the strings alone: the serializer
      writes none between values, and no line break at all. */
  lemma {:induction false} Compact(v: Json)
    requires Spaceless(v)
    ensures Solid(Dump(v, true))
    decreases v, 1
  {
    hide Escaped, FloatText, DumpItems, DumpFields;
    match v
    case Int(n) =>
      DecimalDigits(if n < 0 then -n else n);
    case Float(neg, whole, frac, exp) => FloatSolid(neg, whole, frac, exp);
    case Str(s) => EscapedSolid(s);
    case Arr(items) => CompactItems(items);
    case Obj(fields) => CompactFields(fields);
    case Null =>
    case Bool(_) =>
  }

  lemma {:induction false} CompactItems(items: seq<Json>)
    requires SpacelessItems(items)
    ensures Solid(DumpItems(items, true))
    decreases items, 0
  {
    hide Dump;
    if items != [] {
      Compact(items[0]);
      CompactItems(items[1..]);
    }
  }

  lemma {:induction false} CompactFields(fields: seq<Field>)
    requires SpacelessFields(fields)
    ensures Solid(DumpFields(fields, true))
    decreases fields, 0
  {
    hide Dump, Escaped;
    if fields != [] {
      EscapedSolid(fields[0].key);
      Compact(fields[0].value);
      CompactFields(fields[1..]);
    }
  }

  /** The serialized text of a value without spaces in its strings has none. */
  lemma NoSpaceAdded(v: Json)
    requires Spaceless(v)
    ensures forall c :: c in GoText(v) ==> !IsWs(c)
  {
    hide Dump, GoText;
    OnePassEscaping(v);
    Compact(v);
  }
}
