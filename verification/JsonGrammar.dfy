/** Which texts the parser accepts, and as what: the grammar of RFC 8259, sections 2 to 7,
    and dictionaries that keep the last value of a repeated key. */
module JsonGrammar {
  import opened Errors
  import opened Json

  /** One character of a string, as it is written. */
  datatype Piece = Piece(text: string, c: char)

  /** A text with everything it was written with: white space, signs and escapes. */
  datatype Syntax =
    | Word(v: Json)
    | Number(neg: bool, digits: string, frac: Fraction, exp: Exponent)
    | Text(pieces: seq<Piece>)
    | List(gap: string, items: seq<Item>)
    | Dict(gap: string, members: seq<Member>)

  datatype Item = Item(before: string, value: Syntax, after: string)

  datatype Member = Member(before: string, key: seq<Piece>, mid: string, gap: string, value: Syntax, after: string)

  // ---- the grammar ------------------------------------------------------------------

  ghost predicate Blank(w: string) {
    forall i :: 0 <= i < |w| ==> IsWs(w[i])
  }

  /** A character as itself, by a short escape, by its number, or by two numbers. */
  ghost predicate IsPiece(p: Piece) {
    var t, c, n := p.text, p.c, p.c as int;
    || (t == [c] && n >= 0x20 && c != '"' && c != '\\')
    || (|t| == 2 && t[0] == '\\' && t[1] == c && (c == '"' || c == '\\' || c == '/'))
    || (|t| == 2 && t[0] == '\\'
        && ((t[1] == 'b' && n == 8) || (t[1] == 'f' && n == 12) || (t[1] == 'n' && n == 10)
            || (t[1] == 'r' && n == 13) || (t[1] == 't' && n == 9)))
    || (|t| == 6 && t[0] == '\\' && t[1] == 'u' && ReadHex4(t[2..]) == Some(n))
    || (|t| == 12 && t[0] == '\\' && t[1] == 'u' && t[6] == '\\' && t[7] == 'u'
        && ReadHex4(t[2..6]).Some? && ReadHex4(t[8..]).Some?
        && var hi, lo := ReadHex4(t[2..6]).value, ReadHex4(t[8..]).value;
           0xd800 <= hi < 0xdc00 <= lo < 0xe000 && n == 0x10000 + (hi - 0xd800) * 0x400 + (lo - 0xdc00))
  }

  ghost predicate ArePieces(ps: seq<Piece>) {
    forall i :: 0 <= i < |ps| ==> IsPiece(ps[i])
  }

  /** Zero, or digits that do not start with zero. */
  ghost predicate IsWhole(d: string) {
    d == "0" || (d != "" && AllDigits(d) && d[0] != '0')
  }

  ghost predicate Valid(t: Syntax)
    decreases t, 1
  {
    match t
    case Word(v) => v == Null || v == Bool(true) || v == Bool(false)
    case Number(_, digits, _, _) => IsWhole(digits)
    case Text(ps) => ArePieces(ps)
    case List(gap, items) => Blank(gap) && ValidItems(items)
    case Dict(gap, members) => Blank(gap) && ValidMembers(members)
  }

  ghost predicate ValidItems(items: seq<Item>)
    decreases items, 0
  {
    items == []
    || (Blank(items[0].before) && Valid(items[0].value) && Blank(items[0].after) && ValidItems(items[1..]))
  }

  ghost predicate ValidMembers(ms: seq<Member>)
    decreases ms, 0
  {
    ms == []
    || (Blank(ms[0].before) && ArePieces(ms[0].key) && Blank(ms[0].mid) && Blank(ms[0].gap) && Valid(ms[0].value)
        && Blank(ms[0].after) && ValidMembers(ms[1..]))
  }

  function Spell(ps: seq<Piece>): string {
    if ps == [] then "" else ps[0].text + Spell(ps[1..])
  }

  function Written(t: Syntax): string
    decreases t, 1
  {
    match t
    case Word(v) => if v == Null then "null" else if v == Bool(true) then "true" else "false"
    case Number(neg, digits, frac, exp) => (if neg then "-" else "") + (digits + (frac + exp))
    case Text(ps) => "\"" + (Spell(ps) + "\"")
    case List(gap, items) => "[" + ((if items == [] then gap else WrittenItems(items)) + "]")
    case Dict(gap, members) => "{" + ((if members == [] then gap else WrittenMembers(members)) + "}")
  }

  function WrittenItems(items: seq<Item>): string
    decreases items, 0
  {
    if items == [] then ""
    else items[0].before + ItemText(items[0], if |items| == 1 then "" else "," + WrittenItems(items[1..]))
  }

  /** An item from its value on, and what follows it. */
  function ItemText(i: Item, next: string): string
    decreases i, 0
  {
    Written(i.value) + (i.after + next)
  }

  function WrittenMembers(ms: seq<Member>): string
    decreases ms, 0
  {
    if ms == [] then ""
    else ms[0].before + MemberText(ms[0], if |ms| == 1 then "" else "," + WrittenMembers(ms[1..]))
  }

  /** A member from its key on, and what follows it. */
  function MemberText(m: Member, next: string): string
    decreases m, 0
  {
    "\"" + (Spell(m.key) + ("\"" + (m.mid + (":" + (m.gap + (Written(m.value) + (m.after + next)))))))
  }

  function Chars(ps: seq<Piece>): string {
    if ps == [] then "" else [ps[0].c] + Chars(ps[1..])
  }

  function Meaning(t: Syntax): Json
    requires Valid(t)
    decreases t, 1
  {
    match t
    case Word(v) => v
    case Number(neg, digits, frac, exp) =>
      NumberValue(neg, DigitsValue(digits), frac, exp)
    case Text(ps) => Str(Chars(ps))
    case List(_, items) => Arr(Meanings(items))
    case Dict(_, members) => Obj(Assigned([], members))
  }

  function Meanings(items: seq<Item>): seq<Json>
    requires ValidItems(items)
    decreases items, 0
  {
    if items == [] then [] else [Meaning(items[0].value)] + Meanings(items[1..])
  }

  /** The dictionary after the members are assigned in order. */
  function Assigned(acc: seq<Field>, ms: seq<Member>): seq<Field>
    requires ValidMembers(ms)
    decreases ms, 0
  {
    if ms == [] then acc else Assigned(Insert(acc, Chars(ms[0].key), Meaning(ms[0].value)), ms[1..])
  }

  function Find(fields: seq<Field>, key: string): Option<Json> {
    if fields == [] then None
    else if fields[0].key == key then Some(fields[0].value)
    else Find(fields[1..], key)
  }

  /** An assignment binds its key, whatever it was bound to, and no other. */
  lemma {:induction false} LastWins(fields: seq<Field>, key: string, value: Json, k: string)
    ensures Find(Insert(fields, key, value), k) == if k == key then Some(value) else Find(fields, k)
    ensures |Insert(fields, key, value)| == |fields| + (if Find(fields, key).Some? then 0 else 1)
  {
    if fields != [] {
      LastWins(fields[1..], key, value, k);
      if fields[0].key == key { assert ([Field(key, value)] + fields[1..])[1..] == fields[1..]; }
    }
  }

  // ---- white space ----------------------------------------------------------------------

  lemma {:induction false} SkipSound(s: string) returns (w: string)
    ensures s == w + SkipWs(s) && Blank(w)
    ensures SkipWs(s) == "" || !IsWs(SkipWs(s)[0])
  {
    hide IsWs;
    if s != "" && IsWs(s[0]) {
      var v := SkipSound(s[1..]);
      w := [s[0]] + v;
      assert s == [s[0]] + (v + SkipWs(s[1..]));
    } else {
      w := "";
    }
  }

  lemma {:induction false} SkipBlank(w: string, s: string)
    requires Blank(w) && (s == "" || !IsWs(s[0]))
    ensures SkipWs(w + s) == s
  {
    if w == "" {
      assert w + s == s;
    } else {
      assert (w + s)[1..] == w[1..] + s;
      SkipBlank(w[1..], s);
    }
  }

  // ---- strings -----------------------------------------------------------------------------

  lemma ShortSound(s: string) returns (e: string)
    requires ReadEscape(s).Done? && s[0] != 'u'
    ensures s == e + ReadEscape(s).rest && IsPiece(Piece("\\" + e, ReadEscape(s).value))
  {
    e := [s[0]];
    assert s == e + s[1..];
    hide ReadEscape, ReadHex4;
    ShortEscape(s[0], s[1..]);
    assert ("\\" + e)[1] == s[0];
  }

  lemma ScalarSound(s: string, n: nat) returns (e: string)
    requires |s| >= 5 && s[0] == 'u' && ReadHex4(s[1..]) == Some(n) && (n < 0xd800 || 0xe000 <= n < 0x10000)
    requires ReadEscape(s) == Done(n as char, s[5..])
    ensures s == e + ReadEscape(s).rest && IsPiece(Piece("\\" + e, ReadEscape(s).value))
  {
    hide ReadEscape, ReadHex4;
    e := s[..5];
    var t := "\\" + e;
    assert s[1..][..4] == t[2..];
    HexPrefix(s[1..]);
    assert |t| == 6 && t[0] == '\\' && t[1] == 'u';
  }

  lemma PairSound(s: string, hi: nat, lo: nat) returns (e: string)
    requires |s| >= 11 && s[0] == 'u' && s[5] == '\\' && s[6] == 'u'
    requires ReadHex4(s[1..]) == Some(hi) && ReadHex4(s[7..]) == Some(lo) && 0xd800 <= hi < 0xdc00 <= lo < 0xe000
    requires ReadEscape(s) == Done((0x10000 + (hi - 0xd800) * 0x400 + (lo - 0xdc00)) as char, s[11..])
    ensures s == e + ReadEscape(s).rest && IsPiece(Piece("\\" + e, ReadEscape(s).value))
  {
    hide ReadEscape, ReadHex4;
    e := s[..11];
    var t := "\\" + e;
    assert s[1..][..4] == t[2..6] && s[7..][..4] == t[8..];
    HexPrefix(s[1..]);
    HexPrefix(s[7..]);
    assert |t| == 12 && t[0] == '\\' && t[1] == 'u' && t[6] == '\\' && t[7] == 'u';
  }

  lemma EscapeSound(s: string) returns (e: string)
    requires ReadEscape(s).Done?
    ensures s == e + ReadEscape(s).rest && IsPiece(Piece("\\" + e, ReadEscape(s).value))
  {
    hide IsPiece;
    if s[0] != 'u' {
      e := ShortSound(s);
    } else {
      var hi := ReadHex4(s[1..]).value;
      if hi < 0xd800 || 0xe000 <= hi {
        assert s[1..][4..] == s[5..];
        e := ScalarSound(s, hi);
      } else {
        assert s[1..][6..] == s[7..] && s[1..][10..] == s[11..];
        e := PairSound(s, hi, ReadHex4(s[7..]).value);
      }
    }
  }

  lemma HexPrefix(s: string)
    requires |s| >= 4
    ensures ReadHex4(s[..4]) == ReadHex4(s)
  {
    hide HexValue;
  }

  lemma ShortComplete(c: char, letter: char, rest: string)
    requires IsPiece(Piece(['\\', letter], c))
    ensures ReadEscape([letter] + rest) == Done(c, rest)
  {
    hide ReadEscape, ReadHex4;
    ShortEscape(letter, rest);
  }

  lemma ScalarComplete(e: string, c: char, rest: string)
    requires |e| == 5 && e[0] == 'u' && ReadHex4(e[1..]) == Some(c as int)
    ensures ReadEscape(e + rest) == Done(c, rest)
  {
    hide ReadHex4;
    var s := e + rest;
    assert s[1..][..4] == e[1..] && s[1..][4..] == rest && s[0] == 'u';
    HexPrefix(s[1..]);
    ScalarChar(c);
  }

  lemma PairComplete(e: string, hi: nat, lo: nat, rest: string)
    requires |e| == 11 && e[0] == 'u' && e[5] == '\\' && e[6] == 'u'
    requires ReadHex4(e[1..5]) == Some(hi) && ReadHex4(e[7..]) == Some(lo) && 0xd800 <= hi < 0xdc00 <= lo < 0xe000
    ensures ReadEscape(e + rest) == Done((0x10000 + (hi - 0xd800) * 0x400 + (lo - 0xdc00)) as char, rest)
  {
    hide ReadHex4;
    var s := e + rest;
    assert s[1..][..4] == e[1..5] && s[1..][6..][..4] == e[7..] && s[1..][10..] == rest && s[0] == 'u';
    assert s[1..][4] == '\\' && s[1..][5] == 'u';
    HexPrefix(s[1..]);
    HexPrefix(s[1..][6..]);
  }

  lemma EscapeComplete(e: string, c: char, rest: string)
    requires IsPiece(Piece("\\" + e, c)) && e != ""
    ensures ReadEscape(e + rest) == Done(c, rest)
  {
    hide ReadEscape, ReadHex4;
    var t := "\\" + e;
    assert t[1..] == e;
    if |e| == 1 {
      assert t == ['\\', e[0]] && e == [e[0]];
      ShortComplete(c, e[0], rest);
    } else if |e| == 5 {
      assert t[2..] == e[1..];
      ScalarComplete(e, c, rest);
    } else {
      assert t[2..6] == e[1..5] && t[8..] == e[7..];
      PairComplete(e, ReadHex4(e[1..5]).value, ReadHex4(e[7..]).value, rest);
    }
  }

  lemma ScalarChar(c: char)
    ensures (c as int) < 0xd800 || 0xe000 <= (c as int)
  {
  }

  lemma OneMorePiece(p: Piece, ps: seq<Piece>, end: string)
    requires IsPiece(p) && ArePieces(ps)
    ensures ArePieces([p] + ps) && Chars([p] + ps) == [p.c] + Chars(ps)
    ensures Spell([p] + ps) + end == p.text + (Spell(ps) + end)
  {
    hide IsPiece;
    assert ([p] + ps)[1..] == ps;
  }

  lemma {:induction false} CharsSound(s: string) returns (ps: seq<Piece>)
    requires ReadChars(s).Done?
    ensures ArePieces(ps) && s == Spell(ps) + ("\"" + ReadChars(s).rest) && ReadChars(s).value == Chars(ps)
    decreases |s|
  {
    hide ReadEscape, IsPiece, Spell, Chars, ArePieces;
    if s[0] == '"' {
      ps := [];
      NoPieces();
      assert s == "\"" + s[1..] && "" + s == s;
    } else {
      var p, after;
      if s[0] == '\\' {
        var e := EscapeSound(s[1..]);
        p, after := Piece("\\" + e, ReadEscape(s[1..]).value), ReadEscape(s[1..]).rest;
        assert s == [s[0]] + (e + after);
      } else {
        PlainPiece(s[0]);
        p, after := Piece([s[0]], s[0]), s[1..];
      }
      assert s == p.text + after;
      var more := CharsSound(after);
      OneMorePiece(p, more, "\"" + ReadChars(after).rest);
      ps := [p] + more;
    }
  }

  lemma NoPieces()
    ensures Spell([]) == "" && Chars([]) == "" && ArePieces([])
  {
  }

  lemma PlainPiece(c: char)
    requires c as int >= 0x20 && c != '"' && c != '\\'
    ensures IsPiece(Piece([c], c))
  {
  }

  lemma PieceRead(p: Piece, rest: string)
    requires IsPiece(p)
    ensures ReadChars(p.text + rest) == Prepend(p.c, ReadChars(rest))
  {
    if p.text[0] == '\\' && |p.text| > 1 {
      var e := p.text[1..];
      assert p.text == "\\" + e && (p.text + rest)[1..] == e + rest && (p.text + rest)[0] == '\\';
      EscapeComplete(e, p.c, rest);
      hide ReadEscape, IsPiece;
    } else {
      ReadRaw(p.c, rest);
    }
  }

  lemma {:induction false} CharsComplete(ps: seq<Piece>, rest: string)
    requires ArePieces(ps)
    ensures ReadChars(Spell(ps) + ("\"" + rest)) == Done(Chars(ps), rest)
  {
    hide IsPiece;
    var end := "\"" + rest;
    if ps == [] {
      assert "" + end == end && end[1..] == rest;
    } else {
      CharsComplete(ps[1..], rest);
      PieceRead(ps[0], Spell(ps[1..]) + end);
      assert Spell(ps) + end == ps[0].text + (Spell(ps[1..]) + end);
    }
  }

  // ---- numbers ------------------------------------------------------------------------------

  lemma WholeSound(s: string) returns (d: string)
    requires ReadWhole(s).Done?
    ensures IsWhole(d) && s == d + ReadWhole(s).rest && ReadWhole(s).value == DigitsValue(d)
  {
    if s[0] == '0' {
      d := "0";
      assert s == "0" + s[1..];
      assert DigitsValue("0") == 0 by { assert "0"[..0] == ""; }
    } else {
      d := TakeDigits(s);
      assert s == d + s[|d|..];
    }
  }

  lemma WholeComplete(d: string, rest: string)
    requires IsWhole(d) && (rest == "" || !IsDigit(rest[0]))
    ensures ReadWhole(d + rest) == Done(DigitsValue(d), rest)
  {
    var s := d + rest;
    assert s[|d|..] == rest && s[0] == d[0];
    if d == "0" {
      assert DigitsValue("0") == 0 by { assert "0"[..0] == ""; }
    } else {
      TakeAll(d, rest);
    }
  }

  lemma FractionSound(s: string)
    ensures s == TakeFraction(s) + s[|TakeFraction(s)|..]
  {
    if TakeFraction(s) != "" {
      assert s[0] == '.' && s == "." + s[1..];
    }
  }

  lemma ExponentSound(s: string)
    ensures s == TakeExponent(s) + s[|TakeExponent(s)|..]
  {
    if TakeExponent(s) != "" {
      var k := if |s| >= 2 && (s[1] == '+' || s[1] == '-') then 2 else 1;
      assert s == s[..k] + s[k..];
    }
  }

  lemma UnsignedSound(u: string) returns (d: string, frac: Fraction, exp: Exponent, rest: string)
    requires ReadWhole(u).Done?
    ensures IsWhole(d) && u == d + (frac + (exp + rest)) && ReadWhole(u).value == DigitsValue(d)
    ensures var tail := ReadWhole(u).rest;
            && frac == TakeFraction(tail) && exp == TakeExponent(tail[|frac|..]) && rest == tail[|frac|..][|exp|..]
  {
    d := WholeSound(u);
    hide ReadWhole, TakeFraction, TakeExponent, IsFraction, IsExponent, IsWhole, DigitsValue;
    var tail := ReadWhole(u).rest;
    FractionSound(tail);
    frac := TakeFraction(tail);
    ExponentSound(tail[|frac|..]);
    exp := TakeExponent(tail[|frac|..]);
    rest := tail[|frac|..][|exp|..];
  }

  lemma NumberMeans(neg: bool, d: string, frac: Fraction, exp: Exponent)
    requires IsWhole(d)
    ensures var t := Number(neg, d, frac, exp);
            && Valid(t) && Meaning(t) == NumberValue(neg, DigitsValue(d), frac, exp)
            && Written(t) == (if neg then "-" else "") + (d + (frac + exp))
  {
    hide NumberValue, IsWhole, DigitsValue, IsFraction, IsExponent;
  }

  lemma NumberSound(s: string) returns (t: Syntax)
    requires ReadNumber(s).Done?
    ensures t.Number? && Valid(t) && s == Written(t) + ReadNumber(s).rest && Meaning(t) == ReadNumber(s).value
  {
    hide ReadWhole, TakeFraction, TakeExponent, IsFraction, IsExponent, IsWhole, DigitsValue, NumberValue, Valid,
         Meaning, Written;
    var neg := s != "" && s[0] == '-';
    var u := if neg then s[1..] else s;
    var d, frac, exp, rest := UnsignedSound(u);
    t := Number(neg, d, frac, exp);
    NumberMeans(neg, d, frac, exp);
    Signed(s, neg, d, frac, exp, rest);
  }

  lemma Signed(s: string, neg: bool, d: string, frac: string, exp: string, rest: string)
    requires neg == (s != "" && s[0] == '-') && (if neg then s[1..] else s) == d + (frac + (exp + rest))
    ensures s == (if neg then "-" else "") + (d + (frac + exp)) + rest
  {
    if neg { assert s == "-" + s[1..]; }
    Reassociate(if neg then "-" else "", d, frac, exp, rest);
  }

  lemma UnsignedComplete(d: string, frac: Fraction, exp: Exponent, rest: string)
    requires IsWhole(d) && Stops(rest)
    ensures var u := d + (frac + (exp + rest));
            && u != "" && IsDigit(u[0])
            && ReadWhole(u) == Done(DigitsValue(d), frac + (exp + rest))
    ensures TakeFraction(frac + (exp + rest)) == frac && (frac + (exp + rest))[|frac|..] == exp + rest
    ensures TakeExponent(exp + rest) == exp && (exp + rest)[|exp|..] == rest
  {
    TailStops(frac, exp, rest);
    FractionTaken(frac, exp + rest);
    ExponentTaken(exp, rest);
    WholeComplete(d, frac + (exp + rest));
  }

  lemma NumberComplete(t: Syntax, rest: string)
    requires t.Number? && Valid(t) && Stops(rest)
    ensures ReadNumber(Written(t) + rest) == Done(Meaning(t), rest)
    ensures var s := Written(t) + rest; s != "" && (s[0] == '-' || IsDigit(s[0]))
  {
    assert IsWhole(t.digits);
    UnsignedComplete(t.digits, t.frac, t.exp, rest);
    NumberMeans(t.neg, t.digits, t.frac, t.exp);
    hide ReadWhole, TakeFraction, TakeExponent, IsFraction, IsExponent, IsWhole, Stops, DigitsValue, ReadNumber,
         IsDigit, NumberValue, Valid, Meaning, Written;
    var tail := t.frac + (t.exp + rest);
    SignedNumber(t.neg, t.digits + tail, DigitsValue(t.digits), t.frac, t.exp, tail, rest);
    Reassociate(if t.neg then "-" else "", t.digits, t.frac, t.exp, rest);
  }

  // ---- what is read is written so ---------------------------------------------------------

  /** White space moved in front of the first item. */
  function Behind(w: string, items: seq<Item>): seq<Item>
    requires items != []
  {
    [items[0].(before := w + items[0].before)] + items[1..]
  }

  lemma BehindItem(w: string, i: Item, next: string)
    ensures ItemText(i.(before := w + i.before), next) == ItemText(i, next)
  {
  }

  lemma GapMoves(w: string, items: seq<Item>)
    requires items != [] && ValidItems(items) && Blank(w)
    ensures ValidItems(Behind(w, items)) && Meanings(Behind(w, items)) == Meanings(items)
    ensures WrittenItems(Behind(w, items)) == w + WrittenItems(items)
  {
    hide Valid, Meaning, ItemText;
    assert Behind(w, items)[1..] == items[1..];
    BehindItem(w, items[0], if |items| == 1 then "" else "," + WrittenItems(items[1..]));
  }

  function BehindMember(w: string, ms: seq<Member>): seq<Member>
    requires ms != []
  {
    [ms[0].(before := w + ms[0].before)] + ms[1..]
  }

  lemma MemberGapMoves(w: string, ms: seq<Member>, acc: seq<Field>)
    requires ms != [] && ValidMembers(ms) && Blank(w)
    ensures ValidMembers(BehindMember(w, ms)) && Assigned(acc, BehindMember(w, ms)) == Assigned(acc, ms)
    ensures WrittenMembers(BehindMember(w, ms)) == w + WrittenMembers(ms)
  {
    hide Valid, Meaning, MemberText, ArePieces, Chars;
    assert BehindMember(w, ms)[1..] == ms[1..];
    BehindText(w, ms[0], if |ms| == 1 then "" else "," + WrittenMembers(ms[1..]));
  }

  lemma BehindText(w: string, m: Member, next: string)
    ensures MemberText(m.(before := w + m.before), next) == MemberText(m, next)
  {
  }

  lemma ItemThenMore(i: Item, next: string, end: string)
    ensures ItemText(i, next) + end == ItemText(i, next + end)
  {
    hide Written;
    Regroup(Written(i.value), i.after, next, end, "", "");
    Regroup(i.after, next, end, "", "", "");
  }

  lemma ItemsCons(items: seq<Item>, end: string)
    requires items != []
    ensures WrittenItems(items) + end
         == items[0].before + ItemText(items[0], if |items| == 1 then end else "," + (WrittenItems(items[1..]) + end))
  {
    hide ItemText;
    var next := if |items| == 1 then "" else "," + WrittenItems(items[1..]);
    ItemThenMore(items[0], next, end);
    Regroup(items[0].before, ItemText(items[0], next), end, "", "", "");
    Regroup(",", WrittenItems(items[1..]), end, "", "", "");
    assert "" + end == end;
  }

  lemma ItemThen(value: Syntax, after: string, more: seq<Item>, end: string)
    requires Valid(value) && Blank(after) && ValidItems(more)
    ensures var items := [Item("", value, after)] + more;
            && ValidItems(items) && Meanings(items) == [Meaning(value)] + Meanings(more)
            && WrittenItems(items) + end
               == Written(value) + (after + if more == [] then end else "," + (WrittenItems(more) + end))
  {
    hide Valid, Meaning, Written;
    var items := [Item("", value, after)] + more;
    assert items[1..] == more;
    ItemsCons(items, end);
    BlankNone();
  }

  lemma MoreItems(value: Syntax, after: string, w: string, more: seq<Item>, end: string)
    requires Valid(value) && Blank(after) && Blank(w) && more != [] && ValidItems(more)
    ensures var items := [Item("", value, after)] + Behind(w, more);
            && ValidItems(items) && Meanings(items) == [Meaning(value)] + Meanings(more)
            && WrittenItems(items) + end == Written(value) + (after + ("," + (w + (WrittenItems(more) + end))))
  {
    hide Valid, Meaning, Written, WrittenItems, Meanings, ValidItems, Blank;
    GapMoves(w, more);
    ItemThen(value, after, Behind(w, more), end);
    Regroup(w, WrittenItems(more), end, "", "", "");
  }

  lemma ItemsUnfold(s: string, acc: seq<Json>)
    requires ReadItems(s, acc).Done?
    ensures ReadValue(s).Done?
    ensures var t := SkipWs(ReadValue(s).rest);
            var acc' := acc + [ReadValue(s).value];
            && t != "" && (t[0] == ']' || t[0] == ',')
            && ReadItems(s, acc) == if t[0] == ']' then Done(acc', t[1..]) else ReadItems(SkipWs(t[1..]), acc')
  {
    hide ReadValue, SkipWs;
  }

  lemma {:induction false} ItemsSound(s: string, acc: seq<Json>) returns (items: seq<Item>)
    requires ReadItems(s, acc).Done?
    ensures items != [] && ValidItems(items) && s == WrittenItems(items) + ("]" + ReadItems(s, acc).rest)
    ensures ReadItems(s, acc).value == acc + Meanings(items)
    decreases |s|, 3
  {
    hide Valid, Meaning, Written, WrittenItems, Meanings, ValidItems, Blank, ReadValue, ReadItems, SkipWs, Behind;
    ItemsUnfold(s, acc);
    var value := ValueSound(s);
    var v, rest := ReadValue(s).value, ReadValue(s).rest;
    var after := SkipSound(rest);
    var t := SkipWs(rest);
    if t[0] == ']' {
      NoItems();
      ItemThen(value, after, [], "]" + t[1..]);
      items := [Item("", value, after)] + [];
      assert t == "]" + t[1..];
    } else {
      var w := SkipSound(t[1..]);
      var more := ItemsSound(SkipWs(t[1..]), acc + [v]);
      MoreItems(value, after, w, more, "]" + ReadItems(SkipWs(t[1..]), acc + [v]).rest);
      items := [Item("", value, after)] + Behind(w, more);
      assert t == "," + t[1..];
      assert acc + [v] + Meanings(more) == acc + ([v] + Meanings(more));
    }
  }

  lemma MemberThen(m: Member, more: seq<Member>, acc: seq<Field>, end: string)
    requires m.before == "" && ArePieces(m.key) && Blank(m.mid) && Blank(m.gap) && Valid(m.value) && Blank(m.after)
    requires ValidMembers(more)
    ensures ValidMembers([m] + more)
    ensures Assigned(acc, [m] + more) == Assigned(Insert(acc, Chars(m.key), Meaning(m.value)), more)
    ensures WrittenMembers([m] + more) + end
         == MemberText(m, if more == [] then end else "," + (WrittenMembers(more) + end))
  {
    hide Valid, Meaning, MemberText, ArePieces, Chars, Insert;
    assert ([m] + more)[1..] == more;
    MembersCons([m] + more, end);
    assert "" + MemberText(m, end) == MemberText(m, end);
  }

  lemma TextThen(m: Member, next: string, end: string)
    ensures MemberText(m, next) + end == MemberText(m, next + end)
  {
    hide Written, Spell;
    EightParts("\"", Spell(m.key), "\"", m.mid, ":", m.gap, Written(m.value), m.after, next, end);
  }

  lemma MembersCons(ms: seq<Member>, end: string)
    requires ms != []
    ensures WrittenMembers(ms) + end
         == ms[0].before
            + MemberText(ms[0], if |ms| == 1 then end else "," + (WrittenMembers(ms[1..]) + end))
  {
    hide MemberText;
    var next := if |ms| == 1 then "" else "," + WrittenMembers(ms[1..]);
    TextThen(ms[0], next, end);
    Regroup(ms[0].before, MemberText(ms[0], next), end, "", "", "");
    Regroup(",", WrittenMembers(ms[1..]), end, "", "", "");
    assert "" + end == end;
  }

  lemma EightParts(a: string, b: string, c: string, d: string, e: string, f: string, g: string, h: string, i: string,
                   j: string)
    ensures a + (b + (c + (d + (e + (f + (g + (h + i))))))) + j == a + (b + (c + (d + (e + (f + (g + (h + (i + j))))))))
  {
    Regroup(a, b + (c + (d + (e + (f + (g + (h + i)))))), j, "", "", "");
    Regroup(b, c + (d + (e + (f + (g + (h + i))))), j, "", "", "");
    Regroup(c, d + (e + (f + (g + (h + i)))), j, "", "", "");
    Regroup(d, e + (f + (g + (h + i))), j, "", "", "");
    Regroup(e, f + (g + (h + i)), j, "", "", "");
    Regroup(f, g + (h + i), j, "", "", "");
    Regroup(g, h + i, j, "", "", "");
    Regroup(h, i, j, "", "", "");
  }

  /** A member is read up to its value. */
  lemma MemberHead(s: string) returns (key: seq<Piece>, mid: string, gap: string, text: string)
    requires s != "" && s[0] == '"' && ReadChars(s[1..]).Done?
    requires var t := SkipWs(ReadChars(s[1..]).rest); t != "" && t[0] == ':'
    ensures ArePieces(key) && Chars(key) == ReadChars(s[1..]).value && Blank(mid) && Blank(gap)
    ensures text == SkipWs(SkipWs(ReadChars(s[1..]).rest)[1..])
    ensures s == "\"" + (Spell(key) + ("\"" + (mid + (":" + (gap + text)))))
    ensures |text| < |s|
  {
    hide Blank, ArePieces, Chars, Spell;
    key := CharsSound(s[1..]);
    mid := SkipSound(ReadChars(s[1..]).rest);
    var t := SkipWs(ReadChars(s[1..]).rest);
    gap := SkipSound(t[1..]);
    text := SkipWs(t[1..]);
    assert s == "\"" + s[1..] && t == ":" + t[1..];
  }

  lemma {:induction false} MembersSound(s: string, acc: seq<Field>) returns (ms: seq<Member>)
    requires ReadFields(s, acc).Done?
    ensures ms != [] && ValidMembers(ms) && s == WrittenMembers(ms) + ("}" + ReadFields(s, acc).rest)
    ensures ReadFields(s, acc).value == Assigned(acc, ms)
    decreases |s|, 3
  {
    hide Valid, Meaning, WrittenMembers, Assigned, ValidMembers, Blank, ArePieces, Chars, Spell, Insert;
    var key, mid, gap, text := MemberHead(s);
    var value := ValueSound(text);
    var v, rest := ReadValue(text).value, ReadValue(text).rest;
    var after := SkipSound(rest);
    var t := SkipWs(rest);
    var m := Member("", key, mid, gap, value, after);
    var acc' := Insert(acc, Chars(key), v);
    if t[0] == '}' {
      NoMembers(acc');
      MemberThen(m, [], acc, "}" + t[1..]);
      ms := [m] + [];
      assert t == "}" + t[1..];
    } else {
      var w := SkipSound(t[1..]);
      var more := MembersSound(SkipWs(t[1..]), acc');
      MemberGapMoves(w, more, acc');
      var end := "}" + ReadFields(SkipWs(t[1..]), acc').rest;
      MemberThen(m, BehindMember(w, more), acc, end);
      ms := [m] + BehindMember(w, more);
      assert t == "," + t[1..];
      Regroup(w, WrittenMembers(more), end, "", "", "");
    }
  }

  lemma NoMembers(acc: seq<Field>)
    ensures ValidMembers([]) && Assigned(acc, []) == acc && WrittenMembers([]) == ""
  {
  }

  lemma ListWritten(gap: string, items: seq<Item>, rest: string)
    requires Blank(gap) && ValidItems(items)
    ensures Valid(List(gap, items)) && Meaning(List(gap, items)) == Arr(Meanings(items))
    ensures Written(List(gap, items)) + rest
         == "[" + ((if items == [] then gap else WrittenItems(items)) + ("]" + rest))
  {
    hide ValidItems, Meanings, WrittenItems;
    Regroup("[", (if items == [] then gap else WrittenItems(items)), "]", rest, "", "");
  }

  lemma DictWritten(gap: string, ms: seq<Member>, rest: string)
    requires Blank(gap) && ValidMembers(ms)
    ensures Valid(Dict(gap, ms)) && Meaning(Dict(gap, ms)) == Obj(Assigned([], ms))
    ensures Written(Dict(gap, ms)) + rest
         == "{" + ((if ms == [] then gap else WrittenMembers(ms)) + ("}" + rest))
  {
    hide ValidMembers, Assigned, WrittenMembers;
    Regroup("{", (if ms == [] then gap else WrittenMembers(ms)), "}", rest, "", "");
  }

  lemma WordSound(s: string, word: string, v: Json) returns (t: Syntax)
    requires Literal(s, word, v).Done?
    requires (word == "null" && v == Null) || (word == "true" && v == Bool(true))
          || (word == "false" && v == Bool(false))
    ensures Valid(t) && s == Written(t) + Literal(s, word, v).rest && Meaning(t) == v == Literal(s, word, v).value
  {
    t := Word(v);
    assert s == s[..|word|] + s[|word|..];
  }

  lemma ListSound(s: string) returns (t: Syntax)
    requires s != "" && s[0] == '[' && ReadValue(s).Done?
    ensures Valid(t) && s == Written(t) + ReadValue(s).rest && Meaning(t) == ReadValue(s).value
    decreases |s|, 1
  {
    hide Valid, Meaning, Written, WrittenItems, Meanings, ValidItems, Blank, ReadFields, ReadChars, ReadNumber;
    var w := SkipSound(s[1..]);
    var u := SkipWs(s[1..]);
    assert s == "[" + s[1..];
    if u != "" && u[0] == ']' {
      NoItems();
      ListWritten(w, [], u[1..]);
      t := List(w, []);
      assert u == "]" + u[1..];
    } else {
      var items := ItemsSound(u, []);
      GapMoves(w, items);
      var rest := ReadItems(u, []).rest;
      BlankNone();
      ListWritten("", Behind(w, items), rest);
      t := List("", Behind(w, items));
      Regroup(w, WrittenItems(items), "]" + rest, "", "", "");
      assert [] + Meanings(items) == Meanings(items);
    }
  }

  lemma NoItems()
    ensures ValidItems([]) && Meanings([]) == []
  {
  }

  lemma BlankNone()
    ensures Blank("")
  {
  }

  lemma DictSound(s: string) returns (t: Syntax)
    requires s != "" && s[0] == '{' && ReadValue(s).Done?
    ensures Valid(t) && s == Written(t) + ReadValue(s).rest && Meaning(t) == ReadValue(s).value
    decreases |s|, 1
  {
    hide Valid, Meaning, Written, WrittenMembers, Assigned, ValidMembers, Blank, ReadItems, ReadChars, ReadNumber;
    var w := SkipSound(s[1..]);
    var u := SkipWs(s[1..]);
    assert s == "{" + s[1..];
    if u != "" && u[0] == '}' {
      NoMembers([]);
      DictWritten(w, [], u[1..]);
      t := Dict(w, []);
      assert u == "}" + u[1..];
    } else {
      var ms := MembersSound(u, []);
      MemberGapMoves(w, ms, []);
      var rest := ReadFields(u, []).rest;
      BlankNone();
      DictWritten("", BehindMember(w, ms), rest);
      t := Dict("", BehindMember(w, ms));
      Regroup(w, WrittenMembers(ms), "}" + rest, "", "", "");
    }
  }

  lemma TextSound(s: string) returns (t: Syntax)
    requires s != "" && s[0] == '"' && ReadChars(s[1..]).Done?
    ensures Valid(t) && s == Written(t) + ReadChars(s[1..]).rest && Meaning(t) == Str(ReadChars(s[1..]).value)
  {
    hide ArePieces, Chars, Spell, ReadChars;
    var ps := CharsSound(s[1..]);
    t := Text(ps);
    assert s == "\"" + s[1..];
    Regroup("\"", Spell(ps), "\"", ReadChars(s[1..]).rest, "", "");
  }

  /** Whatever the parser reads is written as the grammar says, and means what it read. */
  lemma {:induction false} ValueSound(s: string) returns (t: Syntax)
    requires ReadValue(s).Done?
    ensures Valid(t) && s == Written(t) + ReadValue(s).rest && Meaning(t) == ReadValue(s).value
    decreases |s|, 2
  {
    hide Valid, Meaning, Written, ReadItems, ReadFields, ReadChars, ReadNumber, Literal;
    if s[0] == '"' {
      t := TextSound(s);
    } else if s[0] == '[' {
      t := ListSound(s);
    } else if s[0] == '{' {
      t := DictSound(s);
    } else if s[0] == 'n' {
      t := WordSound(s, "null", Null);
    } else if s[0] == 't' {
      t := WordSound(s, "true", Bool(true));
    } else if s[0] == 'f' {
      t := WordSound(s, "false", Bool(false));
    } else {
      t := NumberSound(s);
    }
  }

  // ---- what is written so is read ----------------------------------------------------------

  lemma StopsAfter(after: string, rest: string)
    requires Blank(after) && rest != "" && (rest[0] == ']' || rest[0] == '}' || rest[0] == ',')
    ensures Stops(after + rest) && SkipWs(after + rest) == rest
  {
    SkipBlank(after, rest);
  }

  lemma ItemStep(x: string, v: Json, after: string, rest: string, acc: seq<Json>)
    requires ReadValue(x) == Done(v, after + rest) && Blank(after) && rest != ""
    requires rest[0] == ']' || rest[0] == ','
    ensures ReadItems(x, acc)
         == if rest[0] == ']' then Done(acc + [v], rest[1..]) else ReadItems(SkipWs(rest[1..]), acc + [v])
  {
    StopsAfter(after, rest);
    hide ReadValue, Blank, Stops;
  }

  /** An array's items are read, from the first that is not white space. */
  lemma {:induction false} ItemsComplete(items: seq<Item>, acc: seq<Json>, rest: string)
    requires items != [] && ValidItems(items)
    ensures var s := SkipWs(WrittenItems(items) + ("]" + rest));
            StartsValue(s) && ReadItems(s, acc) == Done(acc + Meanings(items), rest)
    decreases items, 0
  {
    hide Written, WrittenItems, Valid, Meaning, ReadValue, ReadItems, StartsValue, Blank, Stops;
    var end := "]" + rest;
    var i := items[0];
    ItemsCons(items, end);
    var y := if |items| == 1 then end else "," + (WrittenItems(items[1..]) + end);
    StopsAfter(i.after, y);
    ValueComplete(i.value, i.after + y);
    var x := Written(i.value) + (i.after + y);
    SkipToStart(i.before, x);
    ItemStep(x, Meaning(i.value), i.after, y, acc);
    if |items| == 1 {
      assert items[1..] == [] && y[1..] == rest;
      assert Meanings(items) == [Meaning(i.value)];
    } else {
      ItemsComplete(items[1..], acc + [Meaning(i.value)], rest);
      assert y[1..] == WrittenItems(items[1..]) + end;
      assert acc + [Meaning(i.value)] + Meanings(items[1..]) == acc + Meanings(items);
    }
  }

  lemma SkipToStart(w: string, x: string)
    requires Blank(w) && StartsValue(x)
    ensures SkipWs(w + x) == x
  {
    SkipBlank(w, x);
  }

  lemma MemberStep(key: seq<Piece>, mid: string, gap: string, x: string, v: Json, after: string, rest: string,
                   acc: seq<Field>)
    requires ArePieces(key) && Blank(mid) && Blank(gap) && Blank(after) && StartsValue(x)
    requires ReadValue(x) == Done(v, after + rest) && rest != "" && (rest[0] == '}' || rest[0] == ',')
    ensures var s := "\"" + (Spell(key) + ("\"" + (mid + (":" + (gap + x)))));
            && StartsValue(s)
            && ReadFields(s, acc)
               == if rest[0] == '}' then Done(Insert(acc, Chars(key), v), rest[1..])
                  else ReadFields(SkipWs(rest[1..]), Insert(acc, Chars(key), v))
  {
    hide ReadValue, Blank, Stops, ArePieces, Chars, Spell, ReadChars, Insert;
    var tail := ":" + (gap + x);
    var s := "\"" + (Spell(key) + ("\"" + (mid + tail)));
    CharsComplete(key, mid + tail);
    SkipBlank(mid, tail);
    SkipToStart(gap, x);
    StopsAfter(after, rest);
    assert s[1..] == Spell(key) + ("\"" + (mid + tail));
    assert tail[1..] == gap + x;
  }

  lemma {:induction false} MembersComplete(ms: seq<Member>, acc: seq<Field>, rest: string)
    requires ms != [] && ValidMembers(ms)
    ensures var s := SkipWs(WrittenMembers(ms) + ("}" + rest));
            StartsValue(s) && ReadFields(s, acc) == Done(Assigned(acc, ms), rest)
    decreases ms, 0
  {
    hide Written, WrittenMembers, Valid, Meaning, ReadValue, ReadFields, StartsValue, Blank, Stops, ArePieces, Chars,
         Spell, Insert;
    var end := "}" + rest;
    var m := ms[0];
    MembersCons(ms, end);
    var y := if |ms| == 1 then end else "," + (WrittenMembers(ms[1..]) + end);
    StopsAfter(m.after, y);
    ValueComplete(m.value, m.after + y);
    var x := Written(m.value) + (m.after + y);
    MemberStep(m.key, m.mid, m.gap, x, Meaning(m.value), m.after, y, acc);
    SkipToStart(m.before, MemberText(m, y));
    var acc' := Insert(acc, Chars(m.key), Meaning(m.value));
    if |ms| == 1 {
      assert ms[1..] == [] && y[1..] == rest;
      NoMembers(acc');
    } else {
      MembersComplete(ms[1..], acc', rest);
      assert y[1..] == WrittenMembers(ms[1..]) + end;
    }
  }

  lemma EmptyRead(open: char, gap: string, close: char, rest: string)
    requires Blank(gap) && ((open == '[' && close == ']') || (open == '{' && close == '}'))
    ensures ReadValue([open] + (gap + ([close] + rest))) == Done(if open == '[' then Arr([]) else Obj([]), rest)
  {
    hide ReadItems, ReadFields, ReadChars, ReadNumber;
    var s := [open] + (gap + ([close] + rest));
    SkipBlank(gap, [close] + rest);
    assert s[1..] == gap + ([close] + rest) && ([close] + rest)[1..] == rest;
  }

  lemma FullRead(open: char, body: string, v: Json, rest: string)
    requires StartsValue(SkipWs(body))
    requires open == '[' ==> v.Arr? && ReadItems(SkipWs(body), []) == Done(v.items, rest)
    requires open == '{' ==> v.Obj? && ReadFields(SkipWs(body), []) == Done(v.fields, rest)
    requires open == '[' || open == '{'
    ensures ReadValue([open] + body) == Done(v, rest)
  {
    hide ReadItems, ReadFields, ReadChars, ReadNumber, SkipWs;
    assert ([open] + body)[1..] == body;
  }

  /** Whatever is written as the grammar says is read, up to what cannot lengthen a number. */
  lemma {:induction false} ValueComplete(t: Syntax, rest: string)
    requires Valid(t) && Stops(rest)
    ensures StartsValue(Written(t) + rest) && ReadValue(Written(t) + rest) == Done(Meaning(t), rest)
    decreases t, 1
  {
    hide WrittenItems, WrittenMembers, ReadValue, ReadItems, ReadFields, Stops, Blank, ReadNumber, ReadChars;
    match t
    case Word(v) => ReadWord(Written(t), v, rest);
    case Number(_, _, _, _) =>
      NumberComplete(t, rest);
      NumberRead(Written(t) + rest, Meaning(t), rest);
    case Text(ps) => TextRead(ps, rest);
    case List(gap, items) =>
      ListWritten(gap, items, rest);
      if items == [] {
        EmptyRead('[', gap, ']', rest);
      } else {
        ItemsComplete(items, [], rest);
        assert [] + Meanings(items) == Meanings(items);
        FullRead('[', WrittenItems(items) + ("]" + rest), Arr(Meanings(items)), rest);
      }
    case Dict(gap, ms) =>
      DictWritten(gap, ms, rest);
      if ms == [] {
        EmptyRead('{', gap, '}', rest);
      } else {
        MembersComplete(ms, [], rest);
        FullRead('{', WrittenMembers(ms) + ("}" + rest), Obj(Assigned([], ms)), rest);
      }
  }

  lemma TextRead(ps: seq<Piece>, rest: string)
    requires ArePieces(ps)
    ensures var s := Written(Text(ps)) + rest; StartsValue(s) && ReadValue(s) == Done(Str(Chars(ps)), rest)
  {
    hide ArePieces, Chars, Spell, ReadChars, ReadItems, ReadFields, ReadNumber;
    CharsComplete(ps, rest);
    Regroup("\"", Spell(ps), "\"", rest, "", "");
    var s := Written(Text(ps)) + rest;
    assert s == "\"" + (Spell(ps) + ("\"" + rest)) && s[1..] == Spell(ps) + ("\"" + rest);
  }

  // ---- the parser is the grammar ----------------------------------------------------------------

  /** The text is t, with white space around it. */
  ghost predicate Reads(s: string, v: Json, a: string, t: Syntax, b: string) {
    Blank(a) && Blank(b) && Valid(t) && s == a + Written(t) + b && Meaning(t) == v
  }

  lemma LoadsSound(s: string, v: Json) returns (a: string, t: Syntax, b: string)
    requires Loads(s) == Some(v)
    ensures Reads(s, v, a, t, b)
  {
    hide ReadValue, Written, Valid, Meaning, Blank, SkipWs;
    a := SkipSound(s);
    var u := SkipWs(s);
    t := ValueSound(u);
    b := SkipSound(ReadValue(u).rest);
    assert b + "" == b;
    Regroup(a, Written(t), b, "", "", "");
  }

  lemma LoadsComplete(s: string, v: Json, a: string, t: Syntax, b: string)
    requires Reads(s, v, a, t, b)
    ensures Loads(s) == Some(v)
  {
    hide ReadValue, Written, Valid, Meaning, Blank, SkipWs, StartsValue, Stops;
    BlankStops(b);
    ValueComplete(t, b);
    SkipToStart(a, Written(t) + b);
    SkipBlank(b, "");
    Regroup(a, Written(t), b, "", "", "");
    assert b + "" == b;
  }

  /** A text parses as a value exactly when the grammar derives it with that meaning. */
  lemma LoadsExactly(s: string, v: Json)
    ensures Loads(s) == Some(v) <==> exists a, t, b :: Reads(s, v, a, t, b)
  {
    hide Loads, Reads;
    if Loads(s) == Some(v) { var a, t, b := LoadsSound(s, v); }
    if a, t, b :| Reads(s, v, a, t, b) { LoadsComplete(s, v, a, t, b); }
  }

  lemma BlankStops(b: string)
    requires Blank(b)
    ensures Stops(b)
  {
  }
}
