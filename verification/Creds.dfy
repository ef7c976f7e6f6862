/** The client credentials file: printer, line scanner and parser
    (src/valiss/creds.py).

    `Between` and `Format` are the source's loops. `Fold` is the scanner as a
    state machine over lines, which is what the properties are proved about. */
module Creds {
  import opened Errors
  import opened Text
  import Json

  datatype Creds = Creds(account: string, user: string, seed: string)

  datatype Section = Account | User | Seed

  const VERSION_MARKER := "VALISS-CREDS-VERSION:"
  const VERSION_LINE := "VALISS-CREDS-VERSION: 1"
  const STARS := "*************************"
  const NOTICE_RULE := STARS + " IMPORTANT " + STARS
  const NOTICE_TEXT := "Seed lets anyone sign" + " as this identity." + " Keep it secret."

  function Name(s: Section): string {
    match s case Account => "ACCOUNT TOKEN" case User => "USER TOKEN" case Seed => "SEED"
  }

  function Begin(s: Section): string {
    "-----BEGIN VALISS " + Name(s) + "-----"
  }

  function End(s: Section): string {
    "------END VALISS " + Name(s) + "------"
  }

  function Field(c: Creds, s: Section): string {
    match s case Account => c.account case User => c.user case Seed => c.seed
  }

  // ---- the scanner ---------------------------------------------------------

  datatype Scan = Outside | Inside(payload: string) | Closed(payload: string) | Failed

  function Step(st: Scan, line: string, s: Section): Scan {
    var t := Strip(line);
    if st.Closed? || st.Failed? then st
    else if t == Begin(s) then (if st.Inside? then st else Inside(""))
    else if st.Outside? then Outside
    else if t == End(s) then (if st.payload == "" then Failed else Closed(st.payload))
    else if t == "" then st
    else if st.payload == "" then Inside(t)
    else Failed
  }

  function Fold(st: Scan, lines: seq<string>, s: Section): Scan
    decreases |lines|
  {
    if lines == [] then st else Fold(Step(st, lines[0], s), lines[1..], s)
  }

  /** What the source's scan returns: the payload, "" when the section is
      absent, or an error. */
  function Outcome(st: Scan): Result<string> {
    match st
    case Outside => Ok("")
    case Closed(p) => Ok(p)
    case Inside(_) => Err(Malformed)
    case Failed => Err(Malformed)
  }

  function Scanned(lines: seq<string>, s: Section): Result<string> {
    Outcome(Fold(Outside, lines, s))
  }

  method Between(contents: string, s: Section) returns (r: Result<string>)
    ensures r == Scanned(SplitLines(contents), s)
  {
    hide Begin, End, Strip;
    BeginNotBlank(s);
    var lines := SplitLines(contents);
    var inside := false;
    var payload := "";
    for i := 0 to |lines|
      invariant !inside ==> payload == ""
      invariant Fold(Outside, lines, s)
             == Fold(if inside then Inside(payload) else Outside, lines[i..], s)
    {
      var line := Strip(lines[i]);
      if line == Begin(s) {
        inside := true;
      } else if !inside {
      } else if line == End(s) {
        if payload == "" {
          FoldAbsorbs(Failed, lines[i + 1..], s);
          return Err(Malformed);
        }
        FoldAbsorbs(Closed(payload), lines[i + 1..], s);
        return Ok(payload);
      } else if line == "" {
      } else if payload == "" {
        payload := line;
      } else {
        FoldAbsorbs(Failed, lines[i + 1..], s);
        return Err(Malformed);
      }
    }
    if inside {
      return Err(Malformed);
    }
    return Ok("");
  }

  lemma {:induction false} FoldAbsorbs(st: Scan, lines: seq<string>, s: Section)
    requires st.Closed? || st.Failed?
    ensures Fold(st, lines, s) == st
    decreases |lines|
  {
    if lines != [] { FoldAbsorbs(st, lines[1..], s); }
  }

  lemma {:induction false} FoldConcat(st: Scan, a: seq<string>, b: seq<string>, s: Section)
    ensures Fold(st, a + b, s) == Fold(Fold(st, a, s), b, s)
    decreases |a|
  {
    if a == [] {
      assert a + b == b;
    } else {
      assert (a + b)[1..] == a[1..] + b;
      FoldConcat(Step(st, a[0], s), a[1..], b, s);
    }
  }

  // ---- the version line -------------------------------------------------------

  function Digits(s: string): Option<nat> {
    if s == "" then None
    else
      var c := s[|s| - 1];
      if !('0' <= c <= '9') then None
      else
        var d := c as int - '0' as int;
        if |s| == 1 then Some(d)
        else match Digits(s[..|s| - 1])
          case None => None
          case Some(n) => Some(10 * n + d)
  }

  /** ASCII digits with an optional sign. */
  function Integer(s: string): Option<int> {
    var signed := s != "" && (s[0] == '+' || s[0] == '-');
    match Digits(if signed then s[1..] else s)
    case None => None
    case Some(n) => if signed && s[0] == '-' then Some(-(n as int)) else Some(n as int)
  }

  predicate IsVersionLine(line: string) {
    StartsWith(Strip(line), VERSION_MARKER)
  }

  function LineVersion(line: string): Result<()>
    requires IsVersionLine(line)
  {
    match Integer(Strip(Strip(line)[|VERSION_MARKER|..]))
    case None => Err(Malformed)
    case Some(v) => if v != 1 then Err(UnsupportedVersion) else Ok(())
  }

  function VersionOf(lines: seq<string>): Result<()> {
    if lines == [] then Ok(())
    else if IsVersionLine(lines[0]) then LineVersion(lines[0])
    else VersionOf(lines[1..])
  }

  method CheckVersion(contents: string) returns (r: Result<()>)
    ensures r == VersionOf(SplitLines(contents))
  {
    var lines := SplitLines(contents);
    for i := 0 to |lines|
      invariant VersionOf(lines) == VersionOf(lines[i..])
    {
      if IsVersionLine(lines[i]) {
        return LineVersion(lines[i]);
      }
    }
    return Ok(());
  }

  // ---- parse and format --------------------------------------------------------

  function ParseLines(lines: seq<string>): Result<Creds> {
    var _ :- VersionOf(lines);
    var account :- Scanned(lines, Account);
    var user :- Scanned(lines, User);
    if account == "" && user == "" then Err(Missing)
    else
      var seed :- Scanned(lines, Seed);
      Ok(Creds(account, user, seed))
  }

  function ParseText(contents: string): Result<Creds> {
    ParseLines(SplitLines(contents))
  }

  method Parse(contents: string) returns (r: Result<Creds>)
    ensures r == ParseText(contents)
  {
    var v := CheckVersion(contents);
    if v.Err? { return Err(v.reason); }
    var account := Between(contents, Account);
    if account.Err? { return Err(account.reason); }
    var user := Between(contents, User);
    if user.Err? { return Err(user.reason); }
    if account.value == "" && user.value == "" { return Err(Missing); }
    var seed := Between(contents, Seed);
    if seed.Err? { return Err(seed.reason); }
    return Ok(Creds(account.value, user.value, seed.value));
  }

  function Block(s: Section, field: string): seq<string> {
    if field == "" then [] else [Begin(s), Strip(field), End(s)]
  }

  function Notice(c: Creds): seq<string> {
    if c.seed == "" then [] else ["", NOTICE_RULE, NOTICE_TEXT]
  }

  function FormatLines(c: Creds): seq<string> {
    [VERSION_LINE, ""]
    + Block(Account, c.account)
    + (if c.user != "" && c.account != "" then [""] else [])
    + Block(User, c.user)
    + (if c.seed != "" then [""] else [])
    + Block(Seed, c.seed)
    + Notice(c)
  }

  function FormatText(c: Creds): string {
    Unlines(FormatLines(c))
  }

  lemma BlockText(s: Section, field: string)
    requires field != ""
    ensures Unlines(Block(s, field)) == Begin(s) + "\n" + Strip(field) + "\n" + End(s) + "\n"
  {
    hide Begin, End, Strip;
    var b, f, e := Begin(s), Strip(field), End(s);
    assert [b, f, e][1..] == [f, e] && [f, e][1..] == [e] && [e][1..] == [];
    assert Unlines([e]) == e + "\n";
    assert Unlines([f, e]) == f + "\n" + (e + "\n");
  }

  lemma ShortUnlines()
    ensures Unlines([]) == "" && Unlines([""]) == "\n"
  {
  }

  lemma TwoLines(a: string, b: string)
    ensures Unlines([a, b]) == a + "\n" + b + "\n"
  {
    assert [a, b][1..] == [b] && [b][1..] == [];
    assert Unlines([b]) == b + "\n";
  }

  lemma HeaderText()
    ensures Unlines([VERSION_LINE, ""]) == VERSION_LINE + "\n\n"
  {
    TwoLines(VERSION_LINE, "");
    assert VERSION_LINE + "\n" + "" + "\n" == VERSION_LINE + "\n\n";
  }

  lemma NoticeText(c: Creds)
    requires c.seed != ""
    ensures Unlines(Notice(c)) == "\n" + (NOTICE_RULE + "\n" + NOTICE_TEXT + "\n")
  {
    TwoLines(NOTICE_RULE, NOTICE_TEXT);
    ShortUnlines();
    assert Notice(c) == [""] + [NOTICE_RULE, NOTICE_TEXT];
    UnlinesConcat([""], [NOTICE_RULE, NOTICE_TEXT]);
  }

  /** The lines written so far, and the text they make. */
  ghost predicate Written(out: string, ls: seq<string>) {
    out == Unlines(ls)
  }

  lemma WriteMore(out: string, ls: seq<string>, more: seq<string>)
    requires Written(out, ls)
    ensures Written(out + Unlines(more), ls + more)
  {
    UnlinesConcat(ls, more);
  }

  method Format(c: Creds) returns (out: string)
    ensures out == FormatText(c)
  {
    hide Begin, End, Unlines, Strip, Written;
    ShortUnlines();
    ghost var ls := [VERSION_LINE, ""];
    HeaderText();
    out := VERSION_LINE + "\n\n";
    WrittenAll(out, ls);
    if c.account != "" {
      BlockText(Account, c.account);
      WriteMore(out, ls, Block(Account, c.account));
      out := out + (Begin(Account) + "\n" + Strip(c.account) + "\n" + End(Account) + "\n");
      ls := ls + Block(Account, c.account);
    }
    if c.user != "" {
      if c.account != "" {
        WriteMore(out, ls, [""]);
        out := out + "\n";
        ls := ls + [""];
      }
      BlockText(User, c.user);
      WriteMore(out, ls, Block(User, c.user));
      out := out + (Begin(User) + "\n" + Strip(c.user) + "\n" + End(User) + "\n");
      ls := ls + Block(User, c.user);
    }
    if c.seed != "" {
      WriteMore(out, ls, [""]);
      WriteMore(out + "\n", ls + [""], Block(Seed, c.seed));
      BlockText(Seed, c.seed);
      out := out + "\n" + (Begin(Seed) + "\n" + Strip(c.seed) + "\n" + End(Seed) + "\n");
      ls := ls + [""] + Block(Seed, c.seed);
      WriteMore(out, ls, Notice(c));
      NoticeText(c);
      out := out + ("\n" + (NOTICE_RULE + "\n" + NOTICE_TEXT + "\n"));
      ls := ls + Notice(c);
    }
    assert ls == FormatLines(c);
    WrittenAll(out, ls);
  }

  lemma WrittenAll(out: string, ls: seq<string>)
    ensures Written(out, ls) <==> out == Unlines(ls)
  {
  }

  /** The lines that open and close the sections. */
  lemma BeginText(s: Section)
    ensures Begin(s) == match s
                        case Account => "-----BEGIN VALISS ACCOUNT TOKEN-----"
                        case User => "-----BEGIN VALISS USER TOKEN-----"
                        case Seed => "-----BEGIN VALISS SEED-----"
  {
  }

  lemma EndText(s: Section)
    ensures End(s) == match s
                      case Account => "------END VALISS ACCOUNT TOKEN------"
                      case User => "------END VALISS USER TOKEN------"
                      case Seed => "------END VALISS SEED------"
  {
  }

  // ---- which versions pass -----------------------------------------------------

  ghost predicate IsDecimal(s: string) {
    s != "" && forall i :: 0 <= i < |s| ==> '0' <= s[i] <= '9'
  }

  /** Digits, with at most one sign in front. */
  ghost predicate IsInteger(value: string) {
    IsDecimal(value) || (value != "" && (value[0] == '+' || value[0] == '-') && IsDecimal(value[1..]))
  }

  /** The digit 1 behind any number of zeros. */
  ghost predicate IsOne(s: string) {
    s != "" && s[|s| - 1] == '1' && forall i :: 0 <= i < |s| - 1 ==> s[i] == '0'
  }

  /** The version this parser knows. */
  ghost predicate Supported(value: string) {
    IsOne(value) || (value != "" && value[0] == '+' && IsOne(value[1..]))
  }

  ghost predicate IsZero(s: string) {
    s != "" && forall i :: 0 <= i < |s| ==> s[i] == '0'
  }

  lemma {:induction false} DigitsDecimal(s: string)
    ensures Digits(s).Some? <==> IsDecimal(s)
    decreases |s|
  {
    if |s| > 1 {
      DigitsDecimal(s[..|s| - 1]);
      assert s == s[..|s| - 1] + [s[|s| - 1]];
    }
  }

  lemma {:induction false} DigitsZero(s: string)
    ensures Digits(s) == Some(0) <==> IsZero(s)
    decreases |s|
  {
    if |s| > 1 {
      DigitsZero(s[..|s| - 1]);
      assert s == s[..|s| - 1] + [s[|s| - 1]];
    }
  }

  lemma DigitsOne(s: string)
    ensures Digits(s) == Some(1) <==> IsOne(s)
  {
    if |s| > 1 { DigitsZero(s[..|s| - 1]); }
  }

  /** A value is an integer when it is digits with at most one sign, and the supported
      one is 1, with or without a plus and leading zeros. */
  lemma VersionExactly(value: string)
    ensures Integer(value).Some? <==> IsInteger(value)
    ensures Integer(value) == Some(1) <==> Supported(value)
  {
    hide Digits, IsDecimal, IsOne;
    DigitsDecimal(value);
    DigitsOne(value);
    if value != "" {
      DigitsDecimal(value[1..]);
      DigitsOne(value[1..]);
      if value[0] == '+' || value[0] == '-' { SignNotDigit(value); }
    }
  }

  lemma SignNotDigit(value: string)
    requires value != "" && (value[0] == '+' || value[0] == '-')
    ensures !IsDecimal(value) && !IsOne(value)
  {
  }

  lemma {:induction false} DecimalRead(n: nat)
    ensures Digits(Json.DecimalNat(n)) == Some(n)
    ensures Json.DecimalNat(n) != "" && '0' <= Json.DecimalNat(n)[0] <= '9'
  {
    if n >= 10 {
      DecimalRead(n / 10);
      var s := Json.DecimalNat(n);
      assert s[..|s| - 1] == Json.DecimalNat(n / 10);
    }
  }

  lemma SignedRead(d: string, n: nat)
    requires Digits(d) == Some(n) && d != "" && '0' <= d[0] <= '9'
    ensures Integer(d) == Some(n as int) && Integer("-" + d) == Some(-(n as int)) && Integer("+" + d) == Some(n as int)
  {
    hide Digits;
    assert ("-" + d)[1..] == d && ("+" + d)[1..] == d;
  }

  /** A number printed in decimal is read as itself, with a plus in front as well. */
  lemma DecimalVersion(n: int)
    ensures Integer(Json.Decimal(n)) == Some(n)
    ensures n >= 0 ==> Integer("+" + Json.Decimal(n)) == Some(n)
  {
    var m: nat := if n < 0 then -n else n;
    DecimalRead(m);
    hide Json.DecimalNat, Integer, Digits;
    SignedRead(Json.DecimalNat(m), m);
  }

  // ---- what a file must look like -------------------------------------------------

  /** The text after the marker of a version line. */
  function VersionValue(line: string): string
    requires IsVersionLine(line)
  {
    Strip(Strip(line)[|VERSION_MARKER|..])
  }

  /** Line i is the first version line. */
  ghost predicate FirstVersion(lines: seq<string>, i: nat) {
    && i < |lines| && IsVersionLine(lines[i])
    && forall h :: 0 <= h < i ==> !IsVersionLine(lines[h])
  }

  ghost predicate NoVersion(lines: seq<string>) {
    forall i :: 0 <= i < |lines| ==> !IsVersionLine(lines[i])
  }

  /** The first version line says v. */
  ghost predicate Versioned(lines: seq<string>, v: string) {
    exists i: nat :: FirstVersion(lines, i) && VersionValue(lines[i]) == v
  }

  /** No version line, or a first one that says 1. */
  ghost predicate VersionPasses(lines: seq<string>) {
    NoVersion(lines) || exists v :: Versioned(lines, v) && Supported(v)
  }

  lemma VersionOnce(lines: seq<string>, v: string, w: string)
    requires Versioned(lines, v) && Versioned(lines, w)
    ensures v == w && !NoVersion(lines)
  {
    hide IsVersionLine, VersionValue;
  }

  lemma {:induction false} VersionOfFirst(lines: seq<string>) returns (i: nat)
    ensures if NoVersion(lines) then VersionOf(lines) == Ok(())
            else FirstVersion(lines, i) && VersionOf(lines) == LineVersion(lines[i])
  {
    hide IsVersionLine, LineVersion;
    i := 0;
    if lines != [] && !IsVersionLine(lines[0]) {
      i := VersionOfFirst(lines[1..]);
      assert lines == [lines[0]] + lines[1..];
      i := i + 1;
    }
  }

  lemma VersionOfLine(line: string)
    requires IsVersionLine(line)
    ensures LineVersion(line)
         == if Supported(VersionValue(line)) then Ok(())
            else Err(if IsInteger(VersionValue(line)) then UnsupportedVersion else Malformed)
  {
    hide IsVersionLine, Integer, IsInteger, Supported, Strip;
    VersionExactly(VersionValue(line));
  }

  /** The first version line alone decides: 1 passes, another integer is unsupported,
      anything else malformed. */
  lemma VersionDecides(lines: seq<string>)
    ensures VersionOf(lines).Ok? <==> VersionPasses(lines)
    ensures VersionOf(lines) == Err(UnsupportedVersion) <==>
              exists v :: Versioned(lines, v) && IsInteger(v) && !Supported(v)
    ensures VersionOf(lines) == Err(Malformed) <==> exists v :: Versioned(lines, v) && !IsInteger(v)
    ensures VersionOf(lines).Ok? || VersionOf(lines) in {Err(UnsupportedVersion), Err(Malformed)}
  {
    var i := VersionOfFirst(lines);
    hide IsVersionLine, IsInteger, Supported, LineVersion, VersionValue, VersionOf, Versioned, FirstVersion;
    if NoVersion(lines) {
      forall v ensures !Versioned(lines, v) {
        if Versioned(lines, v) { VersionOnce(lines, v, v); }
      }
    } else {
      VersionAt(lines, i);
      var value := VersionValue(lines[i]);
      VersionOfLine(lines[i]);
      forall v | Versioned(lines, v) ensures v == value {
        VersionOnce(lines, v, value);
      }
      SupportedInteger(value);
    }
  }

  lemma VersionAt(lines: seq<string>, i: nat)
    requires FirstVersion(lines, i)
    ensures i < |lines| && IsVersionLine(lines[i]) && Versioned(lines, VersionValue(lines[i]))
  {
    hide IsVersionLine, VersionValue;
  }

  lemma SupportedInteger(value: string)
    ensures Supported(value) ==> IsInteger(value)
  {
    VersionExactly(value);
    hide Supported, IsInteger;
  }

  ghost predicate NoBegin(lines: seq<string>, s: Section) {
    forall i :: 0 <= i < |lines| ==> Strip(lines[i]) != Begin(s)
  }

  /** From its first begin marker at i to the end marker at j, section s is the one line p
      at k, but for blank lines and begin markers again. */
  ghost predicate Encloses(lines: seq<string>, s: Section, i: nat, k: nat, j: nat, p: string) {
    && i < k < j < |lines| && NoBegin(lines[..i], s)
    && Strip(lines[i]) == Begin(s) && Strip(lines[k]) == p && Strip(lines[j]) == End(s)
    && p != "" && p != Begin(s) && p != End(s)
    && forall m :: i < m < j && m != k ==> Strip(lines[m]) == "" || Strip(lines[m]) == Begin(s)
  }

  /** What the lines hold as section s; "" for a section that is not there. */
  ghost predicate Holds(lines: seq<string>, s: Section, p: string) {
    if p == "" then NoBegin(lines, s) else exists i: nat, k: nat, j: nat :: Encloses(lines, s, i, k, j, p)
  }

  /** Lines that leave an open section as it is. */
  ghost predicate Idle(lines: seq<string>, s: Section) {
    forall m :: 0 <= m < |lines| ==> Strip(lines[m]) == "" || Strip(lines[m]) == Begin(s)
  }

  lemma {:induction false} IdleStays(st: Scan, lines: seq<string>, s: Section)
    requires st.Inside? && Idle(lines, s)
    ensures Fold(st, lines, s) == st
    decreases |lines|
  {
    hide Begin, End, Strip;
    if lines != [] {
      BeginNotBlank(s);
      EndNotBegin(s);
      IdleStays(st, lines[1..], s);
    }
  }

  lemma EndNotBegin(s: Section)
    ensures Begin(s) != End(s) && End(s) != "" && Begin(s) != ""
  {
    BeginShape(s);
    hide Begin, End;
  }

  lemma EnclosedScanned(lines: seq<string>, s: Section, i: nat, k: nat, j: nat, p: string)
    requires Encloses(lines, s, i, k, j, p)
    ensures Scanned(lines, s) == Ok(p)
  {
    hide Begin, End, Strip, Fold;
    EndNotBegin(s);
    OutsideStays(lines[..i], s);
    LastStep(lines[..i], lines[i], s);
    assert lines[..i] + [lines[i]] == lines[..i + 1];
    Further(lines, s, i + 1, k);
    IdleStays(Inside(""), lines[i + 1..k], s);
    LastStep(lines[..k], lines[k], s);
    assert lines[..k] + [lines[k]] == lines[..k + 1];
    Further(lines, s, k + 1, j);
    IdleStays(Inside(p), lines[k + 1..j], s);
    LastStep(lines[..j], lines[j], s);
    assert lines[..j] + [lines[j]] == lines[..j + 1];
    Further(lines, s, j + 1, |lines|);
    FoldAbsorbs(Closed(p), lines[j + 1..|lines|], s);
    assert lines[..|lines|] == lines;
  }

  lemma Further(lines: seq<string>, s: Section, i: nat, j: nat)
    requires i <= j <= |lines|
    ensures Fold(Outside, lines[..j], s) == Fold(Fold(Outside, lines[..i], s), lines[i..j], s)
  {
    assert lines[..j] == lines[..i] + lines[i..j];
    FoldConcat(Outside, lines[..i], lines[i..j], s);
  }

  ghost predicate Started(lines: seq<string>, s: Section, i: nat) {
    i < |lines| && NoBegin(lines[..i], s) && Strip(lines[i]) == Begin(s) && Idle(lines[i + 1..], s)
  }

  ghost predicate Opened(lines: seq<string>, s: Section, i: nat, k: nat, p: string) {
    && i < k < |lines| && NoBegin(lines[..i], s) && Strip(lines[i]) == Begin(s) && Strip(lines[k]) == p
    && p != "" && p != Begin(s) && p != End(s)
    && forall m :: i < m < |lines| && m != k ==> Strip(lines[m]) == "" || Strip(lines[m]) == Begin(s)
  }

  /** How a scan came to its state. */
  ghost predicate Explains(lines: seq<string>, s: Section, st: Scan) {
    match st
    case Outside => NoBegin(lines, s)
    case Inside(p) =>
      if p == "" then exists i: nat :: Started(lines, s, i) else exists i: nat, k: nat :: Opened(lines, s, i, k, p)
    case Closed(p) => exists i: nat, k: nat, j: nat :: Encloses(lines, s, i, k, j, p)
    case Failed => true
  }

  lemma OutsideExplained(lines: seq<string>, line: string, s: Section)
    requires NoBegin(lines, s)
    ensures Explains(lines + [line], s, Step(Outside, line, s))
  {
    hide Begin, End, Strip;
    var more := lines + [line];
    assert more[..|lines|] == lines && more[|lines|] == line && more[|lines| + 1..] == [];
    assert Idle([], s);
    if Strip(line) == Begin(s) { assert Started(more, s, |lines|); }
  }

  lemma StartedExplained(lines: seq<string>, line: string, s: Section, i: nat)
    requires Started(lines, s, i)
    ensures Explains(lines + [line], s, Step(Inside(""), line, s))
  {
    hide Begin, End, Strip;
    var more, t := lines + [line], Strip(line);
    assert more[..i] == lines[..i] && more[|lines|] == line;
    assert forall m :: i < m < |lines| ==> more[m] == lines[m] == lines[i + 1..][m - i - 1];
    if t == "" || t == Begin(s) {
      assert more[i + 1..] == lines[i + 1..] + [line];
      assert Started(more, s, i);
    } else if t != End(s) {
      assert Opened(more, s, i, |lines|, t);
    }
  }

  lemma OpenedExplained(lines: seq<string>, line: string, s: Section, i: nat, k: nat, p: string)
    requires Opened(lines, s, i, k, p)
    ensures Explains(lines + [line], s, Step(Inside(p), line, s))
  {
    hide Begin, End, Strip;
    var more, t := lines + [line], Strip(line);
    assert more[..i] == lines[..i] && more[|lines|] == line;
    if t == End(s) && t != Begin(s) {
      assert Encloses(more, s, i, k, |lines|, p);
    } else if t == "" || t == Begin(s) {
      assert Opened(more, s, i, k, p);
    }
  }

  lemma ClosedExplained(lines: seq<string>, line: string, s: Section, i: nat, k: nat, j: nat, p: string)
    requires Encloses(lines, s, i, k, j, p)
    ensures Explains(lines + [line], s, Step(Closed(p), line, s))
  {
    hide Begin, End, Strip;
    var more := lines + [line];
    assert more[..i] == lines[..i];
    assert Encloses(more, s, i, k, j, p);
  }

  lemma {:induction false} ScanExplained(lines: seq<string>, s: Section)
    ensures Explains(lines, s, Fold(Outside, lines, s))
  {
    if lines != [] {
      var whole, line := lines[..|lines| - 1], lines[|lines| - 1];
      ScanExplained(whole, s);
      LastStep(whole, line, s);
      assert lines == whole + [line];
      hide Begin, End, Strip, Fold, Step, Started, Opened, Encloses, NoBegin;
      match Fold(Outside, whole, s)
      case Outside => OutsideExplained(whole, line, s);
      case Inside(p) =>
        if p == "" {
          var i: nat :| Started(whole, s, i);
          StartedExplained(whole, line, s, i);
        } else {
          var i: nat, k: nat :| Opened(whole, s, i, k, p);
          OpenedExplained(whole, line, s, i, k, p);
        }
      case Closed(p) =>
        var i: nat, k: nat, j: nat :| Encloses(whole, s, i, k, j, p);
        ClosedExplained(whole, line, s, i, k, j, p);
      case Failed => FailedStays(line, s);
    }
  }

  lemma FailedStays(line: string, s: Section)
    ensures Step(Failed, line, s) == Failed
  {
  }

  /** The scanner returns exactly what the lines hold, and calls everything else
      malformed. */
  lemma SectionExactly(lines: seq<string>, s: Section, p: string)
    ensures Scanned(lines, s) == Ok(p) <==> Holds(lines, s, p)
    ensures Scanned(lines, s).Err? ==> Scanned(lines, s).reason == Malformed
  {
    hide Begin, End, Strip, Fold, Encloses, NoBegin;
    ScanExplained(lines, s);
    if p == "" {
      if NoBegin(lines, s) { OutsideStays(lines, s); }
      forall i: nat, k: nat, j: nat | Encloses(lines, s, i, k, j, p) ensures false {
        PayloadNonempty(lines, s, i, k, j, p);
      }
    } else if exists i: nat, k: nat, j: nat :: Encloses(lines, s, i, k, j, p) {
      var i: nat, k: nat, j: nat :| Encloses(lines, s, i, k, j, p);
      EnclosedScanned(lines, s, i, k, j, p);
    }
  }

  lemma PayloadNonempty(lines: seq<string>, s: Section, i: nat, k: nat, j: nat, p: string)
    requires Encloses(lines, s, i, k, j, p)
    ensures p != ""
  {
  }

  /** A file parses to c exactly when its version passes, each section holds c's field,
      and one of the two tokens is there. */
  lemma ParsedExactly(contents: string, c: Creds)
    ensures var lines := SplitLines(contents);
            ParseText(contents) == Ok(c) <==>
              && VersionPasses(lines) && (c.account != "" || c.user != "")
              && Holds(lines, Account, c.account) && Holds(lines, User, c.user) && Holds(lines, Seed, c.seed)
  {
    hide Scanned, VersionOf, Holds, VersionPasses;
    var lines := SplitLines(contents);
    VersionDecides(lines);
    SectionExactly(lines, Account, c.account);
    SectionExactly(lines, User, c.user);
    SectionExactly(lines, Seed, c.seed);
  }

  /** A file of another version is refused as such whatever it holds; otherwise one
      without token markers lacks its tokens, and every other refusal is malformed. */
  lemma RefusedExactly(contents: string)
    ensures var lines := SplitLines(contents);
            && (ParseText(contents) == Err(UnsupportedVersion) <==>
                  exists v :: Versioned(lines, v) && IsInteger(v) && !Supported(v))
            && (ParseText(contents) == Err(Missing) <==>
                  VersionPasses(lines) && NoBegin(lines, Account) && NoBegin(lines, User))
            && (|| ParseText(contents).Ok?
                || ParseText(contents) in {Err(UnsupportedVersion), Err(Missing), Err(Malformed)})
  {
    hide Scanned, VersionOf, VersionPasses, Versioned, IsInteger, Supported, NoBegin;
    var lines := SplitLines(contents);
    VersionDecides(lines);
    SectionExactly(lines, Account, "");
    SectionExactly(lines, User, "");
    SectionExactly(lines, Seed, "");
  }

  // ---- noise -----------------------------------------------------------------

  /** A line no section scan reacts to: blank, or outside every section and no begin
      marker. */
  ghost predicate PassedOver(before: seq<string>, line: string) {
    Strip(line) == "" || forall s :: Strip(line) != Begin(s) && !Fold(Outside, before, s).Inside?
  }

  /** A line the parser passes over: no version line either. */
  ghost predicate Ignorable(before: seq<string>, line: string) {
    !IsVersionLine(line) && PassedOver(before, line)
  }

  lemma BeginNotBlank(s: Section)
    ensures Begin(s) != "" && End(s) != ""
  {
  }

  lemma {:induction false} VersionSkips(a: seq<string>, line: string, b: seq<string>)
    requires !IsVersionLine(line)
    ensures VersionOf(a + [line] + b) == VersionOf(a + b)
  {
    if a == [] {
      assert [] + [line] + b == [line] + b && ([line] + b)[1..] == b && [] + b == b;
    } else {
      assert (a + [line] + b)[1..] == a[1..] + [line] + b && (a + b)[1..] == a[1..] + b;
      VersionSkips(a[1..], line, b);
    }
  }

  lemma SectionSkips(a: seq<string>, line: string, b: seq<string>, s: Section)
    requires PassedOver(a, line)
    ensures Scanned(a + [line] + b, s) == Scanned(a + b, s)
  {
    hide Begin, End, IsVersionLine;
    BeginNotBlank(s);
    var st := Fold(Outside, a, s);
    FoldConcat(Outside, a, b, s);
    FoldConcat(Outside, a + [line], b, s);
    FoldConcat(Outside, a, [line], s);
    assert Fold(st, [line], s) == Fold(Step(st, line, s), [], s) == Step(st, line, s);
    assert Strip(line) != Begin(s) && Step(st, line, s) == st;
  }

  lemma LinesIgnore(x: seq<string>, line: string, y: seq<string>)
    requires Ignorable(x, line)
    ensures ParseLines(x + [line] + y) == ParseLines(x + y)
  {
    hide Begin, End, Fold, Step, Scanned, VersionOf, PassedOver, IsVersionLine;
    VersionSkips(x, line, y);
    SectionSkips(x, line, y, Account);
    SectionSkips(x, line, y, User);
    SectionSkips(x, line, y, Seed);
  }

  /** Such a line can be inserted between any two lines of any file without changing
      what the parser returns. */
  lemma NoiseImmunity(a: string, line: string, b: string)
    requires OneLine(line) && Ignorable(SplitLines(a), line)
    ensures ParseText(a + "\n" + line + "\n" + b) == ParseText(a + "\n" + b)
  {
    hide ParseLines, Ignorable;
    var x, y := SplitLines(a), SplitLines(b);
    SplitAt(a + "\n" + line, b);
    SplitAt(a, line);
    SplitOneLine(line);
    SplitAt(a, b);
    assert SplitLines(a + "\n" + line + "\n" + b) == x + [line] + y;
    assert SplitLines(a + "\n" + b) == x + y;
    LinesIgnore(x, line, y);
  }

  /** Nor does one put before the first line. */
  lemma NoiseFirst(line: string, b: string)
    requires OneLine(line) && Ignorable([], line)
    ensures ParseText(line + "\n" + b) == ParseText(b)
  {
    hide ParseLines, Ignorable;
    SplitAt(line, b);
    SplitOneLine(line);
    LinesIgnore([], line, SplitLines(b));
    assert [] + [line] + SplitLines(b) == [line] + SplitLines(b) && [] + SplitLines(b) == SplitLines(b);
  }

  /** Nor one after the last line, whether or not a newline ended it. */
  lemma NoiseLast(a: string, line: string)
    requires OneLine(line) && Ignorable(SplitLines(a), line)
    ensures ParseText(a + "\n" + line) == ParseText(a)
  {
    hide ParseLines, Ignorable;
    SplitAt(a, line);
    SplitOneLine(line);
    LinesIgnore(SplitLines(a), line, []);
    assert SplitLines(a) + [line] + [] == SplitLines(a) + [line] && SplitLines(a) + [] == SplitLines(a);
  }

  lemma BundleLines(v: string, a: string, b: string, c: string, d: string, e: string, f: string, g: string, h: string,
                    i: string, n: string, m: string)
    ensures [v, ""] + [a, b, c] + [""] + [d, e, f] + [""] + [g, h, i] + ["", n, m]
         == [v, "", a, b, c, "", d, e, f, "", g, h, i, "", n, m]
  {
  }

  /** The file of a bundle, line by line. */
  lemma BundleFile(account: string, user: string, seed: string)
    requires account != "" && user != "" && seed != ""
    ensures FormatText(Creds(account, user, seed)) == Unlines(
      [VERSION_LINE, "", Begin(Account), Strip(account), End(Account), "", Begin(User), Strip(user), End(User), "",
       Begin(Seed), Strip(seed), End(Seed), "", NOTICE_RULE, NOTICE_TEXT])
  {
    hide Begin, End, Strip, Unlines;
    BundleLines(VERSION_LINE, Begin(Account), Strip(account), End(Account), Begin(User), Strip(user), End(User),
                Begin(Seed), Strip(seed), End(Seed), NOTICE_RULE, NOTICE_TEXT);
  }

  lemma UserLines(v: string, d: string, e: string, f: string, g: string, h: string, i: string, n: string, m: string)
    ensures [v, ""] + [] + [] + [d, e, f] + [] + [] + [] == [v, "", d, e, f]
    ensures [v, ""] + [] + [] + [d, e, f] + [""] + [g, h, i] + ["", n, m]
         == [v, "", d, e, f, "", g, h, i, "", n, m]
  {
  }

  /** A user's file without the account token, with a seed or, a bearer's, without. */
  lemma UserFile(user: string, seed: string)
    requires user != ""
    ensures FormatText(Creds("", user, seed)) == Unlines(
      if seed == "" then
        [VERSION_LINE, "", Begin(User), Strip(user), End(User)]
      else
        [VERSION_LINE, "", Begin(User), Strip(user), End(User), "", Begin(Seed), Strip(seed), End(Seed), "",
         NOTICE_RULE, NOTICE_TEXT])
  {
    hide Begin, End, Strip, Unlines;
    UserLines(VERSION_LINE, Begin(User), Strip(user), End(User), Begin(Seed), Strip(seed), End(Seed), NOTICE_RULE,
              NOTICE_TEXT);
  }

  /** The printer strips its fields: spaces around them never reach the file. */
  lemma FormatStrips(c: Creds)
    requires c.account == "" <==> Strip(c.account) == ""
    requires c.user == "" <==> Strip(c.user) == ""
    requires c.seed == "" <==> Strip(c.seed) == ""
    ensures FormatText(c) == FormatText(Creds(Strip(c.account), Strip(c.user), Strip(c.seed)))
  {
    hide Unlines, Begin, End;
  }

  // ---- the version line of a file -----------------------------------------------

  function VersionLine(n: int): string {
    VERSION_MARKER + " " + Json.Decimal(n)
  }

  lemma VersionLineSays(n: int)
    ensures OneLine(VersionLine(n)) && IsVersionLine(VersionLine(n)) && VersionLine(n)[0] == 'V'
    ensures LineVersion(VersionLine(n)) == if n == 1 then Ok(()) else Err(UnsupportedVersion)
    ensures Trimmed(VersionLine(n)) && VersionLine(1) == "VALISS-CREDS-VERSION: 1"
  {
    var d, line := Json.Decimal(n), VersionLine(n);
    DecimalText(n);
    DecimalVersion(n);
    hide Json.Decimal, Integer;
    assert Strip(line) == line;
    StripSurrounded(" ", d, "");
    assert line[|VERSION_MARKER|..] == " " + d + "";
  }

  lemma DecimalText(n: int)
    ensures Json.Decimal(n) != "" && OneLine(Json.Decimal(n)) && Trimmed(Json.Decimal(n)) && Json.Decimal(1) == "1"
    ensures '0' <= Json.Decimal(n)[|Json.Decimal(n)| - 1] <= '9'
  {
    Json.DecimalDigits(if n < 0 then -n else n);
    assert Json.DecimalNat(1) == "1";
    hide Json.DecimalNat;
  }

  lemma VersionLeads(x: seq<string>, line: string, y: seq<string>)
    requires NoVersion(x) && IsVersionLine(line)
    ensures VersionOf(x + [line] + y) == LineVersion(line)
  {
    hide IsVersionLine, LineVersion;
    if x == [] {
      assert [] + [line] + y == [line] + y;
    } else {
      assert (x + [line] + y)[1..] == x[1..] + [line] + y;
      VersionLeads(x[1..], line, y);
    }
  }

  lemma {:induction false} NoVersionOk(lines: seq<string>)
    requires NoVersion(lines)
    ensures VersionOf(lines) == Ok(())
  {
    hide IsVersionLine;
    if lines != [] { NoVersionOk(lines[1..]); }
  }

  lemma LinesVersioned(x: seq<string>, n: int, y: seq<string>)
    requires NoVersion(x)
    ensures n != 1 ==> ParseLines(x + [VersionLine(n)] + y) == Err(UnsupportedVersion)
    ensures n == 1 && NoVersion(y) && PassedOver(x, VersionLine(1)) ==>
              ParseLines(x + [VersionLine(n)] + y) == ParseLines(x + y)
  {
    hide Scanned, VersionOf, VersionLine, PassedOver, IsVersionLine;
    VersionLineSays(n);
    VersionLeads(x, VersionLine(n), y);
    if n == 1 && NoVersion(y) && PassedOver(x, VersionLine(1)) {
      NoVersionOk(x + y);
      SectionSkips(x, VersionLine(1), y, Account);
      SectionSkips(x, VersionLine(1), y, User);
      SectionSkips(x, VersionLine(1), y, Seed);
    }
  }

  /** When the first version line says n, a file with n other than 1 is refused whatever
      it holds, and with 1, outside the sections, it parses as without that line. */
  lemma VersionedFile(a: string, n: int, b: string)
    requires NoVersion(SplitLines(a))
    ensures var text := a + "\n" + VersionLine(n) + "\n" + b;
            && (n != 1 ==> ParseText(text) == Err(UnsupportedVersion))
            && (n == 1 && NoVersion(SplitLines(b)) && PassedOver(SplitLines(a), VersionLine(1)) ==>
                  ParseText(text) == ParseText(a + "\n" + b))
  {
    hide ParseLines, PassedOver, VersionLine, NoVersion;
    var line := VersionLine(n);
    VersionLineSays(n);
    SplitAt(a + "\n" + line, b);
    SplitAt(a, line);
    SplitOneLine(line);
    SplitAt(a, b);
    LinesVersioned(SplitLines(a), n, SplitLines(b));
    assert SplitLines(a + "\n" + line + "\n" + b) == SplitLines(a) + [line] + SplitLines(b);
  }

  lemma FirstLineSplit(line: string, b: string)
    requires OneLine(line)
    ensures SplitLines(line + "\n" + b) == [] + [line] + SplitLines(b)
    ensures [] + SplitLines(b) == SplitLines(b)
  {
    SplitAt(line, b);
    SplitOneLine(line);
  }

  /** So it is when the version line comes first. */
  lemma VersionedFirst(n: int, b: string)
    ensures var text := VersionLine(n) + "\n" + b;
            && (n != 1 ==> ParseText(text) == Err(UnsupportedVersion))
            && (n == 1 && NoVersion(SplitLines(b)) ==> ParseText(text) == ParseText(b))
  {
    hide ParseLines, VersionLine, PassedOver, IsVersionLine, OneLine, LineVersion, Trimmed, SplitLines;
    VersionLineSays(n);
    FirstLineSplit(VersionLine(n), b);
    LinesVersioned([], n, SplitLines(b));
    if n == 1 { FirstPassedOver(); }
  }

  lemma FirstPassedOver()
    ensures PassedOver([], VersionLine(1))
  {
    VersionLineSays(1);
    hide VersionLine;
    forall s: Section ensures Begin(s)[0] == '-' {
    }
  }

  // ---- round trip --------------------------------------------------------------

  function Order(s: Section): nat {
    match s case Account => 0 case User => 1 case Seed => 2
  }

  /** What the scanner can return for a section: one trimmed line that is not one
      of the section's own markers. */
  predicate Clean(field: string, s: Section) {
    Trimmed(field) && OneLine(field) && field != Begin(s) && field != End(s)
  }

  /** The field of section i would open section s before s is closed. */
  predicate Clashes(c: Creds, i: Section, s: Section) {
    Field(c, i) == Begin(s) && (Field(c, s) == "" || Order(i) < Order(s))
  }

  predicate NoClash(c: Creds, s: Section) {
    !Clashes(c, Account, s) && !Clashes(c, User, s) && !Clashes(c, Seed, s)
  }

  predicate AllClean(c: Creds) {
    Clean(c.account, Account) && Clean(c.user, User) && Clean(c.seed, Seed)
  }

  predicate Storable(c: Creds) {
    && (c.account != "" || c.user != "")
    && AllClean(c)
    && NoClash(c, Account) && NoClash(c, User) && NoClash(c, Seed)
  }

  ghost predicate PayloadShape(st: Scan, s: Section) {
    match st
    case Inside(p) => Clean(p, s)
    case Closed(p) => Clean(p, s) && p != ""
    case _ => true
  }

  lemma {:induction false} FoldShape(st: Scan, lines: seq<string>, s: Section)
    requires OneLines(lines) && PayloadShape(st, s)
    ensures PayloadShape(Fold(st, lines, s), s)
    decreases |lines|
  {
    if lines != [] {
      hide Begin, End;
      BeginNotBlank(s);
      FoldShape(Step(st, lines[0], s), lines[1..], s);
    }
  }

  lemma SectionClean(lines: seq<string>, s: Section)
    requires OneLines(lines) && Scanned(lines, s).Ok?
    ensures Clean(Scanned(lines, s).value, s)
  {
    hide Begin, End;
    BeginNotBlank(s);
    FoldShape(Outside, lines, s);
  }

  /** Distinct, trimmed, one line each. */
  lemma Markers(i: Section, s: Section)
    ensures Begin(i) != "" && End(i) != "" && Trimmed(Begin(i)) && Trimmed(End(i))
    ensures OneLine(Begin(i)) && OneLine(End(i))
    ensures Begin(i) != End(s)
    ensures i != s ==> Begin(i) != Begin(s) && End(i) != End(s)
  {
    BeginShape(i);
    BeginShape(s);
    hide Begin, End;
    assert i != s ==> |Name(i)| != |Name(s)|;
  }

  lemma BeginShape(s: Section)
    ensures |Begin(s)| == |End(s)| == 23 + |Name(s)|
    ensures Begin(s)[5] == 'B' && End(s)[5] == '-'
    ensures Trimmed(Begin(s)) && Trimmed(End(s)) && OneLine(Begin(s)) && OneLine(End(s))
  {
    assert |"-----BEGIN VALISS "| == 18 && |"------END VALISS "| == 17;
  }

  /** The state of section s's scan after the block of section i. */
  function AfterBlock(st: Scan, c: Creds, i: Section, s: Section): Scan {
    var f := Field(c, i);
    if f == "" then st
    else match st
      case Closed(_) => st
      case Failed => st
      case Inside(_) => Failed
      case Outside => if i == s then Closed(f) else if f == Begin(s) then Inside(End(i)) else Outside
  }

  predicate Engaged(st: Scan) {
    st.Inside? ==> st.payload != ""
  }

  lemma BlockScan(st: Scan, c: Creds, i: Section, s: Section)
    requires Clean(Field(c, i), i) && Engaged(st)
    ensures Fold(st, Block(i, Field(c, i)), s) == AfterBlock(st, c, i, s)
    ensures Engaged(AfterBlock(st, c, i, s))
  {
    hide Begin, End, Strip;
    Markers(i, s);
    Markers(s, i);
    var f := Field(c, i);
    if f != "" {
      var a := Step(st, Begin(i), s);
      var b := Step(a, f, s);
      assert Block(i, f)[1..] == [f, End(i)] && [f, End(i)][1..] == [End(i)];
      assert [End(i)][1..] == [];
      assert Fold(b, [End(i)], s) == Step(b, End(i), s);
      assert Fold(a, [f, End(i)], s) == Step(b, End(i), s);
    }
  }

  /** A line no scanner outside its section reacts to. */
  predicate Plain(line: string) {
    Strip(line) != "" && forall s: Section :: Strip(line) != Begin(s) && Strip(line) != End(s)
  }

  lemma FixedLines(s: Section)
    ensures Plain(VERSION_LINE) && Plain(NOTICE_RULE) && Plain(NOTICE_TEXT) && Strip("") == ""
    ensures OneLine(VERSION_LINE) && OneLine(NOTICE_RULE) && OneLine(NOTICE_TEXT)
  {
    assert Trimmed(VERSION_LINE) && VERSION_LINE[0] == 'V';
    NoticeFacts();
    forall t: Section ensures Begin(t)[0] == '-' && End(t)[0] == '-' {
    }
  }

  lemma NoticeFacts()
    ensures NOTICE_RULE != "" && Trimmed(NOTICE_RULE) && NOTICE_RULE[0] == '*' && OneLine(NOTICE_RULE)
    ensures NOTICE_TEXT != "" && Trimmed(NOTICE_TEXT) && NOTICE_TEXT[0] == 'S' && OneLine(NOTICE_TEXT)
  {
    assert |STARS| == 25;
    assert NOTICE_RULE[|NOTICE_RULE| - 1] == STARS[24];
    assert " Keep it secret."[15] == '.';
  }

  /** The state after the seed notice. */
  function AfterNotice(st: Scan, c: Creds): Scan {
    if c.seed != "" && st.Inside? then Failed else st
  }

  lemma NoticeScan(st: Scan, c: Creds, s: Section)
    requires Engaged(st)
    ensures Fold(st, Notice(c), s) == AfterNotice(st, c)
  {
    FixedLines(s);
    hide Begin, End, Strip, Plain;
    PlainStep(st, NOTICE_RULE, s);
    PlainStep(Step(st, NOTICE_RULE, s), NOTICE_TEXT, s);
    BlankStep(st, s);
    if c.seed != "" {
      var st1 := Step(st, NOTICE_RULE, s);
      var st2 := Step(st1, NOTICE_TEXT, s);
      assert Fold(st1, [NOTICE_TEXT], s) == st2 by { assert [NOTICE_TEXT][1..] == []; }
      assert Fold(st, [NOTICE_RULE, NOTICE_TEXT], s) == st2 by {
        assert [NOTICE_RULE, NOTICE_TEXT][1..] == [NOTICE_TEXT];
      }
      assert Notice(c)[1..] == [NOTICE_RULE, NOTICE_TEXT];
    }
  }

  lemma PlainStep(st: Scan, line: string, s: Section)
    requires Plain(line) && Engaged(st)
    ensures Step(st, line, s) == if st.Inside? then Failed else st
  {
  }

  lemma BlankStep(st: Scan, s: Section)
    ensures Step(st, "", s) == st && Fold(st, [""], s) == st && Fold(st, [], s) == st
  {
  }

  lemma HeaderScan(s: Section)
    ensures Fold(Outside, [VERSION_LINE, ""], s) == Outside
  {
    FixedLines(s);
    hide Begin, End, Strip, Plain;
    PlainStep(Outside, VERSION_LINE, s);
    BlankStep(Outside, s);
    assert [VERSION_LINE, ""][1..] == [""];
  }

  /** The scan of a whole file, block by block. */
  function FileScan(c: Creds, s: Section): Scan {
    AfterNotice(
      AfterBlock(AfterBlock(AfterBlock(Outside, c, Account, s), c, User, s), c, Seed, s), c)
  }

  lemma FormatScan(c: Creds, s: Section)
    requires AllClean(c)
    ensures Fold(Outside, FormatLines(c) + [""], s) == FileScan(c, s)
  {
    hide Begin, End, Strip, Clean, Block, Notice, AfterBlock, Fold, AfterNotice;
    var header := [VERSION_LINE, ""];
    var gap1 := if c.user != "" && c.account != "" then [""] else [];
    var gap2 := if c.seed != "" then [""] else [];
    var b1, b2, b3 := Block(Account, c.account), Block(User, c.user), Block(Seed, c.seed);
    var st1 := AfterBlock(Outside, c, Account, s);
    var st2 := AfterBlock(st1, c, User, s);
    var st3 := AfterBlock(st2, c, Seed, s);
    HeaderScan(s);
    BlockScan(Outside, c, Account, s);
    BlankStep(st1, s);
    BlockScan(st1, c, User, s);
    BlankStep(st2, s);
    BlockScan(st2, c, Seed, s);
    NoticeScan(st3, c, s);
    BlankStep(AfterNotice(st3, c), s);
    FoldConcat(Outside, header, b1, s);
    FoldConcat(Outside, header + b1, gap1, s);
    FoldConcat(Outside, header + b1 + gap1, b2, s);
    FoldConcat(Outside, header + b1 + gap1 + b2, gap2, s);
    FoldConcat(Outside, header + b1 + gap1 + b2 + gap2, b3, s);
    FoldConcat(Outside, header + b1 + gap1 + b2 + gap2 + b3, Notice(c), s);
    FoldConcat(Outside, FormatLines(c), [""], s);
  }

  lemma FormatIsLines(c: Creds)
    requires AllClean(c)
    ensures SplitLines(FormatText(c)) == FormatLines(c) + [""]
  {
    hide Block, Notice, OneLines, AllClean;
    var gap1 := if c.user != "" && c.account != "" then [""] else [];
    var gap2 := if c.seed != "" then [""] else [];
    var b1, b2, b3 := Block(Account, c.account), Block(User, c.user), Block(Seed, c.seed);
    BlockOneLines(c, Account);
    BlockOneLines(c, User);
    BlockOneLines(c, Seed);
    FixedOneLines(c);
    var ls := [VERSION_LINE, ""];
    OneLinesConcat(ls, b1);
    OneLinesConcat(ls + b1, gap1);
    OneLinesConcat(ls + b1 + gap1, b2);
    OneLinesConcat(ls + b1 + gap1 + b2, gap2);
    OneLinesConcat(ls + b1 + gap1 + b2 + gap2, b3);
    OneLinesConcat(ls + b1 + gap1 + b2 + gap2 + b3, Notice(c));
    SplitUnlines(FormatLines(c));
  }

  lemma BlockOneLines(c: Creds, s: Section)
    requires AllClean(c)
    ensures OneLines(Block(s, Field(c, s)))
  {
    hide Begin, End, OneLine;
    Markers(s, s);
  }

  lemma FixedOneLines(c: Creds)
    ensures OneLines([VERSION_LINE, ""]) && OneLines([""]) && OneLines([]) && OneLines(Notice(c))
  {
    hide Begin, End, Plain;
    FixedLines(Account);
  }

  lemma FormatVersion(rest: seq<string>)
    ensures VersionOf([VERSION_LINE] + rest) == Ok(())
  {
  }

  lemma ParseOfFormat(c: Creds)
    requires AllClean(c)
    ensures ParseText(FormatText(c)) ==
            (var a, u, s := Outcome(FileScan(c, Account)), Outcome(FileScan(c, User)), Outcome(FileScan(c, Seed));
             if a.Err? then Err(a.reason) else if u.Err? then Err(u.reason)
             else if a.value == "" && u.value == "" then Err(Missing)
             else if s.Err? then Err(s.reason) else Ok(Creds(a.value, u.value, s.value)))
  {
    hide FormatLines, Fold, FileScan, VersionOf;
    FormatIsLines(c);
    FormatScan(c, Account);
    FormatScan(c, User);
    FormatScan(c, Seed);
    FormatHead(c);
  }

  lemma FormatHead(c: Creds)
    ensures VersionOf(FormatLines(c) + [""]) == Ok(())
  {
    hide Block, VersionOf;
    var ls := FormatLines(c) + [""];
    assert ls == [VERSION_LINE] + ls[1..];
    FormatVersion(ls[1..]);
  }

  lemma ParsedClean(contents: string)
    requires ParseText(contents).Ok?
    ensures AllClean(ParseText(contents).value)
  {
    hide Begin, End, Fold, Clean;
    SectionClean(SplitLines(contents), Account);
    SectionClean(SplitLines(contents), User);
    SectionClean(SplitLines(contents), Seed);
  }

  /** Printing and parsing gives the credentials back exactly when they are
      storable: a token is present, every field is a clean line, and none would
      open another section too early. */
  lemma RoundTrip(c: Creds)
    ensures ParseText(FormatText(c)) == Ok(c) <==> Storable(c)
  {
    hide ParseText, FormatText, FileScan, Clean, Clashes;
    if AllClean(c) {
      ParseOfFormat(c);
      StorableScan(c, Account);
      StorableScan(c, User);
      StorableScan(c, Seed);
      assert c == Creds(Field(c, Account), Field(c, User), Field(c, Seed));
    } else if ParseText(FormatText(c)).Ok? {
      ParsedClean(FormatText(c));
    }
  }

  lemma StorableScan(c: Creds, s: Section)
    requires AllClean(c)
    ensures Outcome(FileScan(c, s)) == Ok(Field(c, s)) <==> NoClash(c, s)
  {
    forall i ensures Begin(i) != "" && (i != s ==> Begin(i) != Begin(s)) {
      Markers(i, s);
    }
    hide Begin, End;
  }

  // ---- truncation ---------------------------------------------------------------

  lemma {:induction false} OutsideStays(lines: seq<string>, s: Section)
    requires NoBegin(lines, s)
    ensures Fold(Outside, lines, s) == Outside
    decreases |lines|
  {
    if lines != [] { OutsideStays(lines[1..], s); }
  }

  /** A scan over a truncated file can only close the section on its whole field. */
  ghost predicate ClosesOn(st: Scan, field: string) {
    st.Closed? ==> field != "" && st.payload == field
  }

  lemma CutAbsent(lines: seq<string>, cut: seq<string>, k: nat, m: nat, s: Section, field: string)
    requires CutAt(lines, cut, k, m) && NoBegin(lines, s)
    ensures ClosesOn(Fold(Outside, cut, s), field)
  {
    hide Begin, End;
    OutsideStays(lines[..k], s);
    LastStep(lines[..k], lines[k][..m], s);
  }

  lemma LastStep(whole: seq<string>, part: string, s: Section)
    ensures Fold(Outside, whole + [part], s) == Step(Fold(Outside, whole, s), part, s)
  {
    hide Begin, End, Step;
    FoldConcat(Outside, whole, [part], s);
    assert [part][1..] == [];
  }

  /** The lines of a file around the block of one section. */
  ghost predicate Around(lines: seq<string>, s: Section, pre: seq<string>, field: string, post: seq<string>) {
    && field != "" && Clean(field, s)
    && NoBegin(pre, s)
    && lines == pre + [Begin(s), field, End(s)] + post
  }

  lemma BlockStates(pre: seq<string>, s: Section, field: string)
    requires field != "" && Clean(field, s) && NoBegin(pre, s)
    ensures Fold(Outside, pre + [Begin(s)], s) == Inside("")
    ensures Fold(Outside, pre + [Begin(s), field], s) == Inside(field)
    ensures Fold(Outside, pre + [Begin(s), field, End(s)], s) == Closed(field)
  {
    Markers(s, s);
    hide Begin, End, Strip;
    OutsideStays(pre, s);
    LastStep(pre, Begin(s), s);
    LastStep(pre + [Begin(s)], field, s);
    LastStep(pre + [Begin(s), field], End(s), s);
    assert pre + [Begin(s)] + [field] == pre + [Begin(s), field];
    assert pre + [Begin(s), field] + [End(s)] == pre + [Begin(s), field, End(s)];
  }

  /** The scan over the whole lines before line k. */
  lemma StateAt(lines: seq<string>, k: nat, s: Section, pre: seq<string>, field: string, post: seq<string>)
    requires Around(lines, s, pre, field, post) && k <= |lines|
    ensures Fold(Outside, lines[..k], s)
         == if k <= |pre| then Outside
            else if k == |pre| + 1 then Inside("")
            else if k == |pre| + 2 then Inside(field)
            else Closed(field)
  {
    hide Begin, End, Strip, Fold, Clean, Step;
    BlockStates(pre, s, field);
    var b, e, whole := Begin(s), End(s), lines[..k];
    if k <= |pre| {
      assert whole == pre[..k];
      OutsideStays(whole, s);
    } else if k == |pre| + 1 {
      assert whole == pre + [b];
    } else if k == |pre| + 2 {
      assert whole == pre + [b, field];
    } else {
      assert whole == pre + [b, field, e] + lines[|pre| + 3..k];
      FoldConcat(Outside, pre + [b, field, e], lines[|pre| + 3..k], s);
      FoldAbsorbs(Closed(field), lines[|pre| + 3..k], s);
    }
  }

  lemma CutPresent(lines: seq<string>, cut: seq<string>, k: nat, m: nat, s: Section,
                   pre: seq<string>, field: string, post: seq<string>)
    requires CutAt(lines, cut, k, m) && Around(lines, s, pre, field, post)
    ensures ClosesOn(Fold(Outside, cut, s), field)
  {
    hide Begin, End, Strip, Fold;
    StateAt(lines, k, s, pre, field, post);
    LastStep(lines[..k], lines[k][..m], s);
  }

  lemma NoBeginConcat(a: seq<string>, b: seq<string>, s: Section)
    ensures NoBegin(a + b, s) <==> NoBegin(a, s) && NoBegin(b, s)
  {
    hide Begin, Strip;
    assert NoBegin(a + b, s) ==> forall i :: 0 <= i < |a| ==> a[i] == (a + b)[i];
    assert NoBegin(a + b, s) ==> forall i :: 0 <= i < |b| ==> b[i] == (a + b)[|a| + i];
  }

  lemma BlockNoBegin(c: Creds, i: Section, s: Section)
    requires AllClean(c) && i != s && Field(c, i) != Begin(s)
    ensures NoBegin(Block(i, Field(c, i)), s)
  {
    Markers(i, s);
    Markers(s, i);
    hide Begin, End, Strip;
  }

  lemma FixedNoBegin(c: Creds, s: Section)
    ensures NoBegin([VERSION_LINE, ""], s) && NoBegin([""], s) && NoBegin([], s) && NoBegin(Notice(c), s)
  {
    FixedLines(s);
    BeginNotBlank(s);
    hide Begin, End, Strip;
  }

  /** What precedes the block of a section. */
  function Before(c: Creds, s: Section): seq<string> {
    var header := [VERSION_LINE, ""];
    if s == Account then header
    else
      var pre := header + Block(Account, c.account) + (if c.user != "" && c.account != "" then [""] else []);
      if s == User then pre
      else pre + Block(User, c.user) + (if c.seed != "" then [""] else [])
  }

  function Behind(c: Creds, s: Section): seq<string> {
    var tail := Notice(c) + [""];
    if s == Seed then tail
    else
      var post := (if c.seed != "" then [""] else []) + Block(Seed, c.seed) + tail;
      if s == User then post
      else (if c.user != "" && c.account != "" then [""] else []) + Block(User, c.user) + post
  }

  lemma FormatAround(c: Creds, s: Section)
    ensures FormatLines(c) + [""] == Before(c, s) + Block(s, Field(c, s)) + Behind(c, s)
  {
    hide Block, Notice;
    match s
    case Account =>
    case User =>
    case Seed =>
  }

  lemma BeforeNoBegin(c: Creds, s: Section)
    requires Storable(c)
    ensures NoBegin(Before(c, s), s)
  {
    hide Begin, Block, NoBegin, Clean, Notice;
    FixedNoBegin(c, s);
    var header := [VERSION_LINE, ""];
    if s != Account {
      var gap := if c.user != "" && c.account != "" then [""] else [];
      EarlierNoBegin(c, Account, s);
      NoBeginConcat(header, Block(Account, c.account), s);
      NoBeginConcat(header + Block(Account, c.account), gap, s);
      if s != User {
        var pre := header + Block(Account, c.account) + gap;
        EarlierNoBegin(c, User, s);
        NoBeginConcat(pre, Block(User, c.user), s);
        NoBeginConcat(pre + Block(User, c.user), if c.seed != "" then [""] else [], s);
      }
    }
  }

  lemma EarlierNoBegin(c: Creds, i: Section, s: Section)
    requires Storable(c) && (Order(i) < Order(s) || (i != s && Field(c, s) == ""))
    ensures NoBegin(Block(i, Field(c, i)), s)
  {
    hide Begin, Block, NoBegin, Clean;
    assert !Clashes(c, i, s);
    BlockNoBegin(c, i, s);
  }

  lemma BehindNoBegin(c: Creds, s: Section)
    requires Storable(c) && Field(c, s) == ""
    ensures NoBegin(Behind(c, s), s)
  {
    hide Begin, Block, NoBegin, Clean, Notice;
    FixedNoBegin(c, s);
    var tail := Notice(c) + [""];
    NoBeginConcat(Notice(c), [""], s);
    if s != Seed {
      var gap := if c.seed != "" then [""] else [];
      EarlierNoBegin(c, Seed, s);
      NoBeginConcat(gap, Block(Seed, c.seed), s);
      NoBeginConcat(gap + Block(Seed, c.seed), tail, s);
      if s != User {
        var gap2 := if c.user != "" && c.account != "" then [""] else [];
        EarlierNoBegin(c, User, s);
        NoBeginConcat(gap2, Block(User, c.user), s);
        NoBeginConcat(gap2 + Block(User, c.user), gap + Block(Seed, c.seed) + tail, s);
      }
    }
  }

  lemma CutSection(c: Creds, cut: seq<string>, k: nat, m: nat, s: Section)
    requires Storable(c) && CutAt(FormatLines(c) + [""], cut, k, m)
    ensures ClosesOn(Fold(Outside, cut, s), Field(c, s))
  {
    hide Begin, End, NoBegin, FormatLines, Before, Behind;
    var lines := FormatLines(c) + [""];
    FormatAround(c, s);
    BeforeNoBegin(c, s);
    if Field(c, s) == "" {
      BehindNoBegin(c, s);
      NoBeginConcat(Before(c, s), Behind(c, s), s);
      assert lines == Before(c, s) + Behind(c, s);
      CutAbsent(lines, cut, k, m, s, Field(c, s));
    } else {
      CutPresent(lines, cut, k, m, s, Before(c, s), Field(c, s), Behind(c, s));
    }
  }

  /** However a printed file is cut short, the parser rejects it or returns each
      field whole or not at all: never a truncated token or seed. */
  lemma PrefixSafety(c: Creds, n: nat, s: Section)
    requires Storable(c) && n <= |FormatText(c)|
    ensures var r := ParseText(FormatText(c)[..n]);
            r.Ok? ==> Field(r.value, s) == "" || Field(r.value, s) == Field(c, s)
  {
    hide Begin, End, Fold, FormatText, FormatLines, Storable, VersionOf, CutAt, ParseLines;
    StorableClean(c);
    FormatIsLines(c);
    var k, m := SplitPrefix(FormatText(c), n);
    var cut := SplitLines(FormatText(c)[..n]);
    CutSection(c, cut, k, m, s);
    ParsedFields(cut, s);
  }

  lemma ParsedFields(lines: seq<string>, s: Section)
    ensures ParseLines(lines).Ok? ==> Scanned(lines, s) == Ok(Field(ParseLines(lines).value, s))
  {
    hide Fold, VersionOf;
  }

  lemma StorableClean(c: Creds)
    requires Storable(c)
    ensures AllClean(c)
  {
  }
}
