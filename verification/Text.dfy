/** The string operations the sources lean on: strip and split on newlines. */
module Text {

  /** The characters Python's str.strip removes. */
  predicate IsSpace(c: char) {
    var n := c as int;
    || 0x09 <= n <= 0x0d || 0x1c <= n <= 0x20 || n == 0x85 || n == 0xa0 || n == 0x1680
    || 0x2000 <= n <= 0x200a || n == 0x2028 || n == 0x2029 || n == 0x202f || n == 0x205f
    || n == 0x3000
  }

  /** Nothing to strip at either end. */
  predicate Trimmed(s: string) {
    s == "" || (!IsSpace(s[0]) && !IsSpace(s[|s| - 1]))
  }

  function Strip(s: string): (t: string)
    ensures Trimmed(t)
    ensures Trimmed(s) ==> t == s
    ensures |t| <= |s|
    ensures forall c :: c in t ==> c in s
    decreases |s|
  {
    if s == "" then s
    else if IsSpace(s[0]) then Strip(s[1..])
    else if IsSpace(s[|s| - 1]) then Strip(s[..|s| - 1])
    else s
  }

  predicate AllSpace(s: string) {
    forall i :: 0 <= i < |s| ==> IsSpace(s[i])
  }

  /** Stripping takes spaces off both ends. */
  lemma {:induction false} StripTakesSpaces(s: string) returns (a: string, b: string)
    ensures s == a + Strip(s) + b && AllSpace(a) && AllSpace(b)
    decreases |s|
  {
    hide IsSpace, Trimmed;
    if s == "" {
      a, b := "", "";
    } else if IsSpace(s[0]) {
      a, b := StripTakesSpaces(s[1..]);
      assert s == [s[0]] + s[1..];
      a := [s[0]] + a;
    } else if IsSpace(s[|s| - 1]) {
      a, b := StripTakesSpaces(s[..|s| - 1]);
      assert s == s[..|s| - 1] + [s[|s| - 1]];
      b := b + [s[|s| - 1]];
    } else {
      a, b := "", "";
    }
  }

  /** And all of them. */
  lemma {:induction false} StripSurrounded(a: string, t: string, b: string)
    requires AllSpace(a) && AllSpace(b) && Trimmed(t)
    ensures Strip(a + t + b) == t
    decreases |a| + |b|
  {
    hide IsSpace;
    var s := a + t + b;
    if a != "" {
      assert s[0] == a[0] && s[1..] == a[1..] + t + b;
      StripSurrounded(a[1..], t, b);
    } else if b != "" {
      assert s == t + b;
      if t == "" {
        assert s[0] == b[0] && s[1..] == "" + t + b[1..];
        StripSurrounded("", t, b[1..]);
      } else {
        assert s[0] == t[0] && s[|s| - 1] == b[|b| - 1] && s[..|s| - 1] == "" + t + b[..|b| - 1];
        StripSurrounded("", t, b[..|b| - 1]);
      }
    } else {
      assert s == t;
    }
  }

  /** Spaces around a text do not change what stripping leaves of it. */
  lemma StripOuter(a: string, s: string, b: string)
    requires AllSpace(a) && AllSpace(b)
    ensures Strip(a + s + b) == Strip(s)
  {
    hide IsSpace, Strip, Trimmed;
    var x, y := StripTakesSpaces(s);
    StripSurrounded(a + x, Strip(s), y + b);
    assert a + s + b == (a + x) + Strip(s) + (y + b);
  }

  predicate OneLine(s: string) {
    '\n' !in s
  }

  function SplitLines(s: string): (ls: seq<string>)
    ensures |ls| >= 1
    ensures forall i :: 0 <= i < |ls| ==> OneLine(ls[i])
  {
    if s == "" then [""] else Prefixed(s[0], SplitLines(s[1..]))
  }

  /** The lines of a text once one more character is put in front. */
  function Prefixed(c: char, ls: seq<string>): (r: seq<string>)
    requires |ls| >= 1
    ensures |r| >= 1
  {
    if c == '\n' then [""] + ls else [[c] + ls[0]] + ls[1..]
  }

  lemma {:induction false} SplitOneLine(s: string)
    requires OneLine(s)
    ensures SplitLines(s) == [s]
  {
    if s != "" {
      SplitOneLine(s[1..]);
      assert s == [s[0]] + s[1..];
    }
  }

  /** A newline ends a line. */
  lemma {:induction false} SplitAt(a: string, b: string)
    ensures SplitLines(a + "\n" + b) == SplitLines(a) + SplitLines(b)
  {
    if a == "" {
      assert a + "\n" + b == "\n" + b && ("\n" + b)[1..] == b;
    } else {
      assert (a + "\n" + b)[1..] == a[1..] + "\n" + b;
      SplitAt(a[1..], b);
    }
  }

  // ---- reading the first and the last line ------------------------------------------

  lemma FirstLine(a: string, b: string, a': string, b': string)
    requires OneLine(a) && OneLine(a')
    requires a + "\n" + b == a' + "\n" + b'
    ensures a == a' && b == b'
  {
    var s := a + "\n" + b;
    assert s[|a|] == '\n' && s[|a'|] == '\n';
    assert forall i :: 0 <= i < |a| ==> s[i] == a[i] && a[i] in a;
    assert forall i :: 0 <= i < |a'| ==> s[i] == a'[i] && a'[i] in a';
    assert a == s[..|a|] && a' == s[..|a'|];
    assert b == s[|a| + 1..] && b' == s[|a'| + 1..];
  }

  lemma LastLine(a: string, b: string, a': string, b': string)
    requires OneLine(b) && OneLine(b')
    requires a + "\n" + b == a' + "\n" + b'
    ensures a == a' && b == b'
  {
    var s := a + "\n" + b;
    assert forall i :: |a| < i < |s| ==> s[i] == b[i - |a| - 1] && s[i] in b;
    assert forall i :: |a'| < i < |s| ==> s[i] == b'[i - |a'| - 1] && s[i] in b';
    assert s[|a|] == '\n' && s[|a'|] == '\n';
    assert a == s[..|a|] && a' == s[..|a'|];
    assert b == s[|a| + 1..] && b' == s[|a'| + 1..];
  }

  /** Every line followed by a newline. */
  function Unlines(ls: seq<string>): string {
    if ls == [] then "" else ls[0] + "\n" + Unlines(ls[1..])
  }

  lemma {:induction false} UnlinesConcat(a: seq<string>, b: seq<string>)
    ensures Unlines(a + b) == Unlines(a) + Unlines(b)
  {
    if a == [] {
      assert a + b == b;
    } else {
      assert (a + b)[1..] == a[1..] + b;
      UnlinesConcat(a[1..], b);
    }
  }

  predicate OneLines(ls: seq<string>) {
    forall i :: 0 <= i < |ls| ==> OneLine(ls[i])
  }

  lemma OneLinesConcat(a: seq<string>, b: seq<string>)
    requires OneLines(a) && OneLines(b)
    ensures OneLines(a + b)
  {
  }

  lemma {:induction false} SplitUnlines(ls: seq<string>)
    requires OneLines(ls)
    ensures SplitLines(Unlines(ls)) == ls + [""]
  {
    if ls != [] {
      SplitAt(ls[0], Unlines(ls[1..]));
      SplitOneLine(ls[0]);
      SplitUnlines(ls[1..]);
      assert ls == [ls[0]] + ls[1..];
    }
  }

  /** The lines of a truncated text: whole lines, then the start of one. */
  ghost predicate CutAt(ls: seq<string>, cut: seq<string>, k: nat, m: nat) {
    k < |ls| && m <= |ls[k]| && cut == ls[..k] + [ls[k][..m]]
  }

  lemma {:induction false} SplitPrefix(s: string, n: nat) returns (k: nat, m: nat)
    requires n <= |s|
    ensures CutAt(SplitLines(s), SplitLines(s[..n]), k, m)
  {
    if n == 0 {
      k, m := 0, 0;
    } else {
      hide Prefixed, CutAt;
      assert s[..n][1..] == s[1..][..n - 1];
      k, m := SplitPrefix(s[1..], n - 1);
      k, m := CutGrows(s[0], SplitLines(s[1..]), SplitLines(s[1..][..n - 1]), k, m);
    }
  }

  lemma CutGrows(c: char, ls: seq<string>, cut: seq<string>, k: nat, m: nat) returns (k': nat, m': nat)
    requires |ls| >= 1 && |cut| >= 1 && CutAt(ls, cut, k, m)
    ensures CutAt(Prefixed(c, ls), Prefixed(c, cut), k', m')
  {
    if c == '\n' {
      k', m' := k + 1, m;
      assert Prefixed(c, ls)[..k'] == [""] + ls[..k];
    } else if k == 0 {
      k', m' := k, m + 1;
      assert Prefixed(c, ls)[0][..m'] == [c] + ls[0][..m];
    } else {
      k', m' := k, m;
      assert Prefixed(c, ls)[..k] == [[c] + ls[0]] + ls[1..k];
      assert ls[..k] == [ls[0]] + ls[1..k];
      assert (ls[..k] + [ls[k][..m]])[1..] == ls[1..k] + [ls[k][..m]];
    }
  }

  predicate StartsWith(s: string, prefix: string) {
    |prefix| <= |s| && s[..|prefix|] == prefix
  }
}
