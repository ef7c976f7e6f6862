/** The canonical request bytes a signature binds (src/valiss/httpauth/extension.py). */
module RequestContext {
  import opened Bits
  import opened Errors
  import opened Text
  import Utf8

  function ContextText(verb: string, host: string, path: string, nonce: string): string {
    "http\n" + (verb + "\n" + (host + "\n" + (path + "\n" + nonce)))
  }

  function Context(verb: string, host: string, path: string, nonce: string): Bytes {
    Utf8.Encode(ContextText(verb, host, path, nonce))
  }

  /** Method, host and nonce of one line each, and any path, can be read back from
      the bytes. Headers hold no line break; a percent-decoded path may. */
  lemma ContextInjective(verb: string, host: string, path: string, nonce: string,
                         verb': string, host': string, path': string, nonce': string)
    requires OneLine(verb) && OneLine(host) && OneLine(nonce)
    requires OneLine(verb') && OneLine(host') && OneLine(nonce')
    requires Context(verb, host, path, nonce) == Context(verb', host', path', nonce')
    ensures verb == verb' && host == host' && path == path' && nonce == nonce'
  {
    BytesText(verb, host, path, nonce, verb', host', path', nonce');
    FirstLine(verb, host + "\n" + (path + "\n" + nonce), verb', host' + "\n" + (path' + "\n" + nonce'));
    FirstLine(host, path + "\n" + nonce, host', path' + "\n" + nonce');
    LastLine(path, nonce, path', nonce');
  }

  /** The bytes are a text of lines that starts with the transport's tag: what is signed
      for another transport, under another tag, is never signed for this one. */
  lemma TransportSeparated(verb: string, host: string, path: string, nonce: string, tag: string, rest: string)
    requires OneLine(tag)
    ensures Utf8.Decode(Context(verb, host, path, nonce))
         == Some("http\n" + (verb + "\n" + (host + "\n" + (path + "\n" + nonce))))
    ensures Context(verb, host, path, nonce) == Utf8.Encode(tag + "\n" + rest) ==> tag == "http"
  {
    var tail := verb + "\n" + (host + "\n" + (path + "\n" + nonce));
    var text := "http\n" + tail;
    assert text == "http" + "\n" + tail;
    Utf8.RoundTrip(text);
    if Context(verb, host, path, nonce) == Utf8.Encode(tag + "\n" + rest) {
      Utf8.Injective(text, tag + "\n" + rest);
      FirstLine("http", tail, tag, rest);
    }
  }

  function Lines(verb: string, host: string, path: string, nonce: string): string {
    verb + "\n" + (host + "\n" + (path + "\n" + nonce))
  }

  lemma BytesText(verb: string, host: string, path: string, nonce: string,
                  verb': string, host': string, path': string, nonce': string)
    ensures Context(verb, host, path, nonce) == Context(verb', host', path', nonce')
       <==> Lines(verb, host, path, nonce) == Lines(verb', host', path', nonce')
  {
    if Context(verb, host, path, nonce) == Context(verb', host', path', nonce') {
      Utf8.Injective(ContextText(verb, host, path, nonce), ContextText(verb', host', path', nonce'));
      assert Lines(verb, host, path, nonce) == ContextText(verb, host, path, nonce)[5..];
      assert Lines(verb', host', path', nonce') == ContextText(verb', host', path', nonce')[5..];
    }
  }

  // ---- exactly when the bytes name one request ---------------------------------------

  /** No other method, host, path and nonce have the same bytes. */
  ghost predicate NamesOne(verb: string, host: string, path: string, nonce: string) {
    forall v, h, p, n :: Context(v, h, p, n) == Context(verb, host, path, nonce) ==>
      v == verb && h == host && p == path && n == nonce
  }

  lemma LineCount(verb: string, host: string, path: string, nonce: string)
    ensures SplitLines(Lines(verb, host, path, nonce))
         == SplitLines(verb) + (SplitLines(host) + (SplitLines(path) + SplitLines(nonce)))
  {
    SplitAt(verb, host + "\n" + (path + "\n" + nonce));
    SplitAt(host, path + "\n" + nonce);
    SplitAt(path, nonce);
  }

  lemma {:induction false} OneLineCount(s: string)
    ensures OneLine(s) <==> |SplitLines(s)| == 1
  {
    if s != "" {
      OneLineCount(s[1..]);
      assert s == [s[0]] + s[1..];
    }
  }

  /** Four single lines have no other reading. */
  lemma LinesDetermine(verb: string, host: string, path: string, nonce: string,
                       v: string, h: string, p: string, n: string)
    requires OneLine(verb) && OneLine(host) && OneLine(path) && OneLine(nonce)
    requires Context(v, h, p, n) == Context(verb, host, path, nonce)
    ensures v == verb && h == host && p == path && n == nonce
  {
    BytesText(v, h, p, n, verb, host, path, nonce);
    LineCount(verb, host, path, nonce);
    LineCount(v, h, p, n);
    OneLineCount(verb);
    OneLineCount(host);
    OneLineCount(path);
    OneLineCount(nonce);
    OneLineCount(v);
    OneLineCount(h);
    OneLineCount(n);
    ContextInjective(v, h, p, n, verb, host, path, nonce);
  }

  /** A text of more lines than one, cut at its first line break. */
  lemma CutLine(s: string) returns (a: string, b: string)
    requires !OneLine(s)
    ensures s == a + "\n" + b && a != s && b != s
  {
    var i :| 0 <= i < |s| && s[i] == '\n';
    a, b := s[..i], s[i + 1..];
    assert |a| < |s| && |b| < |s|;
  }

  /** A line break in any of the four gives the bytes of another request. */
  lemma LineBreaksCollide(verb: string, host: string, path: string, nonce: string)
    returns (v: string, h: string, p: string, n: string)
    requires !(OneLine(verb) && OneLine(host) && OneLine(path) && OneLine(nonce))
    ensures Context(v, h, p, n) == Context(verb, host, path, nonce)
    ensures !(v == verb && h == host && p == path && n == nonce)
  {
    v, h, p, n := verb, host, path, nonce;
    if !OneLine(verb) {
      v, h := CutLine(verb);
      p := host + "\n" + path;
      assert Lines(v, h, p, n) == Lines(verb, host, path, nonce);
    } else if !OneLine(host) {
      h, p := CutLine(host);
      n := path + "\n" + nonce;
      assert Lines(v, h, p, n) == Lines(verb, host, path, nonce);
    } else if !OneLine(path) {
      var rest;
      p, rest := CutLine(path);
      n := rest + "\n" + nonce;
      assert Lines(v, h, p, n) == Lines(verb, host, path, nonce);
    } else {
      var first;
      first, n := CutLine(nonce);
      p := path + "\n" + first;
      assert Lines(v, h, p, n) == Lines(verb, host, path, nonce);
    }
    BytesText(v, h, p, n, verb, host, path, nonce);
  }

  /** The bytes name one request exactly when all four parts are single lines. */
  lemma NamesOneExactly(verb: string, host: string, path: string, nonce: string)
    ensures NamesOne(verb, host, path, nonce)
       <==> OneLine(verb) && OneLine(host) && OneLine(path) && OneLine(nonce)
  {
    hide Context;
    if OneLine(verb) && OneLine(host) && OneLine(path) && OneLine(nonce) {
      forall v, h, p, n | Context(v, h, p, n) == Context(verb, host, path, nonce)
        ensures v == verb && h == host && p == path && n == nonce
      {
        LinesDetermine(verb, host, path, nonce, v, h, p, n);
      }
    } else {
      var v, h, p, n := LineBreaksCollide(verb, host, path, nonce);
    }
  }
}
