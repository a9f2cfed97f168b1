/** A request that was printed parses back. */
module HttpLine {
  import opened Base
  import opened HttpText
  import opened HttpRequest
  import opened HttpShape

  /** The pieces of a printed request line. */
  function PrintedPieces(l: Line): Pieces {
    Pieces("", l.method_, " ", "", l.protocol, ':', "//",
           "", l.host, if l.port.Some? then ":" + l.port.value else "", l.path, l.version)
  }

  lemma PrintedText(l: Line)
    ensures Text(PrintedPieces(l)) == LineText(l)
  {
    var pp := if l.port.Some? then ":" + l.port.value else "";
    var a := l.protocol + "://" + l.host + pp + l.path;
    RegroupAddress(l.protocol, l.host, pp, l.path);
    RegroupText(l.method_, l.protocol, l.host, pp, l.path, l.version);
    RegroupLine(l.method_, a, l.version);
  }

  lemma RegroupAddress(p: string, h: string, pp: string, r: string)
    ensures "" + p + ([':'] + ("//" + ("" + h + pp) + r)) == p + "://" + h + pp + r
  {
    var x := h + pp + r;
    Concat("//", "" + h + pp, r);
    Marks(p, x);
    Concat(p + "://", h, pp);
    Concat(p + "://", h + pp, r);
  }

  lemma Marks(p: string, x: string)
    ensures "" + p + ([':'] + ("//" + x)) == p + "://" + x
  {
    assert [':'] + ("//" + x) == "://" + x;
    Concat(p, "://", x);
  }

  lemma RegroupText(m: string, p: string, h: string, pp: string, r: string, v: string)
    ensures m + " " + p + "://" + h + pp + r + " " + v == m + " " + (p + "://" + h + pp + r) + " " + v
  {
    Concat(m + " ", p, "://");
    Concat(m + " ", p + "://", h);
    Concat(m + " ", p + "://" + h, pp);
    Concat(m + " ", p + "://" + h + pp, r);
  }

  lemma RegroupLine(m: string, a: string, v: string)
    ensures "" + m + (" " + a + (" " + v)) == m + " " + a + " " + v
  {
  }

  lemma PrintedFields(l: Line)
    requires WellFormedLine(l)
    ensures FieldsOf(PrintedPieces(l)) == l
  {
    hide NoCrlf, Free;
    if l.port.Some? {
      assert (":" + l.port.value)[1..] == l.port.value;
    }
  }

  lemma PrintedShaped(l: Line)
    requires WellFormedLine(l)
    ensures Shaped(PrintedPieces(l))
  {
    var pp := if l.port.Some? then ":" + l.port.value else "";
    assert Free(pp, "/") by { assert '/' in " /"; }
    assert Free(Address(PrintedPieces(l)), " ") by { PrintedAddressFree(l); }
    assert Free(l.protocol, ":/") && Free(l.host, ":/") by {
      FreeOfFewer(l.protocol, " :/", ":/");
      FreeOfFewer(l.host, " :/", ":/");
    }
    hide Address, Free, NoCrlf;
  }

  lemma PrintedAddressFree(l: Line)
    requires WellFormedLine(l)
    ensures Free(Address(PrintedPieces(l)), " ")
  {
    var pp := if l.port.Some? then ":" + l.port.value else "";
    assert ' ' in " :/" && ' ' in " /" && ' ' in " ";
    assert Free(l.protocol, " ") && Free(l.host, " ") && Free(pp, " ") && Free(l.path, " ");
    var auth := Authority(PrintedPieces(l));
    FreeJoin("" + l.host, pp, " ");
    FreeJoin("//", auth, " ");
    FreeJoin("//" + auth, l.path, " ");
    FreeJoin([':'], "//" + auth + l.path, " ");
    FreeJoin("" + l.protocol, [':'] + ("//" + auth + l.path), " ");
    assert auth == "" + l.host + pp;
  }

  /** Every well-formed request line parses back to the fields it was printed from. */
  lemma LineParsesBack(l: Line)
    requires WellFormedLine(l)
    ensures ParseLine(LineText(l)) == Some(l)
  {
    hide WellFormedLine, LineText, ParseLine, ParseText, Shaped, Text, PrintedPieces, FieldsOf;
    LineClean(l);
    PrintedText(l);
    PrintedShaped(l);
    PrintedFields(l);
    ShapedParses(PrintedPieces(l));
    ParseIsText(LineText(l));
  }

  lemma NoCrlfJoin(x: string, c: char, y: string)
    requires NoCrlf(x) && NoCrlf(y) && c != '\n' && c != '\r'
    ensures NoCrlf(x + [c] + y)
  {
    var s := x + [c] + y;
    forall j | 0 <= j && j + 1 < |s|
      ensures !(s[j] == '\r' && s[j + 1] == '\n')
    {
      if j + 1 < |x| {
        assert s[j] == x[j] && s[j + 1] == x[j + 1];
      } else if j > |x| {
        assert s[j] == y[j - |x| - 1] && s[j + 1] == y[j - |x|];
      }
    }
  }

  lemma LineClean(l: Line)
    requires WellFormedLine(l)
    ensures NoCrlf(LineText(l)) && NUL !in LineText(l)
  {
    var rest := l.path[1..];
    assert l.path == "/" + rest;
    var x := l.method_ + " " + l.protocol;
    NoCrlfJoin(l.method_, ' ', l.protocol);
    NoCrlfJoin(x, ':', "");
    assert x + [':'] + "" == x + ":";
    NoCrlfJoin(x + ":", '/', "");
    assert x + ":" + ['/'] + "" == x + ":/";
    NoCrlfJoin(x + ":/", '/', l.host);
    var y := x + "://" + l.host;
    assert x + ":/" + ['/'] + l.host == y;
    var z := y + (if l.port.Some? then ":" + l.port.value else "");
    if l.port.Some? {
      NoCrlfJoin(y, ':', l.port.value);
      assert z == y + [':'] + l.port.value;
    } else {
      assert z == y;
    }
    NoCrlfJoin(z, '/', rest);
    assert z + ['/'] + rest == z + l.path;
    NoCrlfJoin(z + l.path, ' ', l.version);
    assert LineText(l) == z + l.path + [' '] + l.version;
  }

  lemma {:induction false} HeaderLinesClean(hs: Headers)
    requires forall i :: 0 <= i < |hs| ==> NUL !in hs[i].0 && NUL !in hs[i].1
    ensures NUL !in HeaderLines(hs)
    ensures forall x: string :: |x| >= 2 && x[|x| - 2..] == CRLF ==>
              var y := x + HeaderLines(hs); |y| >= 2 && y[|y| - 2..] == CRLF
  {
    if hs != [] {
      HeaderLinesClean(hs[1..]);
      forall x: string | |x| >= 2 && x[|x| - 2..] == CRLF
        ensures var y := x + HeaderLines(hs); |y| >= 2 && y[|y| - 2..] == CRLF
      {
        var x' := x + HeaderLine(hs[0]);
        assert x'[|x'| - 2..] == CRLF;
        assert x + HeaderLines(hs) == x' + HeaderLines(hs[1..]);
      }
    }
  }

  /** The printed request ends with an empty line. */
  lemma EndsWithBlankLine(r: Request)
    requires WellFormedLine(r.line)
    requires forall i :: 0 <= i < |r.headers| ==> NUL !in r.headers[i].0 && NUL !in r.headers[i].1
    ensures var t := Unparse(r); |t| >= 4 && Occurs(t, CRLF + CRLF, |t| - 4) && NUL !in t
  {
    hide WellFormedLine, LineText;
    var x := LineText(r.line) + CRLF;
    var y := x + HeaderLines(r.headers);
    LineClean(r.line);
    HeaderLinesClean(r.headers);
    assert x[|x| - 2..] == CRLF;
    var t := Unparse(r);
    assert t == y + CRLF;
    assert t[|t| - 4..] == y[|y| - 2..] + CRLF;
    assert t[|t| - 4..|t|] == t[|t| - 4..];
  }

  /** Printing and parsing a request whose line is well formed comes down to its headers. */
  lemma ParseUnparse(r: Request)
    requires WellFormedLine(r.line) && |Unparse(r)| <= MAX_REQ_LEN
    requires forall i :: 0 <= i < |r.headers| ==> NUL !in r.headers[i].0 && NUL !in r.headers[i].1
    ensures var t, cur := Unparse(r), |LineText(r.line)| + 2;
            && At(t, cur, HeaderText(r.headers)) && cur + |HeaderText(r.headers)| == |t|
            && Parse(t) == if ParseHeaders(t, cur, []).None? then None
                           else Some(Request(r.line, ParseHeaders(t, cur, []).value))
  {
    hide WellFormedLine, LineText, ParseLine, ParseHeaders, HeaderText;
    var t := Unparse(r);
    var line := LineText(r.line);
    EndsWithBlankLine(r);
    CStringWhole(t);
    assert Find(t, CRLF + CRLF, 0).Some?;
    LineClean(r.line);
    assert At(t, 0, line) && At(t, |line|, CRLF);
    FindLineEnd(t, 0, line);
    assert t[..|line|] == line;
    LineParsesBack(r.line);
    assert At(t, |line| + 2, HeaderText(r.headers));
  }

  /**
   Round trip: every well-formed request that fits the parser's length limit parses back to itself from
   its own text, headers in order.
   */
  lemma RoundTrip(r: Request)
    requires WellFormed(r) && |Unparse(r)| <= MAX_REQ_LEN
    ensures Parse(Unparse(r)) == Some(r)
  {
    hide WellFormedLine, LineText, ParseHeaders, HeaderText, Parse, Unparse, NoCrlf, Free;
    ParseUnparse(r);
    assert [] + r.headers == r.headers;
    HeadersParseBack(Unparse(r), |LineText(r.line)| + 2, r.headers, []);
  }
}
