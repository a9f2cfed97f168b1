/**
 The other half of the round trip: whatever request line the parser accepts, its fields are well formed, so
 printing and parsing it again gives the same request.
 */
module HttpAccept {
  import opened Base
  import opened HttpText
  import opened HttpRequest
  import opened HttpShape
  import opened HttpLine

  lemma PieceOf(a: string, s: string, b: string)
    requires NUL !in a + s + b && NoCrlf(a + s + b)
    ensures NUL !in s && NoCrlf(s)
  {
    var t := a + s + b;
    forall j | 0 <= j && j + 1 < |s|
      ensures !(s[j] == '\r' && s[j + 1] == '\n')
    {
      assert t[|a| + j] == s[j] && t[|a| + (j + 1)] == s[j + 1];
    }
    assert forall c :: c in s ==> c in t;
  }

  /** A piece of the line, or of a piece of it, is as clean as the line. */
  lemma PartClean(line: string, x: string, s: string, y: string, ends: string)
    requires NUL !in line && NoCrlf(line) && line == x + s + y && Free(s, ends)
    ensures Clean(s, ends)
  {
    PieceOf(x, s, y);
  }

  lemma AddressClean(line: string, q: Pieces)
    requires Shaped(q) && Text(q) == line && NUL !in line && NoCrlf(line)
    ensures NUL !in Address(q) && NoCrlf(Address(q)) && Clean(q.method_, " ") && Clean(q.version, "")
  {
    hide NoCrlf, Address;
    PartClean(line, q.indent, q.method_, q.gap + Address(q) + (" " + q.version), " ");
    var x := q.indent + q.method_ + q.gap;
    assert line == x + Address(q) + (" " + q.version);
    PieceOf(x, Address(q), " " + q.version);
    assert line == (x + Address(q) + " ") + q.version + "";
    PartClean(line, x + Address(q) + " ", q.version, "", "");
  }

  lemma PartsFree(q: Pieces)
    requires Shaped(q)
    ensures Free(q.protocol, " ") && Free(Authority(q), " ") && Free(q.rest, " ")
    ensures Free(q.host, " ") && Free(q.tail, " ")
  {
    hide Shaped;
    assert Free(Address(q), " ") by { SpaceFree(q); }
    var x := q.slashes + Authority(q) + q.rest;
    FreeJoin(q.lead + q.protocol, [q.sep] + x, " ");
    FreeJoin(q.lead, q.protocol, " ");
    FreeJoin([q.sep], x, " ");
    FreeJoin(q.slashes + Authority(q), q.rest, " ");
    FreeJoin(q.slashes, Authority(q), " ");
    FreeJoin(q.colons + q.host, q.tail, " ");
    FreeJoin(q.colons, q.host, " ");
  }

  lemma SpaceFree(q: Pieces)
    requires Shaped(q)
    ensures Free(Address(q), " ")
  {
  }

  lemma AddressPartsClean(q: Pieces)
    requires NUL !in Address(q) && NoCrlf(Address(q))
    ensures NUL !in q.protocol && NoCrlf(q.protocol) && NUL !in q.rest && NoCrlf(q.rest)
    ensures NUL !in q.host && NoCrlf(q.host) && NUL !in q.tail && NoCrlf(q.tail)
  {
    hide NoCrlf;
    var a, x := Address(q), q.slashes + Authority(q) + q.rest;
    PieceOf(q.lead, q.protocol, [q.sep] + x);
    var y := q.lead + q.protocol + [q.sep] + q.slashes;
    assert a == y + Authority(q) + q.rest;
    PieceOf(y, Authority(q), q.rest);
    assert a == (y + Authority(q)) + q.rest + "";
    PieceOf(y + Authority(q), q.rest, "");
    PieceOf(q.colons, q.host, q.tail);
    assert Authority(q) == (q.colons + q.host) + q.tail + "";
    PieceOf(q.colons + q.host, q.tail, "");
  }

  lemma TailClean(s: string, ends: string)
    requires s != "" && NUL !in s && NoCrlf(s) && Free(s, ends)
    ensures Clean(s[1..], ends)
  {
    SplitAt(s, 1);
    assert s == s[..1] + s[1..] + "";
    PieceOf(s[..1], s[1..], "");
  }

  /** Every accepted request line has well-formed fields. */
  lemma AcceptedIsWellFormed(line: string, l: Line)
    requires NUL !in line && NoCrlf(line) && ParseLine(line) == Some(l)
    ensures WellFormedLine(l)
  {
    hide ParseLine, ParseText, NoCrlf, Address, Authority, Text;
    ParseIsText(line);
    var q := ParsedShaped(line, l);
    AddressClean(line, q);
    AddressPartsClean(q);
    PartsFree(q);
    FreeTwice(q.protocol, " ", ":/", " :/");
    FreeTwice(q.host, " ", ":/", " :/");
    FreeTwice(q.tail, " ", "/", " /");
    hide Free;
    if |q.tail| > 1 {
      TailClean(q.tail, " /");
    }
    if q.rest != "" {
      TailClean(q.rest, " ");
    } else {
      RootClean();
    }
  }

  lemma RootClean()
    ensures Clean("/"[1..], " ")
  {
  }

  lemma FreeTwice(s: string, a: string, b: string, ab: string)
    requires Free(s, a) && Free(s, b) && forall c :: c in ab ==> c in a || c in b
    ensures Free(s, ab)
  {
  }

  // ---- lines of the usual form ----

  lemma TwoSpaces(m: string, a: string, v: string)
    requires m != "" && Free(m, " ") && a != "" && Free(a, " ")
    ensures ParseText(m + " " + a + " " + v) == if "HTTP/" <= v then AddressText(m, a, v) else None
  {
    hide CutAt, AddressText;
    var more := " " + a + " " + v;
    assert m + " " + a + " " + v == "" + m + more;
    CutTriple("", m, more, " ");
    assert more[1..] == "" + a + (" " + v);
    CutTriple("", a, " " + v, " ");
    assert (" " + v)[1..] == v;
  }

  lemma UsualAddress(m: string, p: string, h: string, r: string, v: string)
    requires p != "" && Free(p, ":/") && h != "" && Free(h, "/") && (r == "" || r[0] == '/')
    ensures AddressText(m, p + "://" + h + r, v).Some? <==>
            r != "" && (|r| == 1 || r[1] != '/') && CutAt(h, ":").word != ""
  {
    hide CutAt;
    var rest := "://" + h + r;
    assert p + "://" + h + r == "" + p + rest;
    CutTriple("", p, rest, ":/");
    assert rest[1..] == "//" + h + r;
    CutTriple("//", h, r, "/");
    assert r != "" ==> r[1..] == "" || r[1..][0] == r[1];
  }

  lemma OnlyColons(h: string)
    ensures CutAt(h, ":").word != "" <==> exists c :: c in h && c != ':'
  {
    var c := CutAt(h, ":");
    CutIsOne(h, ":");
    hide CutAt;
    if c.word != "" {
      assert c.word[0] in c.word;
      assert c.word[0] in h && c.word[0] != ':';
    } else {
      assert h == c.lead;
    }
  }

  /**
   Lines of the usual form, a method, a protocol with "://", an authority, what follows it, and a version: they are
   accepted if and only if the version begins "HTTP/", the authority is not made of colons only, and what follows it is
   a slash without a second one. So a missing version, host or path and a double slash are refused.
   */
  lemma UsualLines(m: string, p: string, h: string, r: string, v: string)
    requires m != "" && Free(m, " ") && p != "" && Free(p, " :/") && h != "" && Free(h, " /")
    requires Free(r, " ") && (r == "" || r[0] == '/')
    requires NUL !in m + " " + (p + "://" + h + r) + " " + v
    ensures ParseLine(m + " " + (p + "://" + h + r) + " " + v).Some? <==>
            "HTTP/" <= v && (exists c :: c in h && c != ':') && r != "" && (|r| == 1 || r[1] != '/')
  {
    FreeOfFewer(p, " :/", ":/");
    FreeOfFewer(p, " :/", " ");
    FreeOfFewer(h, " /", "/");
    FreeOfFewer(h, " /", " ");
    var a := p + "://" + h + r;
    FreeJoin(p, "://", " ");
    FreeJoin(p + "://", h, " ");
    FreeJoin(p + "://" + h, r, " ");
    hide ParseLine, ParseText, AddressText, CutAt, Free;
    ParseIsText(m + " " + a + " " + v);
    TwoSpaces(m, a, v);
    UsualAddress(m, p, h, r, v);
    OnlyColons(h);
  }

  /** Without a second space there is no version, and the line is refused. */
  lemma NoVersion(m: string, a: string)
    requires m != "" && Free(m, " ") && Free(a, " ") && NUL !in m + " " + a
    ensures ParseLine(m + " " + a) == None
  {
    ParseIsText(m + " " + a);
    Concat(m, " ", a);
    assert "" + m == m && (" " + a)[0] == ' ' && (" " + a)[1..] == a;
    assert Free("", " ") && AllIn("", " ");
    hide ParseLine, CutAt, AddressText, Free, AllIn;
    CutTriple("", m, " " + a, " ");
    WholeWord(a, " ");
  }

  /** A line parses back to its own fields exactly when they are well formed. */
  lemma RoundTripExactly(l: Line)
    requires NUL !in LineText(l) && NoCrlf(LineText(l))
    ensures ParseLine(LineText(l)) == Some(l) <==> WellFormedLine(l)
  {
    hide ParseLine, LineText, WellFormedLine, NoCrlf;
    if WellFormedLine(l) {
      LineParsesBack(l);
    }
    if ParseLine(LineText(l)) == Some(l) {
      AcceptedIsWellFormed(LineText(l), l);
    }
  }

  // ---- headers that parsing produces ----

  /** What every parsed header list is: no key twice, no colon or NUL in a key, clean values. */
  predicate ParsedHeaders(hs: Headers) {
    && UniqueKeys(hs)
    && forall i :: 0 <= i < |hs| ==> NUL !in hs[i].0 && Free(hs[i].0, ":") && Clean(hs[i].1, "")
  }

  lemma {:induction false} WithoutIn(hs: Headers, key: string, h: (string, string))
    ensures h in Without(hs, key) <==> h in hs && h.0 != key
  {
    if hs != [] {
      WithoutIn(hs[1..], key, h);
      assert hs == [hs[0]] + hs[1..];
    }
  }

  lemma {:induction false} WithoutUnique(hs: Headers, key: string)
    requires UniqueKeys(hs)
    ensures UniqueKeys(Without(hs, key))
  {
    if hs != [] {
      WithoutUnique(hs[1..], key);
      var w := Without(hs[1..], key);
      forall j | 0 <= j < |w|
        ensures w[j].0 != hs[0].0
      {
        WithoutIn(hs[1..], key, w[j]);
      }
    }
  }

  lemma SetKeepsParsed(hs: Headers, k: string, v: string)
    requires ParsedHeaders(hs) && NUL !in k && Free(k, ":") && Clean(v, "")
    ensures ParsedHeaders(SetHeader(hs, k, v))
  {
    hide NoCrlf, Free;
    var w := Without(hs, k);
    WithoutUnique(hs, k);
    forall j | 0 <= j < |w|
      ensures w[j] in hs && w[j].0 != k
    {
      WithoutIn(hs, k, w[j]);
    }
  }

  lemma PieceClean(t: string, i: nat, j: nat)
    requires NUL !in t && i <= j <= |t|
    requires forall k :: i <= k < j ==> !Occurs(t, CRLF, k)
    ensures Clean(t[i..j], "")
  {
    var s := t[i..j];
    forall k | 0 <= k && k + 1 < |s|
      ensures !(s[k] == '\r' && s[k + 1] == '\n')
    {
      CrlfAt(t, i + k);
    }
  }

  lemma PieceFree(t: string, i: nat, j: nat)
    requires NUL !in t && i <= j <= |t|
    requires forall k :: i <= k < j ==> !Occurs(t, ":", k)
    ensures NUL !in t[i..j] && Free(t[i..j], ":")
  {
    forall c | c in t[i..j]
      ensures c != ':'
    {
      var k :| i <= k < j && t[k] == c;
      assert !Occurs(t, ":", k) && t[k..k + 1] == [c];
    }
  }

  lemma OneParsed(t: string, cur: nat, colon: nat, end: nat, hs: Headers)
    requires NUL !in t && ParsedHeaders(hs) && colon + 2 <= |t|
    requires Find(t, ":", cur) == Some(colon) && Find(t, CRLF, colon + 2) == Some(end)
    ensures cur <= colon && colon + 2 <= end <= |t|
    ensures ParsedHeaders(SetHeader(hs, t[cur..colon], t[colon + 2..end]))
  {
    assert cur <= colon && colon + 2 <= end <= |t|;
    PieceFree(t, cur, colon);
    PieceClean(t, colon + 2, end);
    hide Find, ParsedHeaders, SetHeader, Clean, Free;
    SetKeepsParsed(hs, t[cur..colon], t[colon + 2..end]);
  }

  lemma {:induction false} ParsedHeadersParsed(t: string, cur: nat, hs: Headers)
    requires NUL !in t && ParsedHeaders(hs) && ParseHeaders(t, cur, hs).Some?
    ensures ParsedHeaders(ParseHeaders(t, cur, hs).value)
    decreases |t| - cur
  {
    hide Find, ParsedHeaders, SetHeader, Occurs;
    if cur < |t| && !Occurs(t, CRLF, cur) {
      var colon := Find(t, ":", cur).value;
      var end := Find(t, CRLF, colon + 2).value;
      OneParsed(t, cur, colon, end, hs);
      var next := Find(t, CRLF, cur);
      if next.Some? {
        ParsedHeadersParsed(t, next.value + 2, SetHeader(hs, t[cur..colon], t[colon + 2..end]));
      }
    }
  }
}
