/**
 Which request lines the parser accepts, told from the text: first the chain of strtok_r calls on one buffer is proved
 to be a chain of cuts of strings, then the lines these accept are described piece by piece.
 */
module HttpShape {
  import opened Base
  import opened HttpText
  import opened HttpRequest

  // ---- cutting a string ----

  /** Delimiters, then a word without any, then the rest, which begins with a delimiter if it is not empty. */
  datatype Cut = Cut(lead: string, word: string, rest: string)

  predicate IsCut(s: string, delims: string, c: Cut) {
    && s == c.lead + c.word + c.rest
    && AllIn(c.lead, delims) && Free(c.word, delims)
    && (c.rest != "" ==> c.rest[0] in delims) && (c.word == "" ==> c.rest == "")
  }

  /** The number of characters at the front that are delimiters, or that are not. */
  function Front(s: string, delims: string, inside: bool): (n: nat)
    ensures n <= |s|
    ensures forall i :: 0 <= i < n ==> (s[i] in delims) == inside
    ensures n < |s| ==> (s[n] in delims) != inside
  {
    if s == "" || (s[0] in delims) != inside then 0 else 1 + Front(s[1..], delims, inside)
  }

  function CutAt(s: string, delims: string): Cut {
    var i := Front(s, delims, true);
    var j := Front(s[i..], delims, false);
    Cut(s[..i], s[i..i + j], s[i + j..])
  }

  lemma CutIsOne(s: string, delims: string)
    ensures IsCut(s, delims, CutAt(s, delims))
  {
    var i := Front(s, delims, true);
    var t := s[i..];
    var j := Front(t, delims, false);
    DropTwice(s, i, j);
    FrontPiece(s, delims, true);
    FrontPiece(t, delims, false);
    SplitAt(s, i);
    SplitAt(t, j);
    hide Front, AllIn, Free;
    Concat(s[..i], t[..j], t[j..]);
  }

  lemma DropTwice<T>(s: seq<T>, i: nat, j: nat)
    requires i + j <= |s|
    ensures s[i..i + j] == s[i..][..j] && s[i + j..] == s[i..][j..]
  {
  }

  /** The characters in front, and the one behind them. */
  lemma FrontPiece(s: string, delims: string, inside: bool)
    ensures var n := Front(s, delims, inside);
            && (if inside then AllIn(s[..n], delims) else Free(s[..n], delims))
            && (n < |s| ==> (s[n..][0] in delims) != inside)
  {
    var n := Front(s, delims, inside);
    forall c | c in s[..n]
      ensures (c in delims) == inside
    {
      var k :| 0 <= k < n && s[k] == c;
    }
  }

  /** There is only one way to cut. */
  lemma CutIs(s: string, delims: string, c: Cut)
    requires IsCut(s, delims, c) && c.word != ""
    ensures CutAt(s, delims) == c
  {
    var i := Front(s, delims, true);
    Concat(c.lead, c.word, c.rest);
    assert c.word[0] in c.word && (c.word + c.rest)[0] == c.word[0];
    FrontIs(c.lead, c.word + c.rest, delims, true);
    FrontIs(c.word, c.rest, delims, false);
    assert i == |c.lead| && s[..i] == c.lead && s[i..] == c.word + c.rest;
    hide Front, AllIn, Free;
    DropTwice(s, i, |c.word|);
  }

  lemma FrontIs(x: string, y: string, delims: string, inside: bool)
    requires if inside then AllIn(x, delims) else Free(x, delims)
    requires y != "" ==> (y[0] in delims) != inside
    ensures Front(x + y, delims, inside) == |x| && (x + y)[..|x|] == x && (x + y)[|x|..] == y
  {
    var s := x + y;
    forall k | 0 <= k < |x|
      ensures (s[k] in delims) == inside
    {
      assert s[k] == x[k] && x[k] in x;
    }
    assert y != "" ==> s[|x|] == y[0];
  }

  /** What the next call of strtok_r gets to see. */
  function After(c: Cut): string { if c.rest == "" then "" else c.rest[1..] }

  // ---- the parser on strings ----

  /** The comparison that is to detect a missing path, in terms of the pieces of the address. */
  predicate NoPath(c3: Cut, c4: Cut) {
    if |c3.lead| >= 3 then |c4.word| == |c3.lead| - 3 else |c3.lead| + |c4.lead| + |c4.rest| == 2
  }

  /** The address on its own: protocol, authority, path, host and port. */
  function AddressText(m: string, a: string, v: string): Option<Line> {
    var c3 := CutAt(a, ":/");
    if c3.word == "" then None else
    var c4 := CutAt(After(c3), "/");
    if c4.word == "" || NoPath(c3, c4) then None else
    var path := After(c4);
    if path != "" && path[0] == '/' then None else
    var c5 := CutAt(c4.word, ":");
    if c5.word == "" then None else
    Some(Line(m, c3.word, c5.word, if After(c5) == "" then None else Some(After(c5)), "/" + path, v))
  }

  function ParseText(line: string): Option<Line> {
    var c1 := CutAt(line, " ");
    if c1.word == "" then None else
    var c2 := CutAt(After(c1), " ");
    if c2.word == "" || c2.rest == "" || !("HTTP/" <= After(c2)) then None
    else AddressText(c1.word, c2.word, After(c2))
  }

  // ---- strings in a buffer ----

  /** The C string at position `i` of a buffer is `s`. */
  predicate Field(b: string, i: nat, s: string) {
    Terminated(b) && At(b, i, s) && NUL !in s && i + |s| < |b| && b[i + |s|] == NUL
  }

  lemma FieldRead(b: string, i: nat, s: string)
    requires Field(b, i, s)
    ensures i < |b| && StrAt(b, i) == s && StrLen(b, i) == |s|
  {
    StrAtIs(b, i, s);
  }

  lemma FieldTail(b: string, i: nat, s: string, k: nat)
    requires Field(b, i, s) && k <= |s|
    ensures Field(b, i + k, s[k..])
  {
    assert b[i + k..i + |s|] == b[i..i + |s|][k..];
  }

  lemma FieldPiece(b: string, i: nat, x: string, y: string, z: string)
    requires Field(b, i, x + y + z)
    ensures At(b, i, x) && At(b, i + |x|, y) && At(b, i + |x| + |y|, z)
    ensures NUL !in x && NUL !in y && NUL !in z
  {
    AtPrefix(b, i, x + y, z);
    AtPrefix(b, i, x, y);
  }

  lemma OnlyDelims(b: string, i: nat, s: string, delims: string)
    requires Field(b, i, s) && AllIn(s, delims) && NUL !in delims
    ensures StrTok(b, i, delims) == Token(None, b, i + |s|)
  {
    var k := Skip(b, i, delims);
    forall j | i <= j < i + |s|
      ensures b[j] in delims
    {
      AtElement(b, i, s, j);
      assert s[j - i] in s;
    }
  }

  /** A call of strtok_r finds the word of a cut. */
  lemma WordFound(b: string, i: nat, s: string, delims: string, c: Cut)
    requires Field(b, i, s) && NUL !in delims && IsCut(s, delims, c) && c.word != ""
    ensures var k, e := i + |c.lead|, i + |c.lead| + |c.word|;
            && e < |b|
            && StrTok(b, i, delims) == if c.rest == "" then Token(Some(k), b, e) else Token(Some(k), b[e := NUL], e + 1)
  {
    hide StrTok, At, Free, AllIn;
    FieldPiece(b, i, c.lead, c.word, c.rest);
    var e := i + |c.lead| + |c.word|;
    if c.rest != "" {
      AtElement(b, e, c.rest, e);
      assert c.rest[0] in c.rest;
    }
    StrTokIs(b, i, delims, c.lead, c.word);
  }

  /** A call of strtok_r cuts the string it works on. */
  lemma TokenCuts(b: string, i: nat, s: string, delims: string)
    requires Field(b, i, s) && NUL !in delims
    ensures var c := CutAt(s, delims);
            var k, e := i + |c.lead|, i + |c.lead| + |c.word|;
            && (c.word != "" ==> e < |b|)
            && StrTok(b, i, delims) ==
                 if c.word == "" then Token(None, b, i + |s|)
                 else if c.rest == "" then Token(Some(k), b, e)
                 else Token(Some(k), b[e := NUL], e + 1)
  {
    var c := CutAt(s, delims);
    CutIsOne(s, delims);
    hide CutAt, StrTok, Field;
    if c.word == "" {
      assert c.lead + c.word + c.rest == c.lead;
      OnlyDelims(b, i, s, delims);
    } else {
      hide IsCut;
      WordFound(b, i, s, delims, c);
    }
  }

  /** After the call the word and what follows it are strings of the buffer. */
  lemma TokenFields(b: string, i: nat, s: string, delims: string)
    requires Field(b, i, s) && NUL !in delims && CutAt(s, delims).word != ""
    ensures var c, t := CutAt(s, delims), StrTok(b, i, delims);
            && t.start == Some(i + |c.lead|) && |t.buf| == |b|
            && Field(t.buf, i + |c.lead|, c.word) && Field(t.buf, t.save, After(c)) && t.save + |After(c)| == i + |s|
            && (c.rest != "" ==> t.save == i + |c.lead| + |c.word| + 1)
  {
    var c := CutAt(s, delims);
    CutIsOne(s, delims);
    hide CutAt, StrTok, Field, Free, AllIn;
    TokenCuts(b, i, s, delims);
    CutFields(b, i, c.lead, c.word, c.rest);
    assert |s| == |c.lead| + |c.word| + |c.rest|;
    hide IsCut;
  }

  /** A string in three pieces, the third losing its first character to a NUL. */
  lemma CutFields(b: string, i: nat, x: string, y: string, z: string)
    requires Field(b, i, x + y + z)
    ensures var e := i + |x| + |y|;
            if z == "" then Field(b, i + |x|, y) && Field(b, e, "")
            else Field(b[e := NUL], i + |x|, y) && Field(b[e := NUL], e + 1, z[1..])
  {
    FieldPiece(b, i, x, y, z);
    var e := i + |x| + |y|;
    assert b[i + |x + y + z|] == NUL && |x + y + z| == |x| + |y| + |z|;
    if z != "" {
      hide At;
      SplitAt(z, 1);
      AtPrefix(b, e, z[..1], z[1..]);
      UpdateOutside(b, i + |x|, y, e);
      UpdateOutside(b, e + 1, z[1..], e);
    }
  }

  lemma UpdateOutside(b: string, i: nat, s: string, e: nat)
    requires At(b, i, s) && e < |b| && (e < i || i + |s| <= e)
    ensures At(b[e := NUL], i, s)
  {
  }

  /** The call changes nothing outside the string it works on. */
  lemma TokenKeeps(b: string, i: nat, s: string, delims: string, j: nat, w: string)
    requires Field(b, i, s) && NUL !in delims && Field(b, j, w) && (j + |w| < i || i + |s| < j)
    ensures Field(StrTok(b, i, delims).buf, j, w)
  {
    var c := CutAt(s, delims);
    CutIsOne(s, delims);
    TokenCuts(b, i, s, delims);
    hide CutAt, StrTok, Free, AllIn;
    var e := i + |c.lead| + |c.word|;
    if c.word != "" && c.rest != "" {
      UpdateOutside(b, j, w, e);
    }
  }

  // ---- the chain of calls ----

  lemma VersionAt(b: string, i: nat, v: string)
    requires Field(b, i, v) && i + |v| + 1 == |b|
    ensures At(b, i, "HTTP/") <==> "HTTP/" <= v
  {
    if "HTTP/" <= v {
      assert b[i..i + |v|][..5] == b[i..i + 5];
    }
    if At(b, i, "HTTP/") {
      if |v| < 5 {
        AtElement(b, i, "HTTP/", i + |v|);
        assert false;
      }
      assert b[i..i + |v|][..5] == b[i..i + 5];
    }
  }

  /** The first two calls: the method, the address and the version. */
  lemma FirstCalls(line: string)
    requires NUL !in line
    ensures var b0 := line + [NUL];
            var c1 := CutAt(line, " ");
            var t1 := StrTok(b0, 0, " ");
            var c2 := CutAt(After(c1), " ");
            var t2 := StrTok(t1.buf, t1.save, " ");
            && (t1.start.None? <==> c1.word == "")
            && (c1.word != "" ==> (t2.start.None? <==> c2.word == ""))
            && (c1.word != "" && c2.word != "" ==>
                  && |t2.buf| == |b0|
                  && t1.start == Some(|c1.lead|) && Field(t2.buf, |c1.lead|, c1.word)
                  && Field(t2.buf, t2.start.value, c2.word) && |c1.lead| + |c1.word| < t2.start.value
                  && Field(t2.buf, t2.save, After(c2)) && t2.save + |After(c2)| == |line|
                  && (c2.rest != "" ==> t2.save == t2.start.value + |c2.word| + 1)
                  && (c2.rest == "" ==> t2.start.value + |c2.word| == |line|))
  {
    hide CutAt, StrTok, At;
    var b0 := line + [NUL];
    assert Field(b0, 0, line) by { LineField(line); }
    TokenCuts(b0, 0, line, " ");
    var c1 := CutAt(line, " ");
    if c1.word != "" {
      TokenFields(b0, 0, line, " ");
      var t1 := StrTok(b0, 0, " ");
      var s := After(c1);
      TokenCuts(t1.buf, t1.save, s, " ");
      var c2 := CutAt(s, " ");
      if c2.word != "" {
        CutIsOne(s, " ");
        assert c1.rest != "";
        TokenFields(t1.buf, t1.save, s, " ");
        TokenKeeps(t1.buf, t1.save, s, " ", |c1.lead|, c1.word);
      }
    }
  }

  lemma LineField(line: string)
    requires NUL !in line
    ensures Field(line + [NUL], 0, line)
  {
  }

  /** What is delimiter-free is its own word. */
  lemma WholeWord(s: string, delims: string)
    requires Free(s, delims)
    ensures CutAt(s, delims) == Cut("", s, "")
  {
    if s == "" {
      CutIsOne(s, delims);
    } else {
      assert "" + s + "" == s;
      CutIs(s, delims, Cut("", s, ""));
    }
  }

  /** Strings before and behind the address, which the calls on it leave alone. */
  predicate Outside(j: nat, w: string, addr: nat, a: string) {
    j + |w| < addr || addr + |a| < j
  }

  /** The third and fourth call: protocol and authority. */
  lemma AuthorityCalls(b: string, addr: nat, a: string)
    requires Field(b, addr, a) && CutAt(a, ":/").word != ""
    ensures var c3, t3 := CutAt(a, ":/"), StrTok(b, addr, ":/");
            var c4, t4 := CutAt(After(c3), "/"), StrTok(t3.buf, t3.save, "/");
            && t3.start == Some(addr + |c3.lead|) && |t3.buf| == |b| && Field(t3.buf, t3.start.value, c3.word)
            && (t4.start.None? <==> c4.word == "")
            && (c4.word != "" ==>
                  && c3.rest != "" && t3.save == addr + |c3.lead| + |c3.word| + 1
                  && Field(t3.buf, t3.save, After(c3)) && t3.save + |After(c3)| == addr + |a|
                  && t4.start == Some(t3.save + |c4.lead|) && |t4.buf| == |b|
                  && Field(t4.buf, t3.start.value, c3.word)
                  && Field(t4.buf, t4.start.value, c4.word)
                  && Field(t4.buf, t4.save, After(c4)) && t4.save + |After(c4)| == addr + |a|)
  {
    hide CutAt, StrTok, Field;
    FieldFits(b, addr, a);
    var c3, t3 := CutAt(a, ":/"), StrTok(b, addr, ":/");
    TokenFields(b, addr, a, ":/");
    TokenCuts(t3.buf, t3.save, After(c3), "/");
    var c4 := CutAt(After(c3), "/");
    if c4.word != "" {
      CutIsOne(After(c3), "/");
      assert c3.rest != "";
      TokenFields(t3.buf, t3.save, After(c3), "/");
      TokenKeeps(t3.buf, t3.save, After(c3), "/", t3.start.value, c3.word);
    }
  }

  lemma AuthorityKeeps(b: string, addr: nat, a: string, j: nat, w: string)
    requires Field(b, addr, a) && CutAt(a, ":/").word != "" && CutAt(After(CutAt(a, ":/")), "/").word != ""
    requires Field(b, j, w) && Outside(j, w, addr, a)
    ensures var t3 := StrTok(b, addr, ":/");
            Field(t3.buf, j, w) && Field(StrTok(t3.buf, t3.save, "/").buf, j, w)
  {
    hide CutAt, StrTok, Field;
    FieldFits(b, addr, a);
    AuthorityCalls(b, addr, a);
    TokenKeeps(b, addr, a, ":/", j, w);
    var t3 := StrTok(b, addr, ":/");
    TokenKeeps(t3.buf, t3.save, After(CutAt(a, ":/")), "/", j, w);
  }

  /** The comparison of lengths, made before the authority is cut off. */
  lemma UriLength(b: string, addr: nat, a: string, v: string)
    requires Field(b, addr, a) && CutAt(a, ":/").word != "" && CutAt(After(CutAt(a, ":/")), "/").word != ""
    requires Field(b, addr + |a| + 1, v) && |v| >= 5
    ensures var c3, t3 := CutAt(a, ":/"), StrTok(b, addr, ":/");
            var rem := addr + |c3.word| + 3;
            && rem < |b| == |t3.buf|
            && (StrLen(t3.buf, rem) == |CutAt(After(c3), "/").word| <==> NoPath(c3, CutAt(After(c3), "/")))
  {
    hide CutAt, StrTok, Field, StrLen;
    FieldFits(b, addr, a);
    var c3, t3 := CutAt(a, ":/"), StrTok(b, addr, ":/");
    var c4 := CutAt(After(c3), "/");
    CutIsOne(a, ":/");
    CutIsOne(After(c3), "/");
    AuthorityCalls(b, addr, a);
    AuthorityKeeps(b, addr, a, addr + |a| + 1, v);
    assert |a| == |c3.lead| + |c3.word| + 1 + |c4.lead| + |c4.word| + |c4.rest|;
    assert addr + |a| + 1 + |v| < |b| by { FieldFits(b, addr + |a| + 1, v); }
    var rem, e3 := addr + |c3.word| + 3, addr + |c3.lead| + |c3.word|;
    if |c3.lead| >= 3 {
      ProtocolField(b, addr, a);
      LengthAt(t3.buf, addr, c3.lead + c3.word, |c3.word| + 3);
    } else if rem <= addr + |a| {
      LengthAt(t3.buf, e3 + 1, After(c3), rem - e3 - 1);
    } else {
      LengthAt(t3.buf, rem, v, 0);
    }
  }

  lemma FieldFits(b: string, i: nat, s: string)
    requires Field(b, i, s)
    ensures Terminated(b) && i + |s| < |b|
  {
  }

  lemma LengthAt(b: string, i: nat, s: string, k: nat)
    requires Field(b, i, s) && k <= |s|
    ensures i + k < |b| && StrLen(b, i + k) == |s| - k
  {
    FieldTail(b, i, s, k);
    FieldRead(b, i + k, s[k..]);
  }

  /** The protocol and what stands before it, up to the NUL written behind it. */
  lemma ProtocolField(b: string, addr: nat, a: string)
    requires Field(b, addr, a) && CutAt(a, ":/").word != "" && CutAt(a, ":/").rest != ""
    ensures var c3 := CutAt(a, ":/"); Field(StrTok(b, addr, ":/").buf, addr, c3.lead + c3.word)
  {
    var c3 := CutAt(a, ":/");
    CutIsOne(a, ":/");
    hide CutAt, StrTok, Free, AllIn;
    TokenCuts(b, addr, a, ":/");
    assert a == "" + (c3.lead + c3.word) + c3.rest;
    CutFields(b, addr, "", c3.lead + c3.word, c3.rest);
  }

  /** The fifth call takes the path, the rest of the address. */
  lemma PathCall(b: string, i: nat, path: string)
    requires Field(b, i, path) && Free(path, " ")
    ensures StrTok(b, i, " ").buf == b
    ensures PathOf(b, StrTok(b, i, " ")) == if path != "" && path[0] == '/' then None else Some("/" + path)
  {
    hide CutAt, StrTok, Free;
    WholeWord(path, " ");
    TokenCuts(b, i, path, " ");
    if path != "" {
      FieldRead(b, i, path);
    } else {
      assert "/" + path == "/";
    }
  }

  /** The last two calls: host and port inside the authority. */
  lemma HostCalls(b: string, i: nat, auth: string)
    requires Field(b, i, auth) && Free(auth, "/")
    ensures var c5, t6 := CutAt(auth, ":"), StrTok(b, i, ":");
            var t7 := StrTok(t6.buf, t6.save, "/");
            && (t6.start.None? <==> c5.word == "")
            && (c5.word != "" ==>
                  && t7.buf == t6.buf && |t7.buf| == |b|
                  && t6.start.Some? && Field(t7.buf, t6.start.value, c5.word)
                  && (if After(c5) == "" then t7.start == None
                      else t7.start.Some? && Field(t7.buf, t7.start.value, After(c5))))
  {
    hide CutAt, StrTok, Field;
    TokenCuts(b, i, auth, ":");
    var c5, t6 := CutAt(auth, ":"), StrTok(b, i, ":");
    if c5.word != "" {
      CutIsOne(auth, ":");
      TokenFields(b, i, auth, ":");
      assert Free(After(c5), "/") by { AfterFree(auth, c5, "/"); }
      hide Free;
      WholeWord(After(c5), "/");
      TokenCuts(t6.buf, t6.save, After(c5), "/");
    }
  }

  lemma AfterFree(s: string, c: Cut, delims: string)
    requires s == c.lead + c.word + c.rest && Free(s, delims)
    ensures Free(After(c), delims) && Free(c.word, delims) && Free(c.rest, delims)
  {
    forall x | x in c.rest
      ensures x in s
    {
    }
  }

  lemma HostKeeps(b: string, i: nat, auth: string, j: nat, w: string)
    requires Field(b, i, auth) && Free(auth, "/") && CutAt(auth, ":").word != ""
    requires Field(b, j, w) && Outside(j, w, i, auth)
    ensures Field(StrTok(b, i, ":").buf, j, w)
  {
    TokenKeeps(b, i, auth, ":", j, w);
  }

  // ---- the parser does what the cuts say ----

  /** Everything after the first two calls. */
  function ParseAddress(b: string, t1: Token, addr: nat, version: nat): Option<Line>
    requires Terminated(b) && addr < |b| && version < |b| && t1.start.Some? && t1.start.value < |b|
  {
    var t3 := StrTok(b, addr, ":/");
    if t3.start.None? then None else
    var rem := addr + StrLen(t3.buf, t3.start.value) + 3;
    if rem >= |b| then None else
    var absUriLen := StrLen(t3.buf, rem);
    var t4 := StrTok(t3.buf, t3.save, "/");
    if t4.start.None? || StrLen(t4.buf, t4.start.value) == absUriLen then None else
    var t5 := StrTok(t4.buf, t4.save, " ");
    var path := PathOf(t5.buf, t5);
    if path.None? then None else
    var t6 := StrTok(t5.buf, t4.start.value, ":");
    var t7 := StrTok(t6.buf, t6.save, "/");
    if t6.start.None? then None else
    var port := if t7.start.None? then None else Some(StrAt(t7.buf, t7.start.value));
    Some(Line(StrAt(t7.buf, t1.start.value), StrAt(t7.buf, t3.start.value), StrAt(t7.buf, t6.start.value),
              port, path.value, StrAt(t7.buf, version)))
  }

  lemma ParseSplits(line: string)
    ensures var b0 := line + [NUL];
            var t1 := StrTok(b0, 0, " ");
            ParseLine(line) ==
              if t1.start.None? then None
              else
                var t2 := StrTok(t1.buf, t1.save, " ");
                if t2.start.None? then None
                else
                  var version := t2.start.value + StrLen(t2.buf, t2.start.value) + 1;
                  if version >= |b0| || !At(t2.buf, version, "HTTP/") then None
                  else ParseAddress(t2.buf, t1, t2.start.value, version)
  {
    hide StrTok, StrLen, StrAt, At, PathOf;
  }

  lemma AddressParts(a: string)
    requires Free(a, " ")
    ensures var c3 := CutAt(a, ":/");
            var c4 := CutAt(After(c3), "/");
            Free(c4.word, "/") && Free(After(c4), " ")
  {
    var c3 := CutAt(a, ":/");
    CutIsOne(a, ":/");
    AfterFree(a, c3, " ");
    var c4 := CutAt(After(c3), "/");
    CutIsOne(After(c3), "/");
    AfterFree(After(c3), c4, " ");
  }

  lemma AddressIsText(b: string, t1: Token, m: string, addr: nat, a: string, v: string)
    requires Field(b, addr, a) && Free(a, " ") && Field(b, addr + |a| + 1, v) && |v| >= 5
    requires t1.start.Some? && Field(b, t1.start.value, m) && t1.start.value + |m| < addr
    ensures addr < |b| && addr + |a| + 1 < |b| && t1.start.value < |b|
    ensures ParseAddress(b, t1, addr, addr + |a| + 1) == AddressText(m, a, v)
  {
    hide CutAt, StrTok, Field, StrAt, StrLen, PathOf, NoPath;
    FieldFits(b, addr, a);
    FieldFits(b, addr + |a| + 1, v);
    var c3, t3 := CutAt(a, ":/"), StrTok(b, addr, ":/");
    TokenCuts(b, addr, a, ":/");
    if c3.word != "" {
      AuthorityCalls(b, addr, a);
      FieldRead(t3.buf, t3.start.value, c3.word);
      var c4, t4 := CutAt(After(c3), "/"), StrTok(t3.buf, t3.save, "/");
      if c4.word != "" {
        UriLength(b, addr, a, v);
        FieldRead(t4.buf, t4.start.value, c4.word);
        AddressParts(a);
        AddressEnds(b, t1.start.value, m, addr, a, v, c3, c4, t3, t4);
        var c5, t6 := CutAt(c4.word, ":"), StrTok(StrTok(t4.buf, t4.save, " ").buf, t4.start.value, ":");
        if c5.word != "" {
          var t7 := StrTok(t6.buf, t6.save, "/");
          FieldRead(t7.buf, t1.start.value, m);
          FieldRead(t7.buf, t3.start.value, c3.word);
          FieldRead(t7.buf, t6.start.value, c5.word);
          FieldRead(t7.buf, addr + |a| + 1, v);
          if After(c5) != "" {
            FieldRead(t7.buf, t7.start.value, After(c5));
          }
        }
      }
    }
  }

  /** The calls after the authority has been found. */
  lemma AddressEnds(
    b: string, j: nat, m: string, addr: nat, a: string, v: string, c3: Cut, c4: Cut, t3: Token, t4: Token)
    requires Field(b, addr, a) && Free(a, " ") && Field(b, addr + |a| + 1, v)
    requires Field(b, j, m) && j + |m| < addr
    requires c3 == CutAt(a, ":/") && c3.word != "" && c4 == CutAt(After(c3), "/") && c4.word != ""
    requires t3 == StrTok(b, addr, ":/") && t4 == StrTok(t3.buf, t3.save, "/")
    ensures t4.start.Some? && StrTok(t4.buf, t4.save, " ").buf == t4.buf
    ensures PathOf(t4.buf, StrTok(t4.buf, t4.save, " ")) ==
            if After(c4) != "" && After(c4)[0] == '/' then None else Some("/" + After(c4))
    ensures var t6 := StrTok(t4.buf, t4.start.value, ":");
            t6.start.None? <==> CutAt(c4.word, ":").word == ""
    ensures var t6 := StrTok(t4.buf, t4.start.value, ":");
            CutAt(c4.word, ":").word != "" ==>
              && t3.start.Some? && t6.start.Some?
              && AllFields(b, j, m, c3.word, t3.start.value, CutAt(c4.word, ":"), t6.start.value,
                           StrTok(t6.buf, t6.save, "/"), addr + |a| + 1, v)
  {
    hide CutAt, StrTok, Field, PathOf;
    FieldFits(b, addr, a);
    AuthorityCalls(b, addr, a);
    AddressParts(a);
    hide Free;
    AuthorityKeeps(b, addr, a, j, m);
    AuthorityKeeps(b, addr, a, addr + |a| + 1, v);
    PathCall(t4.buf, t4.save, After(c4));
    HostCalls(t4.buf, t4.start.value, c4.word);
    if CutAt(c4.word, ":").word != "" {
      CutIsOne(After(c3), "/");
      assert |After(c3)| == |c4.lead| + |c4.word| + |c4.rest|;
      HostKeeps(t4.buf, t4.start.value, c4.word, j, m);
      HostKeeps(t4.buf, t4.start.value, c4.word, t3.start.value, c3.word);
      HostKeeps(t4.buf, t4.start.value, c4.word, addr + |a| + 1, v);
    }
  }

  /** The strings that the last call leaves in the buffer. */
  predicate AllFields(
    b: string, j: nat, m: string, p: string, atP: nat, c5: Cut, atH: nat, t7: Token, atV: nat, v: string)
  {
    && |t7.buf| == |b| && Field(t7.buf, j, m) && Field(t7.buf, atP, p) && Field(t7.buf, atH, c5.word)
    && Field(t7.buf, atV, v)
    && if After(c5) == "" then t7.start == None else t7.start.Some? && Field(t7.buf, t7.start.value, After(c5))
  }

  /** The strtok_r program on one buffer is the chain of cuts, for every line. */
  lemma ParseIsText(line: string)
    requires NUL !in line
    ensures ParseLine(line) == ParseText(line)
  {
    hide CutAt, StrTok, Field, StrAt, StrLen, At, ParseAddress, ParseLine, AddressText;
    ParseSplits(line);
    FirstCalls(line);
    var b0 := line + [NUL];
    var c1, t1 := CutAt(line, " "), StrTok(b0, 0, " ");
    if c1.word != "" {
      var c2, t2 := CutAt(After(c1), " "), StrTok(t1.buf, t1.save, " ");
      if c2.word != "" {
        CutIsOne(After(c1), " ");
        var addr := t2.start.value;
        FieldRead(t2.buf, addr, c2.word);
        if c2.rest != "" {
          VersionAt(t2.buf, t2.save, After(c2));
          if "HTTP/" <= After(c2) {
            AddressIsText(t2.buf, t1, c1.word, addr, c2.word, After(c2));
          }
        }
      }
    }
  }

  // ---- accepted lines, piece by piece ----

  /** A request line in pieces; the tail follows the host in the authority, the rest follows the authority. */
  datatype Pieces = Pieces(
    indent: string, method_: string, gap: string,
    lead: string, protocol: string, sep: char, slashes: string,
    colons: string, host: string, tail: string, rest: string, version: string)

  function Authority(q: Pieces): string { q.colons + q.host + q.tail }

  function Address(q: Pieces): string {
    q.lead + q.protocol + ([q.sep] + (q.slashes + Authority(q) + q.rest))
  }

  function Text(q: Pieces): string {
    q.indent + q.method_ + (q.gap + Address(q) + (" " + q.version))
  }

  /**
   The accepted shape. Spaces, a method, spaces, an address without spaces, one space, a version that begins "HTTP/".
   The address: colons and slashes, a protocol, one of them, slashes, an authority, and nothing or a slash with no
   second one behind it. The authority: colons, a host, and nothing or a colon and anything but slashes. Last, the
   comparison meant to detect a missing path: with fewer than three characters before the protocol, those, the slashes
   before the authority and the rest must not be two characters together.
   */
  predicate Shaped(q: Pieces) {
    && AllIn(q.indent, " ") && q.method_ != "" && Free(q.method_, " ") && q.gap != "" && AllIn(q.gap, " ")
    && Free(Address(q), " ") && "HTTP/" <= q.version
    && AllIn(q.lead, ":/") && q.protocol != "" && Free(q.protocol, ":/") && q.sep in ":/" && AllIn(q.slashes, "/")
    && AllIn(q.colons, ":") && q.host != "" && Free(q.host, ":/")
    && Free(q.tail, "/") && (q.tail == "" || q.tail[0] == ':')
    && (q.rest == "" || (q.rest[0] == '/' && (|q.rest| == 1 || q.rest[1] != '/')))
    && (if |q.lead| >= 3 then |Authority(q)| != |q.lead| - 3 else |q.lead| + |q.slashes| + |q.rest| != 2)
  }

  function FieldsOf(q: Pieces): Line {
    Line(q.method_, q.protocol, q.host, if |q.tail| <= 1 then None else Some(q.tail[1..]),
         if q.rest == "" then "/" else q.rest, q.version)
  }

  lemma FreeJoin(a: string, b: string, delims: string)
    ensures Free(a + b, delims) <==> Free(a, delims) && Free(b, delims)
  {
    assert forall c :: c in a ==> c in a + b;
    assert forall c :: c in b ==> c in a + b;
  }

  lemma AuthorityFree(q: Pieces)
    requires Shaped(q)
    ensures Free(Authority(q), "/") && Authority(q) != ""
  {
    assert ':' !in "/";
    assert Free(q.colons, "/");
    FreeJoin(q.colons, q.host, "/");
    FreeJoin(q.colons + q.host, q.tail, "/");
    assert Free(q.host, "/") by { assert '/' in ":/"; }
  }

  lemma CutTriple(lead: string, word: string, rest: string, delims: string)
    requires AllIn(lead, delims) && word != "" && Free(word, delims) && (rest != "" ==> rest[0] in delims)
    ensures CutAt(lead + word + rest, delims) == Cut(lead, word, rest)
  {
    CutIs(lead + word + rest, delims, Cut(lead, word, rest));
  }

  lemma CutsOfAddress(q: Pieces)
    requires Shaped(q)
    ensures CutAt(Address(q), ":/") == Cut(q.lead, q.protocol, [q.sep] + (q.slashes + Authority(q) + q.rest))
    ensures CutAt(q.slashes + Authority(q) + q.rest, "/") == Cut(q.slashes, Authority(q), q.rest)
    ensures CutAt(Authority(q), ":") == Cut(q.colons, q.host, q.tail)
  {
    AuthorityFree(q);
    assert Free(q.host, ":") by { assert ':' in ":/"; }
    hide CutAt;
    CutTriple(q.colons, q.host, q.tail, ":");
    hide Authority;
    CutTriple(q.lead, q.protocol, [q.sep] + (q.slashes + Authority(q) + q.rest), ":/");
    CutTriple(q.slashes, Authority(q), q.rest, "/");
  }

  lemma AfterMark(lead: string, word: string, mark: char, x: string)
    ensures After(Cut(lead, word, [mark] + x)) == x
  {
    Cons(mark, x);
  }

  /** The path that is made of what follows the authority. */
  lemma PathText(lead: string, word: string, rest: string)
    requires rest == "" || (rest[0] == '/' && (|rest| == 1 || rest[1] != '/'))
    ensures var path := After(Cut(lead, word, rest));
            && (path != "" ==> path[0] != '/')
            && "/" + path == if rest == "" then "/" else rest
  {
    if rest != "" {
      SplitAt(rest, 1);
    }
  }

  lemma AddressFromCuts(m: string, a: string, v: string, c3: Cut, c4: Cut, c5: Cut)
    requires CutAt(a, ":/") == c3 && CutAt(After(c3), "/") == c4 && CutAt(c4.word, ":") == c5
    requires c3.word != "" && c4.word != "" && c5.word != "" && !NoPath(c3, c4)
    requires After(c4) != "" ==> After(c4)[0] != '/'
    ensures AddressText(m, a, v) ==
            Some(Line(m, c3.word, c5.word, if After(c5) == "" then None else Some(After(c5)), "/" + After(c4), v))
  {
    hide CutAt, After, NoPath;
  }

  lemma ShapedAddress(q: Pieces)
    requires Shaped(q)
    ensures AddressText(q.method_, Address(q), q.version) == Some(FieldsOf(q))
  {
    var a, auth, x := Address(q), Authority(q), q.slashes + Authority(q) + q.rest;
    var c3, c4, c5 := Cut(q.lead, q.protocol, [q.sep] + x), Cut(q.slashes, auth, q.rest), Cut(q.colons, q.host, q.tail);
    AuthorityFree(q);
    assert c3.word != "" && c5.word != "" && !NoPath(c3, c4);
    PathText(q.slashes, auth, q.rest);
    CutsOfAddress(q);
    AfterMark(q.lead, q.protocol, q.sep, x);
    TailText(q);
    hide CutAt, Address, Authority, Shaped, Free, AddressText, After, NoPath, AllIn;
    AddressFromCuts(q.method_, a, q.version, c3, c4, c5);
  }

  lemma TailText(q: Pieces)
    ensures After(Cut(q.colons, q.host, q.tail)) == if |q.tail| <= 1 then "" else q.tail[1..]
    ensures |q.tail| > 1 ==> q.tail[1..] != ""
  {
  }

  /** Every line of the shape is accepted, with its pieces as the fields. */
  lemma ShapedParses(q: Pieces)
    requires Shaped(q)
    ensures ParseText(Text(q)) == Some(FieldsOf(q))
  {
    ShapedAddress(q);
    SpacesCut(q);
    assert q.method_ != "" && "HTTP/" <= q.version;
    hide CutAt, Address, Shaped, AddressText, Text;
    AfterMark(q.gap[1..], Address(q), ' ', q.version);
  }

  lemma SpacesCut(q: Pieces)
    requires Shaped(q)
    ensures q.gap != "" && Address(q) != ""
    ensures var c1 := CutAt(Text(q), " ");
            c1.word == q.method_ && CutAt(After(c1), " ") == Cut(q.gap[1..], Address(q), " " + q.version)
  {
    assert Address(q) != "";
    assert q.gap[0] in q.gap;
    var more := " " + q.version;
    var after := q.gap + Address(q) + more;
    assert Text(q) == q.indent + q.method_ + after;
    assert AllIn(q.gap[1..], " ");
    hide CutAt, Address, Text, After;
    CutTriple(q.indent, q.method_, after, " ");
    CutTriple(q.gap[1..], Address(q), more, " ");
    GapAfter(q.indent, q.method_, q.gap, Address(q), more);
  }

  lemma GapAfter(lead: string, word: string, gap: string, x: string, y: string)
    requires gap != ""
    ensures After(Cut(lead, word, gap + x + y)) == gap[1..] + x + y
  {
    assert (gap + x + y)[1..] == gap[1..] + x + y;
  }

  /** The cuts of an accepted line. */
  lemma ParsedCuts(line: string, l: Line) returns (c1: Cut, c2: Cut, c3: Cut, c4: Cut, c5: Cut)
    requires ParseText(line) == Some(l)
    ensures IsCut(line, " ", c1) && IsCut(After(c1), " ", c2) && IsCut(c2.word, ":/", c3)
    ensures IsCut(After(c3), "/", c4) && IsCut(c4.word, ":", c5)
    ensures c1.word != "" && c1.rest != "" && c2.word != "" && c2.rest != "" && c3.word != "" && c3.rest != ""
    ensures c4.word != "" && c5.word != "" && !NoPath(c3, c4) && (After(c4) != "" ==> After(c4)[0] != '/')
    ensures "HTTP/" <= After(c2)
    ensures l == Line(c1.word, c3.word, c5.word, if After(c5) == "" then None else Some(After(c5)),
                      "/" + After(c4), After(c2))
  {
    hide CutAt, IsCut;
    c1 := CutAt(line, " ");
    c2 := CutAt(After(c1), " ");
    c3 := CutAt(c2.word, ":/");
    c4 := CutAt(After(c3), "/");
    c5 := CutAt(c4.word, ":");
    CutIsOne(line, " ");
    CutIsOne(After(c1), " ");
    CutIsOne(c2.word, ":/");
    CutIsOne(After(c3), "/");
    CutIsOne(c4.word, ":");
    assert c1.rest == "" ==> c2.word == "" by { NothingAfter(After(c1), " ", c2); }
    assert c3.rest == "" ==> c4.word == "" by { NothingAfter(After(c3), "/", c4); }
  }

  lemma NothingAfter(s: string, delims: string, c: Cut)
    requires IsCut(s, delims, c)
    ensures s == "" ==> c.word == ""
  {
  }

  function PiecesOf(c1: Cut, c2: Cut, c3: Cut, c4: Cut, c5: Cut): Pieces
    requires c1.rest != "" && c3.rest != ""
  {
    Pieces(c1.lead, c1.word, [c1.rest[0]] + c2.lead, c3.lead, c3.word, c3.rest[0], c4.lead,
           c5.lead, c5.word, c5.rest, c4.rest, After(c2))
  }

  lemma PiecesText(line: string, c1: Cut, c2: Cut, c3: Cut, c4: Cut, c5: Cut)
    requires IsCut(line, " ", c1) && IsCut(After(c1), " ", c2) && IsCut(c2.word, ":/", c3)
    requires IsCut(After(c3), "/", c4) && IsCut(c4.word, ":", c5)
    requires c1.rest != "" && c2.rest != "" && c3.rest != ""
    ensures var q := PiecesOf(c1, c2, c3, c4, c5); Authority(q) == c4.word && Address(q) == c2.word && Text(q) == line
  {
    var q := PiecesOf(c1, c2, c3, c4, c5);
    hide AllIn, Free;
    assert Authority(q) == c4.word;
    SplitAt(c3.rest, 1);
    assert Address(q) == c2.word;
    SplitAt(c2.rest, 1);
    assert c2.rest == " " + q.version;
    SplitAt(c1.rest, 1);
    JoinLine(q, c1, c2);
  }

  lemma PiecesShaped(line: string, c1: Cut, c2: Cut, c3: Cut, c4: Cut, c5: Cut)
    requires IsCut(line, " ", c1) && IsCut(After(c1), " ", c2) && IsCut(c2.word, ":/", c3)
    requires IsCut(After(c3), "/", c4) && IsCut(c4.word, ":", c5)
    requires c1.word != "" && c1.rest != "" && c2.rest != "" && c3.word != "" && c3.rest != ""
    requires c5.word != "" && !NoPath(c3, c4) && (After(c4) != "" ==> After(c4)[0] != '/') && "HTTP/" <= After(c2)
    ensures Shaped(PiecesOf(c1, c2, c3, c4, c5))
  {
    PiecesText(line, c1, c2, c3, c4, c5);
    AfterFree(c4.word, c5, "/");
    assert Free(c5.word, ":/");
    hide Address, Authority, Text;
  }

  /** The pieces of an accepted line. */
  lemma ParsedShaped(line: string, l: Line) returns (q: Pieces)
    requires ParseText(line) == Some(l)
    ensures Shaped(q) && Text(q) == line && FieldsOf(q) == l
  {
    hide ParseText, Shaped, Text, NoPath, AllIn, Free;
    var c1, c2, c3, c4, c5 := ParsedCuts(line, l);
    q := PiecesOf(c1, c2, c3, c4, c5);
    PiecesText(line, c1, c2, c3, c4, c5);
    PiecesShaped(line, c1, c2, c3, c4, c5);
    PiecesFields(c1, c2, c3, c4, c5);
  }

  lemma PiecesFields(c1: Cut, c2: Cut, c3: Cut, c4: Cut, c5: Cut)
    requires c1.rest != "" && c3.rest != "" && (c4.rest != "" ==> c4.rest[0] == '/')
    ensures FieldsOf(PiecesOf(c1, c2, c3, c4, c5)) ==
            Line(c1.word, c3.word, c5.word, if After(c5) == "" then None else Some(After(c5)),
                 "/" + After(c4), After(c2))
  {
    if c4.rest != "" {
      SplitAt(c4.rest, 1);
    }
  }

  lemma JoinLine(q: Pieces, c1: Cut, c2: Cut)
    requires c1.rest != "" && q.gap == [c1.rest[0]] + c2.lead && q.indent == c1.lead && q.method_ == c1.word
    requires c1.rest[1..] == c2.lead + Address(q) + (" " + q.version)
    ensures Text(q) == c1.lead + c1.word + c1.rest
  {
    hide Address;
    assert q.gap + Address(q) + (" " + q.version) == [c1.rest[0]] + c1.rest[1..];
    assert [c1.rest[0]] + c1.rest[1..] == c1.rest;
  }

  /**
   The accepted lines: a line without NUL is accepted with fields `l` if and only if it is put together from pieces of
   the accepted shape and these are the fields.
   */
  lemma AcceptedExactly(line: string, l: Line)
    requires NUL !in line
    ensures ParseLine(line) == Some(l) <==> exists q :: Shaped(q) && Text(q) == line && FieldsOf(q) == l
  {
    ParseIsText(line);
    hide ParseLine, ParseText, Shaped, Text, FieldsOf;
    if ParseText(line) == Some(l) {
      var q := ParsedShaped(line, l);
    }
    if exists q :: Shaped(q) && Text(q) == line && FieldsOf(q) == l {
      var q :| Shaped(q) && Text(q) == line && FieldsOf(q) == l;
      ShapedParses(q);
    }
  }
}
