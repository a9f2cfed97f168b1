/** `ParsedRequest_parse` and `ParsedRequest_unparse` of HTTP/starter_code/proxy_parse.c. */
module HttpRequest {
  import opened Base
  import opened HttpText

  const MIN_REQ_LEN: int := 4
  const MAX_REQ_LEN: int := 65535

  type Headers = seq<(string, string)>

  datatype Line = Line(
    method_: string, protocol: string, host: string, port: Option<string>, path: string, version: string)

  datatype Request = Request(line: Line, headers: Headers)

  // ---- headers ----

  /** The list without a key. */
  function Without(hs: Headers, key: string): Headers {
    if hs == [] then []
    else if hs[0].0 == key then Without(hs[1..], key)
    else [hs[0]] + Without(hs[1..], key)
  }

  /** Setting a header removes the key and appends the new pair. */
  function SetHeader(hs: Headers, key: string, value: string): Headers {
    Without(hs, key) + [(key, value)]
  }

  function HeaderLine(h: (string, string)): string { h.0 + ": " + h.1 + CRLF }

  function HeaderLines(hs: Headers): string {
    if hs == [] then [] else HeaderLine(hs[0]) + HeaderLines(hs[1..])
  }

  /** What `ParsedHeader_printHeaders` writes. */
  function HeaderText(hs: Headers): string { HeaderLines(hs) + CRLF }

  /** Whether the header loop succeeds, and the headers it leaves behind in either case. */
  datatype Outcome = Outcome(ok: bool, headers: Headers)

  /** The header loop from position `cur` of the text. It fails at no colon, or a read past the end of the text. */
  function HeaderLoop(t: string, cur: nat, hs: Headers): Outcome
    decreases |t| - cur
  {
    if cur >= |t| || Occurs(t, CRLF, cur) then Outcome(true, hs)
    else
      var colon := Find(t, ":", cur);
      if colon.None? || colon.value + 2 > |t| then Outcome(false, hs)
      else
        var end := Find(t, CRLF, colon.value + 2);
        if end.None? then Outcome(false, hs)
        else
          var hs' := SetHeader(hs, t[cur..colon.value], t[colon.value + 2..end.value]);
          var next := Find(t, CRLF, cur);
          if next.None? then Outcome(true, hs') else HeaderLoop(t, next.value + 2, hs')
  }

  function ParseHeaders(t: string, cur: nat, hs: Headers): Option<Headers> {
    var o := HeaderLoop(t, cur, hs);
    if o.ok then Some(o.headers) else None
  }

  // ---- the request line ----

  function LineText(l: Line): string {
    l.method_ + " " + l.protocol + "://" + l.host + (if l.port.Some? then ":" + l.port.value else "")
    + l.path + " " + l.version
  }

  /** A path token: empty becomes the root, a second slash is refused. */
  function PathOf(b: string, t: Token): Option<string>
    requires Terminated(b) && (t.start.Some? ==> t.start.value < |b|)
  {
    if t.start.None? then Some("/")
    else
      var p := StrAt(b, t.start.value);
      if p != [] && p[0] == '/' then None else Some("/" + p)
  }

  /** None is a refused line; a read past the end of the buffer counts as one. */
  function ParseLine(line: string): Option<Line> {
    var b0 := line + ['\0'];
    var t1 := StrTok(b0, 0, " ");
    if t1.start.None? then None else
    var t2 := StrTok(t1.buf, t1.save, " ");
    if t2.start.None? then None else
    var addr := t2.start.value;
    var version := addr + StrLen(t2.buf, addr) + 1;
    if version >= |b0| || !At(t2.buf, version, "HTTP/") then None else
    var t3 := StrTok(t2.buf, addr, ":/");
    if t3.start.None? then None else
    var rem := addr + StrLen(t3.buf, t3.start.value) + 3;
    if rem >= |b0| then None else
    var absUriLen := StrLen(t3.buf, rem);
    var t4 := StrTok(t3.buf, t3.save, "/");
    if t4.start.None? || StrLen(t4.buf, t4.start.value) == absUriLen then None else
    var t5 := StrTok(t4.buf, t4.save, " ");
    var path := PathOf(t5.buf, t5);
    if path.None? then None else
    var t6 := StrTok(t5.buf, t4.start.value, ":");
    var t7 := StrTok(t6.buf, t6.save, "/");
    if t6.start.None? then None else
    var port := if t7.start.None? then None else Some(StrAt(t7.buf, t7.start.value));
    Some(Line(StrAt(t7.buf, t1.start.value), StrAt(t7.buf, t3.start.value), StrAt(t7.buf, t6.start.value),
              port, path.value, StrAt(t7.buf, version)))
  }

  /** The request line found in a buffer, if it is accepted; the headers may still be refused. */
  function RequestLine(buf: string): Option<Line> {
    if |buf| < MIN_REQ_LEN || |buf| > MAX_REQ_LEN then None else
    var t := CString(buf);
    if Find(t, CRLF + CRLF, 0).None? then None else
    var end := Find(t, CRLF, 0);
    if end.None? then None else ParseLine(t[..end.value])
  }

  /** Where the headers begin. */
  function HeadersStart(buf: string): nat {
    var end := Find(CString(buf), CRLF, 0);
    if end.None? then 0 else end.value + 2
  }

  /** `ParsedRequest_parse` on an object that holds the headers `hs` and no request line. */
  function ParseOnto(buf: string, hs: Headers): Option<Request> {
    var line := RequestLine(buf);
    if line.None? then None else
    var hs' := ParseHeaders(CString(buf), HeadersStart(buf), hs);
    if hs'.None? then None else Some(Request(line.value, hs'.value))
  }

  /** Parsing into a new object. */
  function Parse(buf: string): Option<Request> { ParseOnto(buf, []) }

  function Unparse(r: Request): string {
    LineText(r.line) + CRLF + HeaderText(r.headers)
  }

  // ---- well-formed requests ----

  /** A field free of NUL and line ends and of the characters that would end it. */
  predicate Clean(s: string, ends: string) {
    '\0' !in s && NoCrlf(s) && Free(s, ends)
  }

  predicate WellFormedLine(l: Line) {
    && l.method_ != [] && Clean(l.method_, " ")
    && l.protocol != [] && Clean(l.protocol, " :/")
    && l.host != [] && Clean(l.host, " :/")
    && (l.port.Some? ==> l.port.value != [] && Clean(l.port.value, " /"))
    && l.path != [] && l.path[0] == '/' && Clean(l.path[1..], " ") && (|l.path| > 1 ==> l.path[1] != '/')
    && Clean(l.version, "") && "HTTP/" <= l.version
  }

  predicate UniqueKeys(hs: Headers) {
    forall i, j :: 0 <= i < j < |hs| ==> hs[i].0 != hs[j].0
  }

  predicate WellFormedHeaders(hs: Headers) {
    && UniqueKeys(hs)
    && forall i :: 0 <= i < |hs| ==> Clean(hs[i].0, ":") && Clean(hs[i].1, "")
  }

  predicate WellFormed(r: Request) {
    WellFormedLine(r.line) && WellFormedHeaders(r.headers)
  }

  // ---- headers parse back ----

  lemma {:induction false} WithoutAbsent(hs: Headers, key: string)
    requires forall i :: 0 <= i < |hs| ==> hs[i].0 != key
    ensures Without(hs, key) == hs
  {
    if hs != [] {
      WithoutAbsent(hs[1..], key);
    }
  }

  lemma NoCrlfHeader(k: string, v: string)
    requires NoCrlf(k) && NoCrlf(v)
    ensures NoCrlf(k + ": " + v)
  {
    var s := k + ": " + v;
    forall j | 0 <= j && j + 1 < |s|
      ensures !(s[j] == '\r' && s[j + 1] == '\n')
    {
      if j + 1 < |k| {
        assert s[j] == k[j] && s[j + 1] == k[j + 1];
      } else if j >= |k| + 2 {
        assert s[j] == v[j - |k| - 2] && s[j + 1] == v[j + 1 - |k| - 2];
      }
    }
  }

  lemma FindColon(t: string, cur: nat, k: string)
    requires At(t, cur, k) && Free(k, ":") && cur + |k| < |t| && t[cur + |k|] == ':'
    ensures Find(t, ":", cur) == Some(cur + |k|)
  {
    hide Find;
    forall j | cur <= j < cur + |k|
      ensures !Occurs(t, ":", j)
    {
      AtElement(t, cur, k, j);
      assert k[j - cur] in k && ':' in ":";
      assert t[j..j + 1] == [t[j]];
    }
    assert t[cur + |k|..cur + |k| + 1] == [t[cur + |k|]];
    FindIs(t, ":", cur, cur + |k|);
  }

  lemma AtPrefix(t: string, i: nat, a: string, b: string)
    requires At(t, i, a + b)
    ensures At(t, i, a) && At(t, i + |a|, b)
  {
    assert t[i..i + |a|] == (a + b)[..|a|];
    assert t[i + |a|..i + |a| + |b|] == (a + b)[|a|..];
  }

  /** A printed header line: key, colon and space, value, line end. */
  lemma HeaderParts(t: string, cur: nat, k: string, v: string)
    requires At(t, cur, HeaderLine((k, v)))
    ensures At(t, cur, k + ": " + v) && At(t, cur, k) && At(t, cur + |k|, ": ")
    ensures At(t, cur + |k| + 2, v) && At(t, cur + |k| + 2 + |v|, CRLF)
    ensures |HeaderLine((k, v))| == |k| + |v| + 4
  {
    hide At;
    AtPrefix(t, cur, k + ": " + v, CRLF);
    AtPrefix(t, cur, k + ": ", v);
    AtPrefix(t, cur, k, ": ");
  }

  lemma HeaderKey(t: string, cur: nat, k: string)
    requires At(t, cur, k) && At(t, cur + |k|, ": ") && Free(k, ":")
    ensures Find(t, ":", cur) == Some(cur + |k|) && cur + |k| + 2 <= |t|
  {
    hide Find;
    AtElement(t, cur + |k|, ": ", cur + |k|);
    FindColon(t, cur, k);
  }

  lemma HeaderEnd(t: string, cur: nat, k: string, v: string)
    requires At(t, cur, k + ": " + v) && At(t, cur + |k| + 2 + |v|, CRLF) && NoCrlf(k) && NoCrlf(v)
    ensures Find(t, CRLF, cur) == Some(cur + |k| + 2 + |v|)
  {
    hide Find, At, NoCrlf;
    NoCrlfHeader(k, v);
    FindLineEnd(t, cur, k + ": " + v);
  }

  /** One pass of the header loop, case by case. */
  lemma LoopUnfold(t: string, cur: nat, hs: Headers)
    ensures cur >= |t| || Occurs(t, CRLF, cur) ==> HeaderLoop(t, cur, hs) == Outcome(true, hs)
    ensures cur < |t| && !Occurs(t, CRLF, cur) ==>
              var colon := Find(t, ":", cur);
              if colon.None? || colon.value + 2 > |t| then HeaderLoop(t, cur, hs) == Outcome(false, hs)
              else
                var end := Find(t, CRLF, colon.value + 2);
                if end.None? then HeaderLoop(t, cur, hs) == Outcome(false, hs)
                else
                  var hs' := SetHeader(hs, t[cur..colon.value], t[colon.value + 2..end.value]);
                  var next := Find(t, CRLF, cur);
                  HeaderLoop(t, cur, hs) ==
                    if next.None? then Outcome(true, hs') else HeaderLoop(t, next.value + 2, hs')
  {
    hide SetHeader, Find, Occurs;
  }

  /** One header line is parsed as it was printed. */
  lemma OneHeader(t: string, cur: nat, h: (string, string), hs: Headers)
    requires At(t, cur, HeaderLine(h)) && Clean(h.0, ":") && Clean(h.1, "")
    ensures ParseHeaders(t, cur, hs) == ParseHeaders(t, cur + |HeaderLine(h)|, SetHeader(hs, h.0, h.1))
  {
    hide NoCrlf, Free, SetHeader, HeaderLine, HeaderLoop, Find;
    var (k, v) := h;
    HeaderParts(t, cur, k, v);
    HeaderKey(t, cur, k);
    HeaderEnd(t, cur, k, v);
    FindLineEnd(t, cur + |k| + 2, v);
    LoopUnfold(t, cur, hs);
    assert !Occurs(t, CRLF, cur);
  }

  lemma EndOfHeaders(t: string, cur: nat, hs: Headers)
    requires At(t, cur, CRLF)
    ensures ParseHeaders(t, cur, hs) == Some(hs)
  {
  }

  lemma {:induction false} HeadersParseBack(t: string, cur: nat, hs: Headers, done: Headers)
    requires At(t, cur, HeaderText(hs)) && cur + |HeaderText(hs)| == |t|
    requires WellFormedHeaders(done + hs)
    ensures ParseHeaders(t, cur, done) == Some(done + hs)
    decreases |hs|
  {
    hide ParseHeaders, HeaderLine, Clean;
    if hs == [] {
      assert HeaderText(hs) == CRLF;
      EndOfHeaders(t, cur, done);
      assert done + hs == done;
    } else {
      var h, rest := hs[0], hs[1..];
      assert h == (done + hs)[|done|];
      assert HeaderText(hs) == HeaderLine(h) + HeaderText(rest);
      AtPrefix(t, cur, HeaderLine(h), HeaderText(rest));
      OneHeader(t, cur, h, done);
      forall i | 0 <= i < |done|
        ensures done[i].0 != h.0
      {
        assert (done + hs)[i] == done[i];
      }
      WithoutAbsent(done, h.0);
      assert done + [h] + rest == done + hs;
      HeadersParseBack(t, cur + |HeaderLine(h)|, rest, done + [h]);
    }
  }
}
