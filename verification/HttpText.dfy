/** The C string functions that HTTP/starter_code/proxy_parse.c is built on. */
module HttpText {
  import opened Base

  // ---- strstr and index on text without NUL ----

  predicate Occurs(t: string, pat: string, i: nat) {
    i + |pat| <= |t| && t[i..i + |pat|] == pat
  }

  /** `strstr(t + i, pat)`, as a position in `t`. */
  function Find(t: string, pat: string, i: nat): (r: Option<nat>)
    ensures r.Some? ==> i <= r.value && Occurs(t, pat, r.value)
    ensures r.Some? ==> forall j :: i <= j < r.value ==> !Occurs(t, pat, j)
    ensures r.None? ==> forall j :: i <= j ==> !Occurs(t, pat, j)
    decreases |t| - i
  {
    if i + |pat| > |t| then None
    else if t[i..i + |pat|] == pat then Some(i)
    else Find(t, pat, i + 1)
  }

  lemma FindIs(t: string, pat: string, i: nat, k: nat)
    requires i <= k && Occurs(t, pat, k)
    requires forall j :: i <= j < k ==> !Occurs(t, pat, j)
    ensures Find(t, pat, i) == Some(k)
  {
  }

  /** A buffer read as a C string: what comes before its first NUL. */
  function CString(s: string): (r: string)
    ensures r <= s && '\0' !in r
  {
    if s == [] || s[0] == '\0' then [] else [s[0]] + CString(s[1..])
  }

  lemma {:induction false} CStringWhole(s: string)
    requires '\0' !in s
    ensures CString(s) == s
  {
    if s != [] {
      CStringWhole(s[1..]);
    }
  }

  /** `s` stands in the buffer at position `i`. */
  predicate At(b: string, i: nat, s: string) {
    i + |s| <= |b| && b[i..i + |s|] == s
  }

  lemma AtElement(b: string, i: nat, s: string, j: nat)
    requires At(b, i, s) && i <= j < i + |s|
    ensures b[j] == s[j - i]
  {
    assert b[j] == b[i..i + |s|][j - i];
  }

  const CRLF: string := "\r\n"

  const NUL: char := '\0'

  predicate NoCrlf(s: string) {
    forall j :: 0 <= j && j + 1 < |s| ==> !(s[j] == '\r' && s[j + 1] == '\n')
  }

  lemma CrlfAt(t: string, j: nat)
    ensures Occurs(t, CRLF, j) <==> j + 1 < |t| && t[j] == '\r' && t[j + 1] == '\n'
  {
    if j + 1 < |t| {
      assert t[j..j + 2] == [t[j], t[j + 1]];
    }
  }

  /** Text free of line ends, followed by one: that one is found. */
  lemma FindLineEnd(t: string, i: nat, s: string)
    requires NoCrlf(s) && At(t, i, s) && At(t, i + |s|, CRLF)
    ensures Find(t, CRLF, i) == Some(i + |s|)
  {
    hide Find;
    forall j | i <= j < i + |s|
      ensures !Occurs(t, CRLF, j)
    {
      CrlfAt(t, j);
      AtElement(t, i, s, j);
      if j + 1 < i + |s| {
        AtElement(t, i, s, j + 1);
      } else {
        AtElement(t, i + |s|, CRLF, j + 1);
      }
    }
    FindIs(t, CRLF, i, i + |s|);
  }

  // ---- strtok_r on a NUL-terminated buffer ----

  predicate Terminated(b: string) { b != [] && b[|b| - 1] == '\0' }

  /** First position at or after `i` that holds no delimiter; NUL is never a delimiter. */
  function Skip(b: string, i: nat, delims: string): (r: nat)
    requires Terminated(b) && i < |b| && '\0' !in delims
    ensures i <= r < |b| && b[r] !in delims
    ensures forall j :: i <= j < r ==> b[j] in delims
    decreases |b| - i
  {
    if b[i] in delims then Skip(b, i + 1, delims) else i
  }

  /** First position at or after `i` that holds a delimiter or NUL. */
  function Span(b: string, i: nat, delims: string): (r: nat)
    requires Terminated(b) && i < |b|
    ensures i <= r < |b| && (b[r] in delims || b[r] == '\0')
    ensures forall j :: i <= j < r ==> b[j] !in delims && b[j] != '\0'
    decreases |b| - i
  {
    if b[i] in delims || b[i] == '\0' then i else Span(b, i + 1, delims)
  }

  function StrLen(b: string, i: nat): nat
    requires Terminated(b) && i < |b|
  {
    Span(b, i, []) - i
  }

  /** The C string that starts at `i`. */
  function StrAt(b: string, i: nat): string
    requires Terminated(b) && i < |b|
  {
    b[i..Span(b, i, [])]
  }

  /** A call of strtok_r: the token's start if there is one, the buffer and the saved position after it. */
  datatype Token = Token(start: Option<nat>, buf: string, save: nat)

  function StrTok(b: string, i: nat, delims: string): (r: Token)
    requires Terminated(b) && i < |b| && '\0' !in delims
    ensures Terminated(r.buf) && |r.buf| == |b| && r.save < |b|
    ensures r.start.Some? ==> r.start.value < |b|
  {
    var s := Skip(b, i, delims);
    if b[s] == '\0' then Token(None, b, s)
    else
      var e := Span(b, s, delims);
      if b[e] == '\0' then Token(Some(s), b, e) else Token(Some(s), b[e := '\0'], e + 1)
  }

  lemma StrAtIs(b: string, i: nat, s: string)
    requires Terminated(b) && At(b, i, s) && '\0' !in s && i + |s| < |b| && b[i + |s|] == '\0'
    ensures StrAt(b, i) == s && StrLen(b, i) == |s|
  {
    var e := Span(b, i, []);
    if e < i + |s| {
      AtElement(b, i, s, e);
    }
  }

  /** None of the characters of `s` is a delimiter. */
  predicate Free(s: string, delims: string) { forall c :: c in s ==> c !in delims }

  predicate AllIn(s: string, delims: string) { forall c :: c in s ==> c in delims }

  lemma FreeOfFewer(s: string, delims: string, fewer: string)
    requires Free(s, delims) && AllIn(fewer, delims)
    ensures Free(s, fewer)
  {
  }

  /** The token found when the text at `i` is delimiters, then a word, then a delimiter or NUL. */
  lemma StrTokIs(b: string, i: nat, delims: string, lead: string, word: string)
    requires Terminated(b) && '\0' !in delims
    requires At(b, i, lead) && AllIn(lead, delims)
    requires At(b, i + |lead|, word) && word != [] && '\0' !in word && Free(word, delims)
    requires i + |lead| + |word| < |b| && (b[i + |lead| + |word|] in delims || b[i + |lead| + |word|] == '\0')
    ensures var s, e := i + |lead|, i + |lead| + |word|;
            StrTok(b, i, delims) ==
              if b[e] == '\0' then Token(Some(s), b, e) else Token(Some(s), b[e := '\0'], e + 1)
  {
    var s, e := i + |lead|, i + |lead| + |word|;
    AtElement(b, s, word, s);
    assert word[0] in word;
    var s' := Skip(b, i, delims);
    if s' < s {
      AtElement(b, i, lead, s');
    }
    var e' := Span(b, s, delims);
    if e' < e {
      AtElement(b, s, word, e');
    }
  }
}
