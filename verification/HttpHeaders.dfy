/**
 The request object of HTTP/starter_code/proxy_parse.c: a growing array of header slots with tombstones,
 and the functions that measure and print a request.
 */
module HttpHeaders {
  import opened Base
  import opened HttpText
  import opened HttpRequest
  import HttpLine

  const DEFAULT_NHDRS: int := 8

  /** A removed header keeps its slot, with a NULL key. */
  datatype Slot = Tombstone | Header(key: string, value: string)

  /** The live headers, in order. */
  function Live(slots: seq<Slot>): Headers {
    if slots == [] then []
    else if slots[0].Header? then [(slots[0].key, slots[0].value)] + Live(slots[1..])
    else Live(slots[1..])
  }

  predicate Unique(slots: seq<Slot>) {
    forall i, j :: 0 <= i < j < |slots| && slots[i].Header? && slots[j].Header? ==> slots[i].key != slots[j].key
  }

  predicate Has(slots: seq<Slot>, key: string) {
    exists i :: 0 <= i < |slots| && slots[i].Header? && slots[i].key == key
  }

  function Lookup(hs: Headers, key: string): Option<string> {
    if hs == [] then None else if hs[0].0 == key then Some(hs[0].1) else Lookup(hs[1..], key)
  }

  // ---- the live list as an ordered map ----

  lemma {:induction false} LiveAppend(s: seq<Slot>, t: seq<Slot>)
    ensures Live(s + t) == Live(s) + Live(t)
  {
    if s == [] {
      assert s + t == t;
    } else {
      LiveAppend(s[1..], t);
      assert (s + t)[1..] == s[1..] + t;
      if s[0].Header? {
        Concat([(s[0].key, s[0].value)], Live(s[1..]), Live(t));
      }
    }
  }

  lemma LiveOne(s: Slot)
    ensures Live([s]) == if s.Header? then [(s.key, s.value)] else []
  {
    assert [s][1..] == [];
  }

  lemma {:induction false} LiveKeys(slots: seq<Slot>, key: string)
    ensures Has(slots, key) <==> exists h :: h in Live(slots) && h.0 == key
  {
    if slots != [] {
      LiveKeys(slots[1..], key);
      if Has(slots[1..], key) {
        var i :| 0 <= i < |slots[1..]| && slots[1..][i].Header? && slots[1..][i].key == key;
        assert slots[i + 1].key == key;
      }
      if Has(slots, key) {
        var i :| 0 <= i < |slots| && slots[i].Header? && slots[i].key == key;
        assert i > 0 ==> slots[1..][i - 1].key == key;
      }
    }
  }

  lemma {:induction false} LiveUnique(slots: seq<Slot>)
    requires Unique(slots)
    ensures UniqueKeys(Live(slots))
  {
    if slots != [] {
      LiveUnique(slots[1..]);
      if slots[0].Header? {
        LiveKeys(slots[1..], slots[0].key);
        assert !Has(slots[1..], slots[0].key);
        assert forall h :: h in Live(slots[1..]) ==> h.0 != slots[0].key;
      }
    }
  }

  /** Burying the one slot of a key removes it from the live list. */
  lemma {:induction false} LiveBury(slots: seq<Slot>, i: nat)
    requires Unique(slots) && i < |slots| && slots[i].Header?
    ensures Live(slots[i := Tombstone]) == Without(Live(slots), slots[i].key)
    ensures Unique(slots[i := Tombstone]) && !Has(slots[i := Tombstone], slots[i].key)
  {
    var key := slots[i].key;
    if i == 0 {
      assert slots[0 := Tombstone][1..] == slots[1..];
      LiveKeys(slots[1..], key);
      assert !Has(slots[1..], key);
      WithoutAbsent(Live(slots[1..]), key);
      Cons((key, slots[0].value), Live(slots[1..]));
    } else {
      assert slots[i := Tombstone][1..] == slots[1..][i - 1 := Tombstone];
      LiveBury(slots[1..], i - 1);
      if slots[0].Header? {
        assert slots[0].key != key;
        Cons((slots[0].key, slots[0].value), Live(slots[1..]));
      }
    }
  }

  lemma {:induction false} LookupWithout(hs: Headers, key: string, other: string)
    ensures Lookup(Without(hs, key), other) == if other == key then None else Lookup(hs, other)
  {
    if hs != [] {
      LookupWithout(hs[1..], key, other);
      if hs[0].0 != key {
        Cons(hs[0], Without(hs[1..], key));
      }
    }
  }

  lemma {:induction false} LookupAppend(hs: Headers, h: (string, string), key: string)
    ensures Lookup(hs + [h], key) ==
            if Lookup(hs, key).Some? then Lookup(hs, key) else if h.0 == key then Some(h.1) else None
  {
    if hs != [] {
      assert (hs + [h])[1..] == hs[1..] + [h];
      LookupAppend(hs[1..], h, key);
    } else {
      assert ([] + [h])[1..] == [];
    }
  }

  /** Setting a header changes the value of its own key only. */
  lemma SetOnlyOwnKey(hs: Headers, key: string, value: string, other: string)
    ensures Lookup(SetHeader(hs, key, value), other) == if other == key then Some(value) else Lookup(hs, other)
  {
    LookupWithout(hs, key, other);
    LookupAppend(Without(hs, key), (key, value), other);
  }

  lemma {:induction false} LookupLive(slots: seq<Slot>, i: nat)
    requires Unique(slots) && i < |slots| && slots[i].Header?
    ensures Lookup(Live(slots), slots[i].key) == Some(slots[i].value)
  {
    if slots[0].Header? {
      Cons((slots[0].key, slots[0].value), Live(slots[1..]));
    }
    if i > 0 {
      LookupLive(slots[1..], i - 1);
    }
  }

  lemma {:induction false} LookupAbsent(slots: seq<Slot>, key: string)
    requires !Has(slots, key)
    ensures Lookup(Live(slots), key) == None && Without(Live(slots), key) == Live(slots)
  {
    if slots != [] {
      assert !(slots[0].Header? && slots[0].key == key);
      assert !Has(slots[1..], key) by {
        assert forall i :: 0 <= i < |slots[1..]| ==> slots[1..][i] == slots[i + 1];
      }
      LookupAbsent(slots[1..], key);
      if slots[0].Header? {
        Cons((slots[0].key, slots[0].value), Live(slots[1..]));
      }
    }
  }

  lemma {:induction false} HeaderLinesAppend(hs: Headers, ks: Headers)
    ensures HeaderLines(hs + ks) == HeaderLines(hs) + HeaderLines(ks)
  {
    hide HeaderLine;
    if hs == [] {
      assert hs + ks == ks;
    } else {
      HeaderLinesAppend(hs[1..], ks);
      assert (hs + ks)[1..] == hs[1..] + ks;
      Concat(HeaderLine(hs[0]), HeaderLines(hs[1..]), HeaderLines(ks));
    }
  }

  /** What one slot prints: nothing if it is a tombstone. */
  function SlotText(s: Slot): string {
    if s.Header? then HeaderLine((s.key, s.value)) else ""
  }

  lemma NoHeaders()
    ensures HeaderLines(Live([])) == []
  {
  }

  lemma SlotStep(slots: seq<Slot>, i: nat)
    requires i < |slots|
    ensures HeaderLines(Live(slots[..i + 1])) == HeaderLines(Live(slots[..i])) + SlotText(slots[i])
  {
    hide HeaderLine;
    assert slots[..i + 1] == slots[..i] + [slots[i]];
    LiveAppend(slots[..i], [slots[i]]);
    LiveOne(slots[i]);
    HeaderLinesAppend(Live(slots[..i]), Live([slots[i]]));
    if slots[i].Header? {
      assert [(slots[i].key, slots[i].value)][1..] == [];
    }
  }

  /** memcpy into a buffer. */
  method Copy(buf: array<char>, at: nat, s: string)
    requires at + |s| <= buf.Length
    modifies buf
    ensures buf[..at + |s|] == old(buf[..at]) + s
    ensures buf[at + |s|..] == old(buf[at + |s|..])
  {
    for i := 0 to |s|
      invariant buf[..at] == old(buf[..at])
      invariant buf[at..at + i] == s[..i]
      invariant buf[at + i..] == old(buf[at + i..])
    {
      buf[at + i] := s[i];
      assert buf[at..at + i + 1] == buf[at..at + i] + [s[i]];
    }
    assert buf[..at + |s|] == buf[..at] + buf[at..at + |s|];
  }

  class ParsedRequest {
    var line: Option<Line>  // None until a request line has been parsed (buf == NULL)
    var headers: array<Slot>
    var used: nat

    /** Capacity always exceeds use, and no key is live twice. */
    ghost predicate Valid()
      reads this, headers
    {
      used < headers.Length && Unique(headers[..used])
    }

    ghost function LiveHeaders(): Headers
      reads this, headers
      requires Valid()
    {
      Live(headers[..used])
    }

    constructor ()
      ensures Valid() && fresh(headers) && LiveHeaders() == [] && line == None
    {
      line := None;
      headers := new Slot[DEFAULT_NHDRS](i => Tombstone);
      used := 0;
    }

    /** The slot of the first live header with this key. */
    method Get(key: string) returns (r: Option<nat>)
      requires Valid()
      ensures r.Some? ==> r.value < used && headers[r.value].Header? && headers[r.value].key == key
      ensures (if r.Some? then Some(headers[r.value].value) else None) == Lookup(LiveHeaders(), key)
      ensures r.None? ==> !Has(headers[..used], key)
    {
      var i := 0;
      while used > i
        invariant i <= used
        invariant forall j :: 0 <= j < i ==> !(headers[j].Header? && headers[j].key == key)
      {
        if headers[i].Header? && headers[i].key == key {
          LookupLive(headers[..used], i);
          return Some(i);
        }
        i := i + 1;
      }
      LookupAbsent(headers[..used], key);
      return None;
    }

    method Remove(key: string) returns (found: bool)
      requires Valid()
      modifies headers
      ensures Valid() && LiveHeaders() == Without(old(LiveHeaders()), key)
      ensures found <==> Lookup(old(LiveHeaders()), key).Some?
      ensures !Has(headers[..used], key)
    {
      ghost var before := headers[..used];
      var slot := Get(key);
      if slot.None? {
        LookupAbsent(before, key);
        return false;
      }
      LiveBury(before, slot.value);
      headers[slot.value] := Tombstone;
      assert headers[..used] == before[slot.value := Tombstone];
      return true;
    }

    /** Doubles the array when the next slot would be its last. */
    method Grow()
      requires Valid()
      modifies this`headers
      ensures Valid() && used + 1 < headers.Length && headers[..used] == old(headers[..used])
      ensures headers == old(headers) || fresh(headers)
    {
      ghost var before := headers[..used];
      if headers.Length <= used + 1 {
        var bigger := new Slot[headers.Length * 2](i => Tombstone);
        for i := 0 to used
          invariant headers == old(headers) && bigger[..i] == headers[..i]
        {
          bigger[i] := headers[i];
          assert bigger[..i + 1] == bigger[..i] + [headers[i]] == headers[..i + 1];
        }
        headers := bigger;
        assert headers[..used] == before;
      }
    }

    method Set(key: string, value: string)
      requires Valid()
      modifies this`headers, this`used, headers
      ensures Valid() && LiveHeaders() == SetHeader(old(LiveHeaders()), key, value)
      ensures headers == old(headers) || fresh(headers)
    {
      var _ := Remove(key);
      Grow();
      ghost var before := headers[..used];
      headers[used] := Header(key, value);
      used := used + 1;
      assert headers[..used] == before + [Header(key, value)];
      LiveAppend(before, [Header(key, value)]);
      LiveOne(Header(key, value));
    }

    /** The length of the printed headers; 0 before a request has been parsed. */
    method HeadersLen() returns (len: nat)
      requires Valid()
      ensures len == if line.None? then 0 else |HeaderText(LiveHeaders())|
    {
      if line.None? {
        return 0;
      }
      len := 0;
      var i := 0;
      while used > i
        invariant i <= used && len == |HeaderLines(Live(headers[..i]))|
      {
        SlotStep(headers[..used], i);
        assert headers[..used][..i] == headers[..i] && headers[..used][..i + 1] == headers[..i + 1];
        if headers[i].Header? {
          len := len + |headers[i].key| + |headers[i].value| + 4;
        }
        i := i + 1;
      }
      len := len + 2;
    }

    /** Prints the live headers at `at`, given `len` octets of room there. */
    method PrintHeaders(buf: array<char>, at: nat, len: nat) returns (ok: bool)
      requires Valid() && line.Some? && at + len <= buf.Length
      modifies buf
      ensures ok <==> |HeaderText(LiveHeaders())| <= len
      ensures ok ==> buf[..at + |HeaderText(LiveHeaders())|] == old(buf[..at]) + HeaderText(LiveHeaders())
      ensures ok ==> buf[at + |HeaderText(LiveHeaders())|..] == old(buf[..])[at + |HeaderText(LiveHeaders())|..]
      ensures !ok ==> buf[..] == old(buf[..])
    {
      hide Unique, Live, HeaderLines, SlotText;
      NoHeaders();
      var need := HeadersLen();
      if len < need {
        return false;
      }
      ghost var slots := headers[..used];
      var current, i := at, 0;
      while used > i
        invariant i <= used && current == at + |HeaderLines(Live(slots[..i]))|
        invariant current + 2 <= at + need
        invariant headers[..used] == slots
        invariant buf[..current] == old(buf[..at]) + HeaderLines(Live(slots[..i]))
        invariant buf[current..] == old(buf[current..])
      {
        RoomLeft(slots, i);
        SlotStep(slots, i);
        assert slots[i] == headers[i];
        Concat(old(buf[..at]), HeaderLines(Live(slots[..i])), SlotText(headers[i]));
        label L:
        var next := PrintSlot(buf, current, headers[i]);
        assert buf[next..] == old@L(buf[current..])[next - current..];
        current := next;
        i := i + 1;
      }
      assert slots[..i] == slots;
      Copy(buf, current, CRLF);
      Concat(old(buf[..at]), HeaderLines(Live(slots)), CRLF);
      return true;
    }

    /** One line of the header listing. */
    static method PrintSlot(buf: array<char>, at: nat, s: Slot) returns (next: nat)
      requires at + |SlotText(s)| <= buf.Length
      modifies buf
      ensures next == at + |SlotText(s)|
      ensures buf[..next] == old(buf[..at]) + SlotText(s) && buf[next..] == old(buf[next..])
    {
      next := at;
      if s.Header? {
        Copy(buf, at, s.key + ": " + s.value + CRLF);
        next := at + |s.key + ": " + s.value + CRLF|;
      }
    }

    /** The length of the printed request line. */
    method RequestLineLen() returns (len: nat)
      ensures len == if line.None? then 0 else |LineText(line.value)| + 2
    {
      if line.None? {
        return 0;
      }
      var l := line.value;
      len := |l.method_| + 1 + |l.protocol| + 3 + |l.host| + 1 + |l.version| + 2;
      if l.port.Some? {
        len := len + |l.port.value| + 1;
      }
      len := len + |l.path|;
    }

    /** Copies the request line piece by piece; `n` is the number of octets written. */
    method PrintRequestLine(buf: array<char>, len: nat) returns (ok: bool, n: nat)
      requires line.Some? && len <= buf.Length
      modifies buf
      ensures ok <==> |LineText(line.value)| + 2 <= len
      ensures ok ==> n == |LineText(line.value)| + 2 && buf[..n] == LineText(line.value) + CRLF
      ensures ok ==> buf[n..] == old(buf[..])[n..]
      ensures !ok ==> buf[..] == old(buf[..])
    {
      n := RequestLineLen();
      if len < n {
        return false, 0;
      }
      ghost var was := buf[..];
      var l := line.value;
      var current := 0;
      current := Put(buf, current, l.method_, "", was);
      current := Put(buf, current, " ", l.method_, was);
      current := Put(buf, current, l.protocol, l.method_ + " ", was);
      ghost var x := l.method_ + " " + l.protocol;
      current := Put(buf, current, "://", x, was);
      current := Put(buf, current, l.host, x + "://", was);
      ghost var y := x + "://" + l.host;
      if l.port.Some? {
        current := Put(buf, current, ":", y, was);
        current := Put(buf, current, l.port.value, y + ":", was);
        assert y + ":" + l.port.value == y + (":" + l.port.value);
      } else {
        assert y + "" == y;
      }
      ghost var z := y + (if l.port.Some? then ":" + l.port.value else "");
      current := Put(buf, current, l.path, z, was);
      current := Put(buf, current, " ", z + l.path, was);
      current := Put(buf, current, l.version, z + l.path + " ", was);
      current := Put(buf, current, CRLF, LineText(l), was);
      return true, current;
    }

    method TotalLen() returns (len: nat)
      requires Valid()
      ensures len == if line.None? then 0 else |HttpRequest.Unparse(Request(line.value, LiveHeaders()))|
    {
      if line.None? {
        return 0;
      }
      var a := RequestLineLen();
      var b := HeadersLen();
      len := a + b;
    }

    /** Prints the whole request into the first `len` octets of a buffer. */
    method Unparse(buf: array<char>, len: nat) returns (ok: bool)
      requires Valid() && len <= buf.Length
      modifies buf
      ensures ok <==> line.Some? && |HttpRequest.Unparse(Request(line.value, LiveHeaders()))| <= len
      ensures ok ==> var text := HttpRequest.Unparse(Request(line.value, LiveHeaders()));
                     buf[..|text|] == text && buf[|text|..] == old(buf[..])[|text|..]
    {
      hide LineText, HeaderText;
      if line.None? {
        return false;
      }
      var fits, n := PrintRequestLine(buf, len);
      if !fits {
        return false;
      }
      ok := PrintHeaders(buf, n, len - n);
    }

    /** The header loop of the parser. */
    method ParseHeaderLines(t: string, from: nat) returns (ok: bool)
      requires Valid()
      modifies this`headers, this`used, headers
      ensures Valid() && (headers == old(headers) || fresh(headers))
      ensures Outcome(ok, LiveHeaders()) == HeaderLoop(t, from, old(LiveHeaders()))
    {
      hide SetHeader, Find, HeaderLoop;
      var current := from;
      while current < |t| && !Occurs(t, CRLF, current)
        invariant Valid() && (headers == old(headers) || fresh(headers))
        invariant HeaderLoop(t, current, LiveHeaders()) == HeaderLoop(t, from, old(LiveHeaders()))
        decreases |t| - current
      {
        LoopUnfold(t, current, LiveHeaders());
        var colon := Find(t, ":", current);
        if colon.None? || colon.value + 2 > |t| {
          return false;
        }
        var end := Find(t, CRLF, colon.value + 2);
        if end.None? {
          return false;
        }
        Set(t[current..colon.value], t[colon.value + 2..end.value]);
        var next := Find(t, CRLF, current);
        if next.None? {
          return true;
        }
        current := next.value + 2;
      }
      LoopUnfold(t, current, LiveHeaders());
      return true;
    }

    /**
     `ParsedRequest_parse`: an object takes one request only. A refused request line leaves it as it was; refused
     headers leave it with the line and with the headers set so far.
     */
    method Parse(buf: string) returns (ok: bool)
      requires Valid()
      modifies this, headers
      ensures Valid() && (headers == old(headers) || fresh(headers))
      ensures ok <==> old(line).None? && ParseOnto(buf, old(LiveHeaders())).Some?
      ensures ok ==> line.Some? && Request(line.value, LiveHeaders()) == ParseOnto(buf, old(LiveHeaders())).value
      ensures line == if old(line).Some? then old(line) else RequestLine(buf)
      ensures LiveHeaders() ==
              if old(line).Some? || line.None? then old(LiveHeaders())
              else HeaderLoop(CString(buf), HeadersStart(buf), old(LiveHeaders())).headers
    {
      hide ParseLine, HeaderLoop, Find;
      if line.Some? || |buf| < MIN_REQ_LEN || |buf| > MAX_REQ_LEN {
        return false;
      }
      var t := CString(buf);
      if Find(t, CRLF + CRLF, 0).None? {
        return false;
      }
      var end := Find(t, CRLF, 0);
      if end.None? {
        return false;
      }
      var parsed := ParseLine(t[..end.value]);
      if parsed.None? {
        return false;
      }
      line := parsed;
      ok := ParseHeaderLines(t, end.value + 2);
    }
  }

  /** Appends a piece to what has been printed so far. */
  method Put(buf: array<char>, at: nat, s: string, ghost before: string, ghost was: string) returns (next: nat)
    requires at == |before| && at + |s| <= buf.Length == |was|
    requires buf[..at] == before && buf[at..] == was[at..]
    modifies buf
    ensures next == |before + s| && buf[..next] == before + s && buf[next..] == was[next..]
  {
    Copy(buf, at, s);
    assert was[at + |s|..] == was[at..][|s|..];
    next := at + |s|;
  }

  lemma ObjectWellFormed(l: Line, slots: seq<Slot>)
    requires WellFormedLine(l) && Unique(slots)
    requires forall h :: h in Live(slots) ==> Clean(h.0, ":") && Clean(h.1, "")
    ensures WellFormed(Request(l, Live(slots)))
  {
    LiveUnique(slots);
  }

  /** Printing into `TotalLen` octets always succeeds and fills them. */
  method Print(pr: ParsedRequest) returns (text: string)
    requires pr.Valid() && pr.line.Some?
    ensures text == HttpRequest.Unparse(Request(pr.line.value, pr.LiveHeaders()))
  {
    hide HttpRequest.Unparse;
    var len := pr.TotalLen();
    var buf := new char[len](i => ' ');
    var ok := pr.Unparse(buf, len);
    text := buf[..];
  }

  method ParseNew(text: string) returns (ok: bool, pr: ParsedRequest)
    ensures fresh(pr) && fresh(pr.headers) && pr.Valid()
    ensures ok <==> HttpRequest.Parse(text).Some?
    ensures ok ==> pr.line.Some? && HttpRequest.Parse(text) == Some(Request(pr.line.value, pr.LiveHeaders()))
  {
    hide ParseOnto;
    pr := new ParsedRequest();
    ok := pr.Parse(text);
  }

  /** What the object prints, it reads back: tombstones are gone, the live headers keep their order. */
  method PrintThenParse(pr: ParsedRequest) returns (again: ParsedRequest)
    requires pr.Valid() && pr.line.Some? && WellFormedLine(pr.line.value)
    requires forall h :: h in pr.LiveHeaders() ==> Clean(h.0, ":") && Clean(h.1, "")
    requires |HttpRequest.Unparse(Request(pr.line.value, pr.LiveHeaders()))| <= MAX_REQ_LEN
    ensures again.Valid() && again.line == pr.line && again.LiveHeaders() == pr.LiveHeaders()
  {
    ObjectWellFormed(pr.line.value, pr.headers[..pr.used]);
    ghost var r := Request(pr.line.value, pr.LiveHeaders());
    hide HttpRequest.Unparse, HttpRequest.Parse, WellFormed, WellFormedLine, Clean, Unique, Live;
    var text := Print(pr);
    HttpLine.RoundTrip(r);
    var ok;
    ok, again := ParseNew(text);
    assert Some(r) == Some(Request(again.line.value, again.LiveHeaders()));
  }

  lemma RoomLeft(slots: seq<Slot>, i: nat)
    requires i < |slots|
    ensures |HeaderLines(Live(slots[..i]))| + |SlotText(slots[i])| <= |HeaderLines(Live(slots))|
  {
    SlotStep(slots, i);
    assert slots == slots[..i + 1] + slots[i + 1..];
    LiveAppend(slots[..i + 1], slots[i + 1..]);
    HeaderLinesAppend(Live(slots[..i + 1]), Live(slots[i + 1..]));
  }
}
