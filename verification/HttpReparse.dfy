/**
 Printing what was parsed and parsing it again changes nothing, also when a header line has no colon of its own, so
 that a key runs over line ends. Such a key is set together with its tails: the parser goes on after the line end
 inside the key, finds the same colon, and sets what is left of the key to the same value.
 */
module HttpReparse {
  import opened Base
  import opened HttpText
  import opened HttpRequest
  import opened HttpLine
  import opened HttpAccept

  // ---- the assignments that a parse makes ----

  /** Where the loop finds the colon, the end of the value and the next line. */
  datatype Spot = Spot(colon: nat, end: nat, next: nat)

  function SpotAt(t: string, cur: nat): (r: Option<Spot>)
    ensures r.Some? ==> cur <= r.value.colon && r.value.colon + 2 <= r.value.end <= |t|
    ensures r.Some? ==> cur + 2 <= r.value.next <= |t|
  {
    var colon := Find(t, ":", cur);
    if colon.None? || colon.value + 2 > |t| then None
    else
      var end, next := Find(t, CRLF, colon.value + 2), Find(t, CRLF, cur);
      if end.None? || next.None? then None else Some(Spot(colon.value, end.value, next.value + 2))
  }

  function Piece(t: string, i: nat, j: nat): string
    requires i <= j <= |t|
  {
    t[i..j]
  }

  function Setting(t: string, cur: nat, spot: Spot): (string, string)
    requires cur <= spot.colon && spot.colon + 2 <= spot.end <= |t|
  {
    (Piece(t, cur, spot.colon), Piece(t, spot.colon + 2, spot.end))
  }

  /** The headers set by the loop from `cur` on, in order. */
  function Settings(t: string, cur: nat): Option<Headers>
    decreases |t| - cur
  {
    if cur >= |t| || Occurs(t, CRLF, cur) then Some([])
    else
      var spot := SpotAt(t, cur);
      if spot.None? then None
      else
        var rest := Settings(t, spot.value.next);
        if rest.None? then None else Some([Setting(t, cur, spot.value)] + rest.value)
  }

  function SetAll(hs: Headers, ops: Headers): Headers
    decreases |ops|
  {
    if ops == [] then hs else SetAll(SetHeader(hs, ops[0].0, ops[0].1), ops[1..])
  }

  /** One pass of the loop. */
  lemma PassAt(t: string, cur: nat, hs: Headers)
    requires cur < |t| && !Occurs(t, CRLF, cur)
    ensures var spot := SpotAt(t, cur);
            ParseHeaders(t, cur, hs) ==
              if spot.None? then None
              else
                var h := Setting(t, cur, spot.value);
                ParseHeaders(t, spot.value.next, SetHeader(hs, h.0, h.1))
  {
    hide Find, HeaderLoop, SetHeader, Occurs;
    LoopUnfold(t, cur, hs);
    var colon := Find(t, ":", cur);
    if colon.Some? && colon.value + 2 <= |t| {
      assert cur <= colon.value;
      LineAhead(t, cur, colon.value + 2);
    }
  }

  lemma LineAhead(t: string, cur: nat, i: nat)
    requires cur <= i
    ensures Find(t, CRLF, i).Some? ==> Find(t, CRLF, cur).Some?
  {
    if Find(t, CRLF, i).Some? {
      assert Occurs(t, CRLF, Find(t, CRLF, i).value);
    }
  }

  lemma {:induction false} ParseIsSettings(t: string, cur: nat, hs: Headers)
    ensures ParseHeaders(t, cur, hs) ==
            if Settings(t, cur).None? then None else Some(SetAll(hs, Settings(t, cur).value))
    decreases |t| - cur
  {
    hide Find, SetHeader, Occurs, SpotAt, Setting, HeaderLoop;
    if cur < |t| && !Occurs(t, CRLF, cur) {
      PassAt(t, cur, hs);
      var spot := SpotAt(t, cur);
      if spot.Some? {
        var h := Setting(t, cur, spot.value);
        ParseIsSettings(t, spot.value.next, SetHeader(hs, h.0, h.1));
        if Settings(t, spot.value.next).Some? {
          Cons(h, Settings(t, spot.value.next).value);
        }
      }
    } else {
      LoopUnfold(t, cur, hs);
    }
  }

  // ---- the last setting of a key counts ----

  predicate HasKey(hs: Headers, key: string) {
    hs != [] && (hs[0].0 == key || HasKey(hs[1..], key))
  }

  lemma {:induction false} HasKeyAt(hs: Headers, key: string)
    ensures HasKey(hs, key) <==> exists i :: 0 <= i < |hs| && hs[i].0 == key
  {
    if hs != [] {
      HasKeyAt(hs[1..], key);
      assert forall i :: 0 < i < |hs| ==> hs[i] == hs[1..][i - 1];
      if HasKey(hs[1..], key) {
        var i :| 0 <= i < |hs[1..]| && hs[1..][i].0 == key;
        assert hs[i + 1].0 == key;
      }
    }
  }

  lemma UniqueCons(hs: Headers)
    requires hs != []
    ensures UniqueKeys(hs) <==> !HasKey(hs[1..], hs[0].0) && UniqueKeys(hs[1..])
  {
    HasKeyAt(hs[1..], hs[0].0);
    assert forall i :: 0 < i < |hs| ==> hs[i] == hs[1..][i - 1];
    assert forall i :: 0 <= i < |hs[1..]| ==> hs[1..][i] == hs[i + 1];
  }

  function LastOnly(ops: Headers): Headers {
    if ops == [] then []
    else if HasKey(ops[1..], ops[0].0) then LastOnly(ops[1..])
    else [ops[0]] + LastOnly(ops[1..])
  }

  function WithoutAll(hs: Headers, ops: Headers): Headers
    decreases |ops|
  {
    if ops == [] then hs else WithoutAll(Without(hs, ops[0].0), ops[1..])
  }

  lemma {:induction false} WithoutAppend(a: Headers, b: Headers, key: string)
    ensures Without(a + b, key) == Without(a, key) + Without(b, key)
  {
    if a == [] {
      assert a + b == b;
    } else {
      WithoutAppend(a[1..], b, key);
      assert (a + b)[1..] == a[1..] + b;
      Concat([a[0]], Without(a[1..], key), Without(b, key));
    }
  }

  lemma {:induction false} WithoutAllAppend(a: Headers, b: Headers, ops: Headers)
    ensures WithoutAll(a + b, ops) == WithoutAll(a, ops) + WithoutAll(b, ops)
    decreases |ops|
  {
    if ops != [] {
      WithoutAppend(a, b, ops[0].0);
      WithoutAllAppend(Without(a, ops[0].0), Without(b, ops[0].0), ops[1..]);
    }
  }

  lemma {:induction false} WithoutAllOne(h: (string, string), ops: Headers)
    ensures WithoutAll([h], ops) == (if HasKey(ops, h.0) then [] else [h])
    ensures WithoutAll([], ops) == []
    decreases |ops|
  {
    if ops != [] {
      WithoutAllOne(h, ops[1..]);
      assert [h][1..] == [];
      assert Without([h], ops[0].0) == if h.0 == ops[0].0 then [] else [h];
    }
  }

  lemma {:induction false} SetAllLast(hs: Headers, ops: Headers)
    ensures SetAll(hs, ops) == WithoutAll(hs, ops) + LastOnly(ops)
    decreases |ops|
  {
    if ops == [] {
      assert hs + [] == hs;
    } else {
      var h, rest := ops[0], ops[1..];
      SetAllLast(SetHeader(hs, h.0, h.1), rest);
      WithoutAllAppend(Without(hs, h.0), [h], rest);
      WithoutAllOne(h, rest);
      var w := WithoutAll(Without(hs, h.0), rest);
      if HasKey(rest, h.0) {
        assert w + [] == w;
      } else {
        Concat(w, [h], LastOnly(rest));
      }
    }
  }

  lemma {:induction false} LastOnlyKeys(ops: Headers, key: string)
    ensures HasKey(LastOnly(ops), key) <==> HasKey(ops, key)
  {
    if ops != [] {
      LastOnlyKeys(ops[1..], key);
      if !HasKey(ops[1..], ops[0].0) {
        Cons(ops[0], LastOnly(ops[1..]));
      }
    }
  }

  lemma {:induction false} LastOnlyUnique(ops: Headers)
    ensures UniqueKeys(LastOnly(ops))
  {
    if ops != [] {
      LastOnlyUnique(ops[1..]);
      if !HasKey(ops[1..], ops[0].0) {
        LastOnlyKeys(ops[1..], ops[0].0);
        Cons(ops[0], LastOnly(ops[1..]));
        UniqueCons(LastOnly(ops));
      }
    }
  }

  lemma {:induction false} LastOnlyFixed(hs: Headers)
    requires UniqueKeys(hs)
    ensures LastOnly(hs) == hs
  {
    if hs != [] {
      UniqueCons(hs);
      LastOnlyFixed(hs[1..]);
    }
  }

  lemma {:induction false} LastOnlyFrom(ops: Headers, i: nat)
    requires i < |LastOnly(ops)|
    ensures LastOnly(ops)[i] in ops
  {
    if HasKey(ops[1..], ops[0].0) {
      LastOnlyFrom(ops[1..], i);
    } else if i > 0 {
      LastOnlyFrom(ops[1..], i - 1);
    }
  }

  predicate KeysIn(a: Headers, b: Headers) {
    a == [] || (HasKey(b, a[0].0) && KeysIn(a[1..], b))
  }

  lemma {:induction false} HasKeyAppend(a: Headers, b: Headers, key: string)
    ensures HasKey(a + b, key) <==> HasKey(a, key) || HasKey(b, key)
  {
    if a == [] {
      assert a + b == b;
    } else {
      assert (a + b)[1..] == a[1..] + b;
      HasKeyAppend(a[1..], b, key);
    }
  }

  /** Settings that are all repeated later have no effect. */
  lemma {:induction false} Overridden(a: Headers, b: Headers)
    requires KeysIn(a, b)
    ensures LastOnly(a + b) == LastOnly(b)
  {
    if a == [] {
      assert a + b == b;
    } else {
      assert (a + b)[1..] == a[1..] + b;
      HasKeyAppend(a[1..], b, a[0].0);
      Overridden(a[1..], b);
    }
  }

  // ---- keys that run over line ends ----

  /** What follows the first line end of a key. */
  function Tail(key: string): (r: Option<string>)
    ensures r.Some? ==> |r.value| + 2 <= |key|
  {
    var n := Find(key, CRLF, 0);
    if n.None? then None else Some(key[n.value + 2..])
  }

  /** The parser takes this for the end of the headers. */
  predicate Blank(key: string) { Occurs(key, CRLF, 0) }

  /** Reading this key, the parser comes to an empty line inside it. */
  predicate Stops(key: string)
    decreases |key|
  {
    var q := Tail(key);
    q.Some? && (Blank(q.value) || Stops(q.value))
  }

  /** The settings caused by one printed header. */
  function Chain(key: string, value: string): (c: Headers)
    ensures c != [] && c[0] == (key, value)
    decreases |key|
  {
    var q := Tail(key);
    [(key, value)] + (if q.None? || Blank(q.value) then [] else Chain(q.value, value))
  }

  /** Each key with a tail is followed by it, with the same value; an empty line inside a key ends the list. */
  predicate Chained(ops: Headers) {
    ops == [] ||
    var q, rest := Tail(ops[0].0), ops[1..];
    if q.None? then Chained(rest)
    else if Blank(q.value) then rest == []
    else rest != [] && rest[0] == (q.value, ops[0].1) && Chained(rest)
  }

  /** The same of the headers that remain: a tail comes later, and at once if an empty line is ahead. */
  predicate Later(hs: Headers) {
    hs == [] ||
    var q, rest := Tail(hs[0].0), hs[1..];
    if q.None? then Later(rest)
    else if Blank(q.value) then rest == []
    else HasKey(rest, q.value) && Later(rest) && (Stops(q.value) ==> rest[0] == (q.value, hs[0].1))
  }

  /** The settings made by parsing the printed list. */
  function Printed(hs: Headers): Headers {
    if hs == [] then []
    else Chain(hs[0].0, hs[0].1) + (if Stops(hs[0].0) then [] else Printed(hs[1..]))
  }

  lemma {:induction false} ShorterAhead(ops: Headers, key: string)
    requires Chained(ops) && ops != [] && Stops(ops[0].0) && |key| >= |ops[0].0|
    ensures !HasKey(ops[1..], key)
  {
    var q := Tail(ops[0].0).value;
    if !Blank(q) {
      ShorterAhead(ops[1..], key);
    }
  }

  lemma {:induction false} LastOnlyLater(ops: Headers)
    requires Chained(ops)
    ensures Later(LastOnly(ops))
  {
    if ops != [] {
      var q, rest := Tail(ops[0].0), ops[1..];
      if q.Some? && Blank(q.value) {
        assert LastOnly(ops) == [ops[0]];
      } else {
        LastOnlyLater(rest);
        if !HasKey(rest, ops[0].0) {
          Cons(ops[0], LastOnly(rest));
          if q.Some? {
            LastOnlyKeys(rest, q.value);
            if Stops(q.value) {
              ShorterAhead(rest, q.value);
            }
          }
        }
      }
    }
  }

  lemma {:induction false} ChainKeysIn(key: string, value: string, hs: Headers)
    requires Later(hs) && HasKey(hs, key)
    ensures KeysIn(Chain(key, value), hs)
    decreases |key|
  {
    var q := Tail(key);
    if q.Some? && !Blank(q.value) {
      TailLater(key, hs);
      ChainKeysIn(q.value, value, hs);
      Cons((key, value), Chain(q.value, value));
    } else {
      assert Chain(key, value) == [(key, value)];
      assert Chain(key, value)[1..] == [];
    }
  }

  lemma {:induction false} TailLater(key: string, hs: Headers)
    requires Later(hs) && HasKey(hs, key) && Tail(key).Some? && !Blank(Tail(key).value)
    ensures HasKey(hs, Tail(key).value)
  {
    if hs[0].0 != key {
      TailLater(key, hs[1..]);
    }
  }

  /** From a key with an empty line ahead on, the list is one chain. */
  lemma {:induction false} StopIsChain(hs: Headers)
    requires Later(hs) && hs != [] && Stops(hs[0].0)
    ensures hs == Chain(hs[0].0, hs[0].1)
  {
    var q := Tail(hs[0].0).value;
    if !Blank(q) {
      StopIsChain(hs[1..]);
    }
  }

  lemma {:induction false} ChainShorter(key: string, value: string, other: string)
    requires |other| >= |key| && other != key
    ensures !HasKey(Chain(key, value), other)
    decreases |key|
  {
    var q := Tail(key);
    if q.Some? && !Blank(q.value) {
      ChainShorter(q.value, value, other);
      Cons((key, value), Chain(q.value, value));
    } else {
      assert [(key, value)][1..] == [];
    }
  }

  lemma ChainRest(key: string, value: string)
    ensures !HasKey(Chain(key, value)[1..], key)
  {
    var q := Tail(key);
    if q.Some? && !Blank(q.value) {
      Cons((key, value), Chain(q.value, value));
      ChainShorter(q.value, value, key);
    } else {
      assert [(key, value)][1..] == [];
    }
  }

  /** One header that does not stop the parser adds itself; its tails are set again later. */
  lemma PrintedStep(hs: Headers)
    requires Later(hs) && UniqueKeys(hs) && hs != [] && !Stops(hs[0].0)
    requires LastOnly(Printed(hs[1..])) == hs[1..]
    ensures LastOnly(Printed(hs)) == hs
  {
    var k, v, rest := hs[0].0, hs[0].1, hs[1..];
    var c, more := Chain(k, v), Printed(rest);
    var tails := c[1..];
    assert c == [(k, v)] + tails;
    UniqueCons(hs);
    assert KeysIn(tails, more) by { TailsIn(hs); }
    Concat([(k, v)], tails, more);
    Cons((k, v), tails + more);
    ChainRest(k, v);
    LastOnlyKeys(more, k);
    HasKeyAppend(tails, more, k);
    Overridden(tails, more);
  }

  lemma {:induction false} SameKeysIn(a: Headers, b: Headers)
    requires KeysIn(a, LastOnly(b))
    ensures KeysIn(a, b)
  {
    if a != [] {
      LastOnlyKeys(b, a[0].0);
      SameKeysIn(a[1..], b);
    }
  }

  lemma TailsIn(hs: Headers)
    requires Later(hs) && hs != [] && !Stops(hs[0].0)
    requires LastOnly(Printed(hs[1..])) == hs[1..]
    ensures KeysIn(Chain(hs[0].0, hs[0].1)[1..], Printed(hs[1..]))
  {
    var k, v, rest := hs[0].0, hs[0].1, hs[1..];
    var q := Tail(k);
    if q.Some? {
      ChainKeysIn(q.value, v, rest);
      Cons((k, v), Chain(q.value, v));
      SameKeysIn(Chain(q.value, v), Printed(rest));
    } else {
      assert [(k, v)][1..] == [];
    }
  }

  /** Printing and parsing such a list sets it back as it was. */
  lemma {:induction false} PrintedBack(hs: Headers)
    requires Later(hs) && UniqueKeys(hs)
    ensures LastOnly(Printed(hs)) == hs
  {
    if hs != [] {
      UniqueCons(hs);
      if Stops(hs[0].0) {
        StopIsChain(hs);
        assert Printed(hs) == hs;
        LastOnlyFixed(hs);
      } else {
        PrintedBack(hs[1..]);
        PrintedStep(hs);
      }
    }
  }

  // ---- what parsing sets is chained ----

  /** A header as the parser sets it. */
  predicate Good(h: (string, string)) {
    NUL !in h.0 && Free(h.0, ":") && !Blank(h.0) && Clean(h.1, "")
  }

  lemma OccursInside(t: string, i: nat, j: nat, k: nat)
    requires i <= j <= |t| && i <= k && k + 2 <= j
    ensures Occurs(Piece(t, i, j), CRLF, k - i) <==> Occurs(t, CRLF, k)
  {
    CrlfAt(t, k);
    CrlfAt(t[i..j], k - i);
  }

  /** The tail of a key read from the text is the text after its first line end. */
  lemma TailInText(t: string, cur: nat, colon: nat, n: nat)
    requires cur <= colon <= |t| && Find(t, CRLF, cur) == Some(n)
    ensures Tail(Piece(t, cur, colon)) == if n + 2 <= colon then Some(Piece(t, n + 2, colon)) else None
  {
    hide Find;
    var key := Piece(t, cur, colon);
    var r := Find(key, CRLF, 0);
    forall j | 0 <= j && j + 2 <= |key|
      ensures Occurs(key, CRLF, j) <==> Occurs(t, CRLF, cur + j)
    {
      OccursInside(t, cur, colon, cur + j);
    }
    if n + 2 <= colon {
      forall j | 0 <= j < n - cur
        ensures !Occurs(key, CRLF, j)
      {
      }
      FindIs(key, CRLF, 0, n - cur);
      assert key[n - cur + 2..] == t[n + 2..colon];
    } else {
      assert r.None?;
    }
  }

  /** A line end does not run over a colon. */
  lemma BlankInText(t: string, i: nat, colon: nat)
    requires i <= colon && Occurs(t, ":", colon)
    ensures Blank(Piece(t, i, colon)) <==> Occurs(t, CRLF, i)
  {
    assert t[colon..colon + 1][0] == t[colon] == ':';
    CrlfAt(t, i);
    CrlfAt(t[i..colon], 0);
  }

  lemma SettingGood(t: string, cur: nat)
    requires NUL !in t && !Occurs(t, CRLF, cur) && SpotAt(t, cur).Some?
    ensures Good(Setting(t, cur, SpotAt(t, cur).value))
  {
    var spot := SpotAt(t, cur).value;
    assert Occurs(t, ":", spot.colon);
    PieceFree(t, cur, spot.colon);
    PieceClean(t, spot.colon + 2, spot.end);
    BlankInText(t, cur, spot.colon);
  }

  /** After a line end inside a key the loop finds the same colon and the same value. */
  lemma SpotLater(t: string, cur: nat)
    requires SpotAt(t, cur).Some? && SpotAt(t, cur).value.next <= SpotAt(t, cur).value.colon
    ensures var spot := SpotAt(t, cur).value;
            var later := SpotAt(t, spot.next);
            later.Some? && later.value.colon == spot.colon && later.value.end == spot.end
  {
    var spot := SpotAt(t, cur).value;
    assert Occurs(t, ":", spot.colon) && forall j :: cur <= j < spot.colon ==> !Occurs(t, ":", j);
    FindIs(t, ":", spot.next, spot.colon);
    assert Occurs(t, CRLF, spot.end);
    assert Find(t, CRLF, spot.next).Some?;
    hide Find, Occurs;
  }

  lemma SpotFinds(t: string, cur: nat)
    requires SpotAt(t, cur).Some?
    ensures Find(t, CRLF, cur) == Some(SpotAt(t, cur).value.next - 2)
    ensures Occurs(t, ":", SpotAt(t, cur).value.colon)
  {
    hide Find, Occurs;
  }

  /** The tail of the key set at `cur`, in the text. */
  lemma SettingTail(t: string, cur: nat)
    requires SpotAt(t, cur).Some?
    ensures var spot := SpotAt(t, cur).value;
            && Tail(Setting(t, cur, spot).0) ==
                 (if spot.next <= spot.colon then Some(Piece(t, spot.next, spot.colon)) else None)
            && (spot.next <= spot.colon ==>
                  (Blank(Piece(t, spot.next, spot.colon)) <==> Occurs(t, CRLF, spot.next)))
  {
    hide Find, SpotAt, Occurs, Piece, Tail, Blank;
    var spot := SpotAt(t, cur).value;
    SpotFinds(t, cur);
    TailInText(t, cur, spot.colon, spot.next - 2);
    if spot.next <= spot.colon {
      BlankInText(t, spot.next, spot.colon);
    }
  }

  /** A key that runs over a line end is followed by its tail. */
  lemma SettingFollowed(t: string, cur: nat, rest: Headers)
    requires SpotAt(t, cur).Some? && Settings(t, SpotAt(t, cur).value.next) == Some(rest)
    ensures var h := Setting(t, cur, SpotAt(t, cur).value);
            var q := Tail(h.0);
            q.Some? ==> if Blank(q.value) then rest == [] else rest != [] && rest[0] == (q.value, h.1)
  {
    hide SpotAt, Occurs, Piece, Tail, Blank;
    SettingTail(t, cur);
    var spot := SpotAt(t, cur).value;
    if spot.next <= spot.colon && !Occurs(t, CRLF, spot.next) {
      SpotLater(t, cur);
    }
  }

  lemma {:induction false} SettingsChained(t: string, cur: nat)
    requires NUL !in t && Settings(t, cur).Some?
    ensures Chained(Settings(t, cur).value)
    ensures forall i :: 0 <= i < |Settings(t, cur).value| ==> Good(Settings(t, cur).value[i])
    decreases |t| - cur
  {
    hide Good, SpotAt, Setting, Occurs, Tail, Blank;
    if cur < |t| && !Occurs(t, CRLF, cur) {
      var spot := SpotAt(t, cur).value;
      var h, rest := Setting(t, cur, spot), Settings(t, spot.next).value;
      SettingGood(t, cur);
      SettingsChained(t, spot.next);
      SettingFollowed(t, cur, rest);
      Cons(h, rest);
    }
  }

  // ---- parsing what was printed ----

  lemma TailPrinted(t: string, cur: nat, k: string, v: string, n: nat)
    requires At(t, cur, HeaderLine((k, v))) && Find(k, CRLF, 0) == Some(n)
    ensures Find(t, CRLF, cur) == Some(cur + n) && At(t, cur + n + 2, HeaderLine((k[n + 2..], v)))
  {
    assert Occurs(k, CRLF, n);
    HeaderParts(t, cur, k, v);
    hide Find, At, HeaderLine, Occurs;
    FirstLineEnd(t, cur, k, n);
    LineSplit(k, v, n + 2);
    AtPrefix(t, cur, k[..n + 2], HeaderLine((k[n + 2..], v)));
  }

  lemma LineSplit(k: string, v: string, i: nat)
    requires i <= |k|
    ensures HeaderLine((k, v)) == k[..i] + HeaderLine((k[i..], v))
  {
    var a, b := k[..i], k[i..];
    assert k == a + b;
    Concat(a, b, ": ");
    Concat(a, b + ": ", v);
    Concat(a, b + ": " + v, CRLF);
  }

  /** The first line end of a key is the first one of the text from there. */
  lemma FirstLineEnd(t: string, cur: nat, k: string, n: nat)
    requires At(t, cur, k) && Find(k, CRLF, 0) == Some(n)
    ensures Find(t, CRLF, cur) == Some(cur + n)
  {
    assert Occurs(k, CRLF, n);
    OccursAt(t, cur, k, n);
    forall j | cur <= j < cur + n
      ensures !Occurs(t, CRLF, j)
    {
      OccursAt(t, cur, k, j - cur);
    }
    hide Find;
    FindIs(t, CRLF, cur, cur + n);
  }

  lemma OccursAt(t: string, cur: nat, k: string, j: nat)
    requires At(t, cur, k) && j + 2 <= |k|
    ensures Occurs(k, CRLF, j) <==> Occurs(t, CRLF, cur + j)
  {
    CrlfAt(k, j);
    CrlfAt(t, cur + j);
    AtElement(t, cur, k, cur + j);
    AtElement(t, cur, k, cur + j + 1);
  }

  lemma NotBlankPrinted(t: string, cur: nat, k: string, v: string)
    requires At(t, cur, HeaderLine((k, v))) && !Blank(k)
    ensures cur < |t| && !Occurs(t, CRLF, cur)
  {
    HeaderParts(t, cur, k, v);
    AtElement(t, cur + |k|, ": ", cur + |k|);
    CrlfAt(t, cur);
    CrlfAt(k, 0);
    if |k| >= 2 {
      AtElement(t, cur, k, cur);
      AtElement(t, cur, k, cur + 1);
    }
  }

  lemma GoodTail(k: string, v: string, n: nat)
    requires Good((k, v)) && n + 2 <= |k| && !Blank(k[n + 2..])
    ensures Good((k[n + 2..], v))
  {
  }

  /** The first pass over a printed header whose key runs over a line end. */
  lemma OnePass(t: string, cur: nat, k: string, v: string, hs: Headers, n: nat)
    requires At(t, cur, HeaderLine((k, v))) && Good((k, v)) && Find(k, CRLF, 0) == Some(n)
    ensures ParseHeaders(t, cur, hs) == ParseHeaders(t, cur + n + 2, SetHeader(hs, k, v))
  {
    hide ParseHeaders, SetHeader, SpotAt, Setting, Occurs, At, HeaderLine, Find, Blank, Free, NoCrlf;
    NotBlankPrinted(t, cur, k, v);
    PrintedSpot(t, cur, k, v, n);
    PassAt(t, cur, hs);
  }

  /** The loop finds the parts of a printed header. */
  lemma PrintedSpot(t: string, cur: nat, k: string, v: string, n: nat)
    requires At(t, cur, HeaderLine((k, v))) && Good((k, v)) && Find(k, CRLF, 0) == Some(n)
    ensures SpotAt(t, cur) == Some(Spot(cur + |k|, cur + |k| + 2 + |v|, cur + n + 2))
    ensures Setting(t, cur, SpotAt(t, cur).value) == (k, v)
  {
    hide NoCrlf, Free, Find, HeaderLine, Occurs, Blank, At, Piece;
    TailPrinted(t, cur, k, v, n);
    HeaderParts(t, cur, k, v);
    HeaderKey(t, cur, k);
    FindLineEnd(t, cur + |k| + 2, v);
    AtPiece(t, cur, k);
    AtPiece(t, cur + |k| + 2, v);
  }

  lemma AtPiece(t: string, i: nat, s: string)
    requires At(t, i, s)
    ensures i + |s| <= |t| && Piece(t, i, i + |s|) == s
  {
  }

  lemma NoTail(k: string)
    ensures Find(k, CRLF, 0).None? ==> NoCrlf(k)
  {
    if Find(k, CRLF, 0).None? {
      forall j | 0 <= j && j + 1 < |k|
        ensures !(k[j] == '\r' && k[j + 1] == '\n')
      {
        CrlfAt(k, j);
      }
    }
  }

  lemma {:induction false} ParseChain(t: string, cur: nat, k: string, v: string, hs: Headers)
    requires At(t, cur, HeaderLine((k, v))) && Good((k, v))
    ensures ParseHeaders(t, cur, hs) ==
            if Stops(k) then Some(SetAll(hs, Chain(k, v)))
            else ParseHeaders(t, cur + |HeaderLine((k, v))|, SetAll(hs, Chain(k, v)))
    decreases |k|
  {
    hide Find, ParseHeaders, SetHeader, HeaderLine, At;
    var f := Find(k, CRLF, 0);
    var hs1 := SetHeader(hs, k, v);
    if f.None? {
      NoTail(k);
      OneHeader(t, cur, (k, v), hs);
      SetOne(hs, k, v);
    } else {
      var n := f.value;
      var q := Tail(k).value;
      OnePass(t, cur, k, v, hs, n);
      TailPrinted(t, cur, k, v, n);
      if Blank(q) {
        BlankStops(t, cur + n + 2, q, v, hs1);
        SetOne(hs, k, v);
      } else {
        GoodTail(k, v, n);
        ParseChain(t, cur + n + 2, q, v, hs1);
        Cons((k, v), Chain(q, v));
        LineLengths(k, v, n);
      }
    }
  }

  lemma LineLengths(k: string, v: string, n: nat)
    requires n + 2 <= |k|
    ensures |HeaderLine((k, v))| == n + 2 + |HeaderLine((k[n + 2..], v))|
  {
  }

  lemma SetOne(hs: Headers, k: string, v: string)
    ensures SetAll(hs, [(k, v)]) == SetHeader(hs, k, v)
  {
    assert [(k, v)][1..] == [];
  }

  lemma BlankStops(t: string, cur: nat, q: string, v: string, hs: Headers)
    requires At(t, cur, HeaderLine((q, v))) && Blank(q)
    ensures ParseHeaders(t, cur, hs) == Some(hs)
  {
    HeaderParts(t, cur, q, v);
    AtElement(t, cur, q, cur);
    AtElement(t, cur, q, cur + 1);
    CrlfAt(q, 0);
    CrlfAt(t, cur);
  }

  lemma {:induction false} SetAllAppend(hs: Headers, a: Headers, b: Headers)
    ensures SetAll(hs, a + b) == SetAll(SetAll(hs, a), b)
    decreases |a|
  {
    if a == [] {
      assert a + b == b;
    } else {
      assert (a + b)[1..] == a[1..] + b;
      SetAllAppend(SetHeader(hs, a[0].0, a[0].1), a[1..], b);
    }
  }

  lemma {:induction false} ParsePrinted(t: string, cur: nat, hs: Headers, done: Headers)
    requires At(t, cur, HeaderText(hs)) && cur + |HeaderText(hs)| == |t|
    requires forall i :: 0 <= i < |hs| ==> Good(hs[i])
    ensures ParseHeaders(t, cur, done) == Some(SetAll(done, Printed(hs)))
    decreases |hs|
  {
    hide ParseHeaders, HeaderLine, Good, SetHeader, Stops, Chain;
    if hs == [] {
      assert HeaderText(hs) == CRLF;
      EndOfHeaders(t, cur, done);
    } else {
      var h, rest := hs[0], hs[1..];
      assert HeaderText(hs) == HeaderLine(h) + HeaderText(rest);
      AtPrefix(t, cur, HeaderLine(h), HeaderText(rest));
      ParseChain(t, cur, h.0, h.1, done);
      var c := Chain(h.0, h.1);
      if Stops(h.0) {
        assert c + [] == c;
      } else {
        ParsePrinted(t, cur + |HeaderLine(h)|, rest, SetAll(done, c));
        SetAllAppend(done, c, Printed(rest));
      }
    }
  }

  /** Headers that print to a text which sets them again as they are. */
  predicate Printable(hs: Headers) {
    UniqueKeys(hs) && Later(hs) && forall i :: 0 <= i < |hs| ==> Good(hs[i])
  }

  lemma ParsedPrintable(t: string, cur: nat, hs: Headers)
    requires NUL !in t && ParseHeaders(t, cur, []) == Some(hs)
    ensures Printable(hs)
  {
    hide ParseHeaders, Settings, Good, UniqueKeys, Later;
    ParseIsSettings(t, cur, []);
    var ops := Settings(t, cur).value;
    SettingsOnly(ops);
    SettingsChained(t, cur);
    forall i | 0 <= i < |hs|
      ensures Good(hs[i])
    {
      LastOnlyFrom(ops, i);
    }
    LastOnlyLater(ops);
    LastOnlyUnique(ops);
  }

  lemma PrintableBack(t: string, cur: nat, hs: Headers)
    requires Printable(hs) && At(t, cur, HeaderText(hs)) && cur + |HeaderText(hs)| == |t|
    ensures ParseHeaders(t, cur, []) == Some(hs)
  {
    hide ParseHeaders, At, Good, HeaderText, UniqueKeys, Later;
    ParsePrinted(t, cur, hs, []);
    SettingsOnly(Printed(hs));
    PrintedBack(hs);
  }

  /** Whatever list of headers a parse produces, its printed text parses back to it. */
  lemma HeadersReparse(t: string, cur: nat, t': string, cur': nat)
    requires NUL !in t && ParseHeaders(t, cur, []).Some?
    requires var hs := ParseHeaders(t, cur, []).value;
             At(t', cur', HeaderText(hs)) && cur' + |HeaderText(hs)| == |t'|
    ensures ParseHeaders(t', cur', []) == ParseHeaders(t, cur, [])
  {
    hide ParseHeaders, At, Printable, HeaderText;
    var hs := ParseHeaders(t, cur, []).value;
    ParsedPrintable(t, cur, hs);
    PrintableBack(t', cur', hs);
  }

  /** Into an empty table. */
  lemma SettingsOnly(ops: Headers)
    ensures SetAll([], ops) == LastOnly(ops)
  {
    SetAllLast([], ops);
    WithoutAllOne(("", ""), ops);
    assert [] + LastOnly(ops) == LastOnly(ops);
  }

  lemma PrintableNoNul(hs: Headers)
    requires Printable(hs)
    ensures forall i :: 0 <= i < |hs| ==> NUL !in hs[i].0 && NUL !in hs[i].1
  {
    hide UniqueKeys, Later, Free, NoCrlf, Blank;
  }

  /** What a successful parse has found. */
  lemma ParsedParts(buf: string, r: Request) returns (t: string, cur: nat)
    requires Parse(buf) == Some(r)
    ensures NUL !in t && WellFormedLine(r.line) && ParseHeaders(t, cur, []) == Some(r.headers)
  {
    hide ParseLine, ParseHeaders, WellFormedLine;
    t := CString(buf);
    var end := Find(t, CRLF, 0).value;
    PieceClean(t, 0, end);
    assert t[0..end] == t[..end];
    cur := end + 2;
    hide Find, CString;
    AcceptedIsWellFormed(t[..end], r.line);
  }

  /**
   Which buffers are accepted: `t` being the text before the first NUL and `e` its first line end, those of 4 to 65535
   octets with an empty line somewhere whose request line and headers are accepted.
   */
  lemma ParsesExactly(buf: string, t: string, e: nat, r: Request)
    requires t <= buf && NUL !in t && (|t| < |buf| ==> buf[|t|] == NUL)
    requires Occurs(t, "\r\n", e) && forall j :: 0 <= j < e ==> !Occurs(t, "\r\n", j)
    ensures Parse(buf) == Some(r) <==>
            && 4 <= |buf| <= 65535 && (exists j :: Occurs(t, "\r\n\r\n", j))
            && ParseLine(t[..e]) == Some(r.line) && ParseHeaders(t, e + 2, []) == Some(r.headers)
  {
    hide ParseLine, ParseHeaders;
    TextIs(buf, t);
    FindIs(t, CRLF, 0, e);
    assert CRLF + CRLF == "\r\n\r\n";
    assert Find(t, CRLF + CRLF, 0).Some? <==> exists j :: Occurs(t, "\r\n\r\n", j);
    hide Find, CString;
  }

  lemma {:induction false} TextIs(buf: string, t: string)
    requires t <= buf && NUL !in t && (|t| < |buf| ==> buf[|t|] == NUL)
    ensures CString(buf) == t
  {
    if t != [] {
      assert buf[0] == t[0] && t[0] in t;
      TextIs(buf[1..], t[1..]);
    }
  }

  /** A header line with no colon in it or anywhere behind it is refused. */
  lemma NoColonRefused(t: string, cur: nat, hs: Headers)
    requires cur < |t| && !Occurs(t, "\r\n", cur) && ':' !in t[cur..]
    ensures ParseHeaders(t, cur, hs) == None
  {
    forall j | cur <= j
      ensures !Occurs(t, ":", j)
    {
      assert j < |t| ==> t[cur..][j - cur] == t[j] && t[j..j + 1] == [t[j]];
    }
    assert Find(t, ":", cur).None?;
  }

  lemma TooLong(text: string)
    requires |text| > MAX_REQ_LEN
    ensures Parse(text) == None
  {
  }

  /**
   The round trip of a whole request, exactly: it parses back from its own text if and only if its line is well formed,
   its headers are printable and the text is within the parser's length limit.
   */
  lemma RequestRoundTrip(r: Request)
    ensures Parse(Unparse(r)) == Some(r) <==>
            WellFormedLine(r.line) && Printable(r.headers) && |Unparse(r)| <= MAX_REQ_LEN
  {
    hide Parse, ParseHeaders, WellFormedLine, Unparse, LineText, HeaderText, Printable, At;
    if |Unparse(r)| > MAX_REQ_LEN {
      TooLong(Unparse(r));
    } else if Parse(Unparse(r)) == Some(r) {
      var t, cur := ParsedParts(Unparse(r), r);
      ParsedPrintable(t, cur, r.headers);
    } else if WellFormedLine(r.line) && Printable(r.headers) {
      PrintableNoNul(r.headers);
      ParseUnparse(r);
      PrintableBack(Unparse(r), |LineText(r.line)| + 2, r.headers);
    }
  }

  /**
   For every text the parser accepts: what was parsed, printed and parsed again, is the same request if and only if
   the printed text is within the parser's length limit.
   */
  lemma ParsePrintParse(buf: string, r: Request)
    requires Parse(buf) == Some(r)
    ensures Parse(Unparse(r)) == Some(r) <==> |Unparse(r)| <= MAX_REQ_LEN
  {
    hide Parse, ParseHeaders, WellFormedLine, Unparse, Printable;
    var t, cur := ParsedParts(buf, r);
    ParsedPrintable(t, cur, r.headers);
    RequestRoundTrip(r);
  }

  // ---- a text that grows beyond the limit ----

  /** A key of `n` lines and a rest. */
  function Lines(n: nat): (k: string)
    ensures |k| == 3 * n + 1
  {
    if n == 0 then "b" else "a\r\n" + Lines(n - 1)
  }

  lemma LinesTail(n: nat)
    ensures !Blank(Lines(n)) && Tail(Lines(n)) == if n == 0 then None else Some(Lines(n - 1))
  {
    var k := Lines(n);
    assert k[0] == 'a' || k[0] == 'b';
    CrlfAt(k, 0);
    if n > 0 {
      CrlfAt(k, 1);
      FindIs(k, CRLF, 0, 1);
      assert k[3..] == Lines(n - 1);
    }
  }

  lemma {:induction false} LinesClean(n: nat)
    ensures NUL !in Lines(n) && Free(Lines(n), ":")
  {
    if n > 0 {
      LinesClean(n - 1);
    }
  }

  lemma LinesStep(n: nat, v: string)
    ensures n == 0 ==> Chain(Lines(n), v) == [(Lines(n), v)] && !Stops(Lines(n))
    ensures n > 0 ==> Chain(Lines(n), v) == [(Lines(n), v)] + Chain(Lines(n - 1), v)
    ensures n > 0 ==> Stops(Lines(n)) == Stops(Lines(n - 1))
  {
    hide Lines, Tail, Blank;
    LinesTail(n);
    if n > 0 {
      LinesTail(n - 1);
    }
  }

  lemma {:induction false} ChainUnique(key: string, value: string)
    ensures UniqueKeys(Chain(key, value))
    decreases |key|
  {
    var c := Chain(key, value);
    var q := Tail(key);
    if q.Some? && !Blank(q.value) {
      ChainUnique(q.value, value);
      Cons((key, value), Chain(q.value, value));
      ChainRest(key, value);
      UniqueCons(c);
    }
  }

  lemma HeaderLinesCons(h: (string, string), hs: Headers)
    ensures |HeaderLines([h] + hs)| == |h.0| + |h.1| + 4 + |HeaderLines(hs)|
  {
    Cons(h, hs);
  }

  /** Read as one header, such a key is set once for each of its lines: the printed headers grow with the square. */
  lemma {:induction false} LinesChain(n: nat, v: string)
    ensures !Stops(Lines(n)) && 2 * |HeaderLines(Chain(Lines(n), v))| >= 3 * n * n
  {
    hide Lines, Chain, Stops, HeaderLines;
    LinesStep(n, v);
    if n > 0 {
      LinesChain(n - 1, v);
      HeaderLinesCons((Lines(n), v), Chain(Lines(n - 1), v));
      assert 3 * n * n == 3 * (n - 1) * (n - 1) + 6 * n - 3;
    }
  }

  const SMALL_LINE := Line("GET", "http", "h", None, "/", "HTTP/1.0")

  lemma SmallLineGood()
    ensures WellFormedLine(SMALL_LINE) && |LineText(SMALL_LINE)| <= 30
  {
    assert Clean("GET", " ") && Clean("http", " :/") && Clean("h", " :/");
    assert Clean("/"[1..], " ") && Clean("HTTP/1.0", "");
    hide Clean;
    assert "HTTP/1.0"[..5] == "HTTP/";
    assert |LineText(SMALL_LINE)| <= 30;
  }

  /** What the parser makes of a request printed with one header. */
  lemma ParseOneHeader(l: Line, h: (string, string))
    requires WellFormedLine(l) && Good(h) && !Stops(h.0)
    requires |Unparse(Request(l, [h]))| <= MAX_REQ_LEN
    ensures Parse(Unparse(Request(l, [h]))) == Some(Request(l, Chain(h.0, h.1)))
  {
    hide Parse, Stops, Chain, LineText, WellFormedLine, HeaderText, ParseHeaders, At, Unparse, SetAll, Printed;
    assert NUL !in h.0 && NUL !in h.1;
    hide Good;
    var hs: Headers := [h];
    var r := Request(l, hs);
    ParseUnparse(r);
    ParsePrinted(Unparse(r), |LineText(l)| + 2, hs, []);
    SetOneHeader(h, hs);
  }

  lemma SetOneHeader(h: (string, string), hs: Headers)
    requires hs == [h] && !Stops(h.0)
    ensures SetAll([], Printed(hs)) == Chain(h.0, h.1)
  {
    hide Stops, Chain, UniqueKeys, SetAll;
    var c := Chain(h.0, h.1);
    assert hs[1..] == [];
    assert c + [] == c;
    SettingsOnly(c);
    ChainUnique(h.0, h.1);
    LastOnlyFixed(c);
  }

  lemma LinesGood(n: nat)
    ensures Good((Lines(n), ""))
  {
    hide Lines, Blank;
    LinesTail(n);
    LinesClean(n);
  }

  lemma SmallText(n: nat)
    requires n <= 300
    ensures |Unparse(Request(SMALL_LINE, [(Lines(n), "")]))| < 1000
  {
    hide Lines, LineText, HeaderLines, WellFormedLine;
    var h: (string, string) := (Lines(n), "");
    SmallLineGood();
    HeaderLinesCons(h, []);
    assert [h] + [] == [h];
    assert HeaderLines([]) == [] by { NoLines(); }
  }

  lemma NoLines()
    ensures HeaderLines([]) == []
  {
  }

  /** An accepted text of fewer than 1000 octets whose request prints to more than the parser takes. */
  lemma PrintedTooLong() returns (buf: string, r: Request)
    ensures |buf| < 1000 && Parse(buf) == Some(r) && |Unparse(r)| > MAX_REQ_LEN && Parse(Unparse(r)) == None
  {
    hide Lines, Parse, Chain, LineText, HeaderLines, Stops, WellFormedLine, Good;
    var n: nat :| 210 <= n <= 300;
    buf := Unparse(Request(SMALL_LINE, [(Lines(n), "")]));
    r := Request(SMALL_LINE, Chain(Lines(n), ""));
    SmallText(n);
    SmallLineGood();
    LinesGood(n);
    LinesChain(n, "");
    ParseOneHeader(SMALL_LINE, (Lines(n), ""));
    assert 3 * n * n >= 3 * 210 * 210;
    TooLong(Unparse(r));
  }
}
