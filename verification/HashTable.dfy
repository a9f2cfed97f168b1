/**
 The chained hash table of TCP/src/mysock_hash.h. Insertion does not check for duplicates, so a key stands
 for the stack of values inserted under it; with at most one insertion per key that is a finite map.
 */
module HashTable {
  import opened Base

  datatype Entry<V> = Entry(key: nat, data: V)
  type Chain<V> = seq<Entry<V>>

  // ---- one chain ----

  /** The values under a key, newest first. */
  function Values<V>(c: Chain<V>, key: nat): seq<V> {
    if c == [] then []
    else if c[0].key == key then [c[0].data] + Values(c[1..], key)
    else Values(c[1..], key)
  }

  function Tail<V>(s: seq<V>): seq<V> { if s == [] then [] else s[1..] }

  /** The first entry with the key, or the length of the chain. */
  function FirstAt<V>(c: Chain<V>, key: nat): nat { FirstIndex(c, (e: Entry<V>) => e.key == key) }

  lemma {:induction false} FirstIsHead<V>(c: Chain<V>, key: nat)
    ensures var k := FirstAt(c, key);
            if k < |c| then Values(c, key) != [] && Values(c, key)[0] == c[k].data else Values(c, key) == []
  {
    if c != [] && c[0].key != key {
      FirstIsHead(c[1..], key);
    }
  }

  lemma {:induction false} RemoveFirst<V>(c: Chain<V>, k: nat, other: nat)
    requires k < |c| && FirstAt(c, c[k].key) == k
    ensures Values(c[..k] + c[k + 1..], other) ==
            if other == c[k].key then Tail(Values(c, other)) else Values(c, other)
  {
    if k == 0 {
      assert c[..0] + c[1..] == c[1..];
      if other == c[0].key {
        Cons(c[0].data, Values(c[1..], other));
      }
    } else {
      var d := c[..k] + c[k + 1..];
      assert d[1..] == c[1..][..k - 1] + c[1..][k..];
      assert c[1..][k - 1] == c[k] && FirstAt(c[1..], c[k].key) == k - 1;
      RemoveFirst(c[1..], k - 1, other);
      if other == c[0].key {
        assert other != c[k].key;
      }
    }
  }

  lemma {:induction false} UpdateFirst<V>(c: Chain<V>, k: nat, data: V, other: nat)
    requires k < |c| && FirstAt(c, c[k].key) == k
    ensures Values(c[k := Entry(c[k].key, data)], other) ==
            if other == c[k].key then [data] + Tail(Values(c, other)) else Values(c, other)
  {
    var d := c[k := Entry(c[k].key, data)];
    if k == 0 {
      assert d[1..] == c[1..];
      if other == c[0].key {
        Cons(c[0].data, Values(c[1..], other));
      }
    } else {
      assert d[1..] == c[1..][k - 1 := Entry(c[k].key, data)];
      assert c[1..][k - 1] == c[k] && FirstAt(c[1..], c[k].key) == k - 1;
      UpdateFirst(c[1..], k - 1, data, other);
    }
  }

  // ---- the table ----

  class Table<V(0)> {
    const buckets: array<Chain<V>>

    ghost predicate Valid() { buckets.Length > 0 }

    /** What the table holds under a key. */
    ghost function Stack(key: nat): seq<V>
      reads buckets
      requires Valid()
    {
      Values(buckets[key % buckets.Length], key)
    }

    constructor (size: nat)
      requires size > 0
      ensures Valid() && fresh(buckets) && forall key :: Stack(key) == []
    {
      buckets := new Chain<V>[size](i => []);
    }

    /** `_hash_get_entry`: the chain walk. */
    method GetEntry(key: nat) returns (k: nat)
      requires Valid()
      ensures k == FirstAt(buckets[key % buckets.Length], key)
    {
      var chain := buckets[key % buckets.Length];
      k := 0;
      while k < |chain| && chain[k].key != key
        invariant 0 <= k <= FirstAt(chain, key)
      {
        k := k + 1;
      }
    }

    method Insert(key: nat, data: V)
      requires Valid()
      modifies buckets
      ensures Stack(key) == [data] + old(Stack(key))
      ensures forall other :: other != key ==> Stack(other) == old(Stack(other))
    {
      var ndx := key % buckets.Length;
      ghost var chain := buckets[ndx];
      buckets[ndx] := [Entry(key, data)] + buckets[ndx];
      Cons(Entry(key, data), chain);
    }

    /** HASH_LOOKUP_PTR; None stands for NULL. */
    method LookupPtr(key: nat) returns (r: Option<V>)
      requires Valid()
      ensures r == if Stack(key) == [] then None else Some(Stack(key)[0])
    {
      var chain := buckets[key % buckets.Length];
      var k := GetEntry(key);
      FirstIsHead(chain, key);
      r := if k < |chain| then Some(chain[k].data) else None;
    }

    method EntryExists(key: nat) returns (r: bool)
      requires Valid()
      ensures r <==> Stack(key) != []
    {
      var k := GetEntry(key);
      FirstIsHead(buckets[key % buckets.Length], key);
      r := k < |buckets[key % buckets.Length]|;
    }

    method SetEntry(key: nat, data: V)
      requires Valid()
      modifies buckets
      ensures Stack(key) == [data] + Tail(old(Stack(key)))
      ensures forall other :: other != key ==> Stack(other) == old(Stack(other))
    {
      var ndx := key % buckets.Length;
      var chain := buckets[ndx];
      var k := GetEntry(key);
      FirstIsHead(chain, key);
      if k < |chain| {
        buckets[ndx] := chain[k := Entry(key, data)];
        forall other: nat
          ensures Values(buckets[ndx], other) ==
                  if other == key then [data] + Tail(Values(chain, other)) else Values(chain, other)
        {
          UpdateFirst(chain, k, data, other);
        }
      } else {
        Insert(key, data);
      }
    }

    /** Removes the newest entry under the key; the final assertion of the source is returned as `gone`. */
    method Delete(key: nat) returns (gone: bool)
      requires Valid()
      modifies buckets
      ensures Stack(key) == Tail(old(Stack(key)))
      ensures forall other :: other != key ==> Stack(other) == old(Stack(other))
      ensures gone <==> |old(Stack(key))| <= 1
    {
      var ndx := key % buckets.Length;
      var chain := buckets[ndx];
      var k := 0;
      while k < |chain|
        invariant 0 <= k <= FirstAt(chain, key)
      {
        if chain[k].key == key {
          buckets[ndx] := chain[..k] + chain[k + 1..];
          break;
        }
        k := k + 1;
      }
      FirstIsHead(chain, key);
      if k < |chain| {
        forall other: nat
          ensures Values(buckets[ndx], other) ==
                  if other == key then Tail(Values(chain, other)) else Values(chain, other)
        {
          RemoveFirst(chain, k, other);
        }
      }
      var there := EntryExists(key);
      gone := !there;
    }
  }

  // ---- any sequence of operations refines a finite map ----

  datatype Op<V> = Insert(key: nat, data: V) | Set(key: nat, data: V) | Delete(key: nat)

  /** Insertions happen only when the key is absent. */
  predicate Proper<V>(m: map<nat, V>, ops: seq<Op<V>>)
    decreases |ops|
  {
    ops == [] || ((ops[0].Insert? ==> ops[0].key !in m) && Proper(Apply(m, ops[0]), ops[1..]))
  }

  function Apply<V>(m: map<nat, V>, op: Op<V>): map<nat, V> {
    match op
    case Insert(k, v) => m[k := v]
    case Set(k, v) => m[k := v]
    case Delete(k) => m - {k}
  }

  function ApplyAll<V>(m: map<nat, V>, ops: seq<Op<V>>): map<nat, V>
    decreases |ops|
  {
    if ops == [] then m else ApplyAll(Apply(m, ops[0]), ops[1..])
  }

  ghost predicate Refines<V(0)>(t: Table<V>, m: map<nat, V>)
    reads t.buckets
  {
    t.Valid() && forall key :: t.Stack(key) == if key in m then [m[key]] else []
  }

  /** Runs any proper sequence of operations; the assertion in `Delete` never fails. */
  method RunOps<V(0)>(t: Table<V>, ops: seq<Op<V>>, ghost m: map<nat, V>)
    requires Refines(t, m) && Proper(m, ops)
    modifies t.buckets
    ensures Refines(t, ApplyAll(m, ops))
  {
    ghost var now := m;
    var rest := ops;
    while rest != []
      invariant Refines(t, now) && Proper(now, rest)
      invariant ApplyAll(now, rest) == ApplyAll(m, ops)
      decreases |rest|
    {
      match rest[0] {
        case Insert(k, v) => t.Insert(k, v);
        case Set(k, v) => t.SetEntry(k, v);
        case Delete(k) =>
          var gone := t.Delete(k);
          assert gone;
      }
      now := Apply(now, rest[0]);
      rest := rest[1..];
    }
  }

  /** Inserted twice, a key is still there after a delete, so the assertion that it is gone fails. */
  method DeleteAfterTwoInserts<V(0)>(size: nat, key: nat, older: V, newer: V) returns (gone: bool, left: Option<V>)
    requires size > 0
    ensures !gone && left == Some(older)
  {
    var t := new Table<V>(size);
    t.Insert(key, older);
    t.Insert(key, newer);
    gone := t.Delete(key);
    left := t.LookupPtr(key);
  }
}
