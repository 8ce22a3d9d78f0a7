/**
 Bit strings. A prefix of length n is the string of its first n address bits, most significant first;
 an address is a string of the full width. `a <= b` on bit strings says that a is a prefix of b, that
 is, that the prefix a covers b. Module Address shows that machine words compute these notions.
 */
module Bits {
  import opened Wrappers

  type Bits = seq<bool>

  /** The length of the longest common prefix. */
  function Shared(a: Bits, b: Bits): (n: nat)
    ensures n <= |a| && n <= |b|
    ensures a[..n] == b[..n]
    ensures n < |a| && n < |b| ==> a[n] != b[n]
  {
    if a == [] || b == [] || a[0] != b[0] then 0
    else
      var n := Shared(a[1..], b[1..]);
      assert a[..n + 1] == [a[0]] + a[1..][..n] && b[..n + 1] == [b[0]] + b[1..][..n];
      n + 1
  }

  /** Bit strings agree up to a length exactly when it does not exceed the shared length. */
  lemma SharedIsLongest(a: Bits, b: Bits, n: nat)
    requires n <= |a| && n <= |b|
    ensures a[..n] == b[..n] <==> n <= Shared(a, b)
  {
    var k := Shared(a, b);
    if n <= k {
      assert a[..n] == a[..k][..n] && b[..n] == b[..k][..n];
    } else {
      assert a[..n][k] == a[k] && b[..n][k] == b[k];
    }
  }

  function Get<V>(table: map<Bits, V>, k: Bits): Option<V> {
    if k in table then Some(table[k]) else None
  }

  /** The reference for longest-prefix match: probe every length, longest first. */
  function LongestMatch<V>(table: map<Bits, V>, address: Bits, n: nat): Option<V>
    requires n <= |address|
  {
    if address[..n] in table then Some(table[address[..n]])
    else if n == 0 then None
    else LongestMatch(table, address, n - 1)
  }

  function Lpm<V>(table: map<Bits, V>, address: Bits): Option<V> {
    LongestMatch(table, address, |address|)
  }

  /** LongestMatch returns the value of the longest prefix of the address, up to length n, in the table. */
  lemma {:induction false} LongestMatchIs<V>(table: map<Bits, V>, address: Bits, n: nat, k: Bits)
    requires n <= |address| && |k| <= n && k <= address && k in table
    requires forall k' :: k' in table && k' <= address && |k'| <= n ==> |k'| <= |k|
    ensures LongestMatch(table, address, n) == Some(table[k])
  {
    if |k| == n {
      assert address[..n] == k;
    } else {
      assert address[..n] <= address;
      LongestMatchIs(table, address, n - 1, k);
    }
  }

  lemma {:induction false} NoMatch<V>(table: map<Bits, V>, address: Bits, n: nat)
    requires n <= |address|
    requires forall k :: k in table && k <= address ==> |k| > n
    ensures LongestMatch(table, address, n) == None
  {
    assert address[..n] <= address;
    if n == 0 {
    } else {
      NoMatch(table, address, n - 1);
    }
  }

  /** The order of prefixes: by address, and by length where one continues the other with zeros. */
  predicate Before(a: Bits, b: Bits) {
    var n := Shared(a, b);
    if n < |a| && n < |b| then b[n] else |a| < |b|
  }

  /** `entries` lists the part of the table below k, every entry once and in strictly increasing order. */
  ghost predicate Lists<V>(entries: seq<(Bits, V)>, table: map<Bits, V>, k: Bits) {
    && (forall i, j :: 0 <= i < j < |entries| ==> Before(entries[i].0, entries[j].0))
    && (forall e :: e in entries ==> k <= e.0 && e.0 in table && table[e.0] == e.1)
    && (forall p :: p in table && k <= p ==> (p, table[p]) in entries)
  }

  /** What lies below a key comes after it, and the zero side comes before the one side. */
  lemma OrderBelow(k: Bits, a: Bits, b: Bits)
    requires k <= a && k < b
    ensures a == k ==> Before(a, b)
    ensures k < a && !a[|k|] && b[|k|] ==> Before(a, b)
  {
    assert a[..|k|] == k == b[..|k|];
    SharedIsLongest(a, b, |k|);
    if a != k && a[|k|] != b[|k|] {
      assert a[..|k| + 1][|k|] != b[..|k| + 1][|k|];
      SharedIsLongest(a, b, |k| + 1);
    }
  }

  /** A listing of what lies below `key`, by its parts, lists all that lies below k if nothing else does. */
  lemma ListsJoin<V>(
      own: seq<(Bits, V)>, zeros: seq<(Bits, V)>, ones: seq<(Bits, V)>, table: map<Bits, V>, k: Bits, key: Bits)
    requires k <= key && forall p :: p in table && k <= p ==> key <= p
    requires own == if key in table then [(key, table[key])] else []
    requires Lists(zeros, table, key + [false]) && Lists(ones, table, key + [true])
    ensures Lists(own + zeros + ones, table, k)
  {
    var below := zeros + ones;
    forall i, j | 0 <= i < j < |below| ensures Before(below[i].0, below[j].0) {
      hide Before;
      if i < |zeros| <= j {
        BelowSide(key, false, below[i].0);
        BelowSide(key, true, below[j].0);
        OrderBelow(key, below[i].0, below[j].0);
      }
    }
    forall e | e in below ensures key < e.0 && e.0 in table && table[e.0] == e.1 {
      BelowSide(key, e in ones, e.0);
    }
    forall p | p in table && k <= p && p != key ensures (p, table[p]) in below {
      assert key + [p[|key|]] <= p;
      assert (p, table[p]) in if p[|key|] then ones else zeros;
    }
    ListsUnder(own, below, table, k, key);
    assert own + zeros + ones == own + below;
  }

  lemma BelowSide(key: Bits, bit: bool, p: Bits)
    requires key + [bit] <= p
    ensures key < p && p[|key|] == bit
  {
    assert p[..|key| + 1][..|key|] == key && p[|key|] == (key + [bit])[|key|];
  }

  lemma SideOf(key: Bits, bit: bool, p: Bits)
    requires key < p && p[|key|] == bit
    ensures key + [bit] <= p
  {
  }

  lemma ListsUnder<V>(own: seq<(Bits, V)>, below: seq<(Bits, V)>, table: map<Bits, V>, k: Bits, key: Bits)
    requires k <= key && forall p :: p in table && k <= p ==> key <= p
    requires own == if key in table then [(key, table[key])] else []
    requires forall i, j :: 0 <= i < j < |below| ==> Before(below[i].0, below[j].0)
    requires forall e :: e in below ==> key < e.0 && e.0 in table && table[e.0] == e.1
    requires forall p :: p in table && k <= p && p != key ==> (p, table[p]) in below
    ensures Lists(own + below, table, k)
  {
    var entries := own + below;
    forall i, j | 0 <= i < j < |entries| ensures Before(entries[i].0, entries[j].0) {
      hide Before;
      assert entries[j] == below[j - |own|];
      if i < |own| {
        OrderBelow(key, key, entries[j].0);
      }
    }
  }
}
