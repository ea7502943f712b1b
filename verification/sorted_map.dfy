/**
 * Rust's `BTreeMap<String, V>` as an association list whose keys are strictly
 * ascending. Iterating a `BTreeMap` visits the entries in this order, which is
 * what makes field and tag order in the line protocol deterministic.
 */
module SortedMap {
  import opened Wrappers
  import opened Text

  datatype Entry<V> = Entry(key: string, value: V)

  /** Keys strictly ascending: the representation invariant of a `BTreeMap`. */
  predicate Valid<V>(m: seq<Entry<V>>) {
    forall i, j :: 0 <= i < j < |m| ==> Less(m[i].key, m[j].key)
  }

  function KeySet<V>(m: seq<Entry<V>>): set<string>
    decreases |m|
  {
    if |m| == 0 then {} else {m[0].key} + KeySet(m[1..])
  }

  lemma {:induction false} KeySetIndex<V>(m: seq<Entry<V>>, k: string)
    ensures k in KeySet(m) <==> exists i :: 0 <= i < |m| && m[i].key == k
    decreases |m|
  {
    if |m| > 0 {
      KeySetIndex(m[1..], k);
      if exists i :: 0 <= i < |m| && m[i].key == k {
        var i :| 0 <= i < |m| && m[i].key == k;
        if i > 0 {
          assert m[1..][i - 1].key == k;
        }
      }
      if exists i :: 0 <= i < |m[1..]| && m[1..][i].key == k {
        var i :| 0 <= i < |m[1..]| && m[1..][i].key == k;
        assert m[i + 1].key == k;
      }
    }
  }

  /** Every key of `m` lies strictly above `k`. */
  predicate Above<V>(k: string, m: seq<Entry<V>>) {
    forall x :: x in KeySet(m) ==> Less(k, x)
  }

  /** `BTreeMap::get`. */
  function Get<V>(m: seq<Entry<V>>, k: string): (r: Option<V>)
    ensures r.Some? <==> k in KeySet(m)
    decreases |m|
  {
    if |m| == 0 then None
    else if m[0].key == k then Some(m[0].value)
    else Get(m[1..], k)
  }

  lemma TailValid<V>(m: seq<Entry<V>>)
    requires Valid(m) && |m| > 0
    ensures Valid(m[1..])
    ensures Above(m[0].key, m[1..])
  {
    forall x | x in KeySet(m[1..])
      ensures Less(m[0].key, x)
    {
      KeySetIndex(m[1..], x);
      var j :| 0 <= j < |m[1..]| && m[1..][j].key == x;
      assert m[j + 1].key == x;
    }
  }

  lemma ConsValid<V>(e: Entry<V>, rest: seq<Entry<V>>)
    requires Valid(rest) && Above(e.key, rest)
    ensures Valid([e] + rest)
  {
    var r := [e] + rest;
    forall i, j | 0 <= i < j < |r| ensures Less(r[i].key, r[j].key) {
      assert r[j] == rest[j - 1];
      if i == 0 {
        KeySetIndex(rest, rest[j - 1].key);
      } else {
        assert r[i] == rest[i - 1];
      }
    }
  }

  /** In a valid map the entry at position `i` is found under its own key. */
  lemma {:induction false} GetAt<V>(m: seq<Entry<V>>, i: nat)
    requires Valid(m) && i < |m|
    ensures Get(m, m[i].key) == Some(m[i].value)
    decreases i
  {
    if i > 0 {
      TailValid(m);
      LessIrreflexive(m[i].key);
      assert m[i] == m[1..][i - 1];
      GetAt(m[1..], i - 1);
    }
  }

  lemma AboveTransitive<V>(k: string, k': string, m: seq<Entry<V>>)
    requires Less(k, k') && Above(k', m)
    ensures Above(k, m)
  {
    forall x | x in KeySet(m) ensures Less(k, x) {
      LessTransitive(k, k', x);
    }
  }

  lemma AboveNotIn<V>(k: string, m: seq<Entry<V>>)
    requires Above(k, m)
    ensures k !in KeySet(m)
  {
    LessIrreflexive(k);
  }

  /** `BTreeMap::insert`: the new value replaces any old value under the same key. */
  function Insert<V>(m: seq<Entry<V>>, k: string, v: V): (r: seq<Entry<V>>)
    requires Valid(m)
    ensures Valid(r)
    ensures KeySet(r) == KeySet(m) + {k}
    ensures Get(r, k) == Some(v)
    ensures forall j :: j != k ==> Get(r, j) == Get(m, j)
    decreases |m|
  {
    if |m| == 0 then [Entry(k, v)]
    else
      TailValid(m);
      if Less(k, m[0].key) then
        AboveTransitive(k, m[0].key, m[1..]);
        assert Above(k, m) by {
          assert KeySet(m) == {m[0].key} + KeySet(m[1..]);
        }
        ConsValid(Entry(k, v), m);
        [Entry(k, v)] + m
      else if k == m[0].key then
        ConsValid(Entry(k, v), m[1..]);
        assert ([Entry(k, v)] + m[1..])[1..] == m[1..];
        [Entry(k, v)] + m[1..]
      else
        LessTotal(k, m[0].key);
        var rest := Insert(m[1..], k, v);
        ConsValid(m[0], rest);
        assert ([m[0]] + rest)[1..] == rest;
        [m[0]] + rest
  }

  /** A new key lands after every smaller key and before every larger one. */
  lemma {:induction false} InsertBetween<V>(a: seq<Entry<V>>, b: seq<Entry<V>>, k: string, v: V)
    requires Valid(a + b)
    requires forall i :: 0 <= i < |a| ==> Less(a[i].key, k)
    requires forall i :: 0 <= i < |b| ==> Less(k, b[i].key)
    ensures Insert(a + b, k, v) == a + [Entry(k, v)] + b
    decreases |a|
  {
    var m := a + b;
    if |a| == 0 {
      assert m == b;
    } else {
      assert m[0] == a[0];
      LessIrreflexive(k);
      LessAsymmetric(a[0].key, k);
      TailValid(m);
      assert m[1..] == a[1..] + b;
      InsertBetween(a[1..], b, k, v);
      assert a + [Entry(k, v)] + b == [a[0]] + (a[1..] + [Entry(k, v)] + b);
    }
  }

  /** `BTreeMap::remove`: only the entry under `k` disappears. */
  function Remove<V>(m: seq<Entry<V>>, k: string): (r: seq<Entry<V>>)
    requires Valid(m)
    ensures Valid(r)
    ensures KeySet(r) == KeySet(m) - {k}
    ensures Get(r, k) == None
    ensures forall j :: j != k ==> Get(r, j) == Get(m, j)
    decreases |m|
  {
    if |m| == 0 then m
    else
      TailValid(m);
      AboveNotIn(m[0].key, m[1..]);
      if m[0].key == k then
        m[1..]
      else
        var rest := Remove(m[1..], k);
        ConsValid(m[0], rest);
        assert ([m[0]] + rest)[1..] == rest;
        [m[0]] + rest
  }

  /** `BTreeMap::keys`, collected into a `Vec`: the keys, in ascending order. */
  function Keys<V>(m: seq<Entry<V>>): (ks: seq<string>)
    ensures |ks| == |m|
    ensures forall i :: 0 <= i < |m| ==> ks[i] == m[i].key
    ensures Valid(m) ==> StrictlyAscending(ks)
  {
    seq(|m|, i requires 0 <= i < |m| => m[i].key)
  }

  lemma KeysMembership<V>(m: seq<Entry<V>>, k: string)
    ensures k in Keys(m) <==> k in KeySet(m)
  {
    KeySetIndex(m, k);
  }

  /** The value stored last under `k` in a list of pairs (what collecting into a map keeps). */
  function Lookup<V>(ps: seq<(string, V)>, k: string): Option<V>
    decreases |ps|
  {
    if |ps| == 0 then None
    else if ps[|ps| - 1].0 == k then Some(ps[|ps| - 1].1)
    else Lookup(ps[..|ps| - 1], k)
  }

  /** Inserts pairs in order: collecting an iterator into a `BTreeMap`, or sorting by key. */
  function FromList<V>(ps: seq<(string, V)>): (m: seq<Entry<V>>)
    ensures Valid(m)
    ensures forall k :: Get(m, k) == Lookup(ps, k)
    decreases |ps|
  {
    if |ps| == 0 then []
    else Insert(FromList(ps[..|ps| - 1]), ps[|ps| - 1].0, ps[|ps| - 1].1)
  }

  /**
   * A valid map is determined by its lookups: two sorted lists that agree on every
   * key are the same list. So the order in which entries were inserted never shows.
   */
  lemma {:induction false} Canonical<V>(a: seq<Entry<V>>, b: seq<Entry<V>>)
    requires Valid(a) && Valid(b)
    requires forall k :: Get(a, k) == Get(b, k)
    ensures a == b
    decreases |a|
  {
    if |a| > 0 {
      GetAt(a, 0);
    }
    if |b| > 0 {
      GetAt(b, 0);
    }
    if |a| > 0 && |b| > 0 {
      TailValid(a);
      TailValid(b);
      var ka, kb := a[0].key, b[0].key;
      assert ka == kb by {
        if ka != kb {
          assert Get(b, ka).Some? && Get(a, kb).Some?;
          assert ka in KeySet(b[1..]);
          assert kb in KeySet(a[1..]);
          LessAsymmetric(ka, kb);
        }
      }
      assert a[0].value == b[0].value by {
        GetAt(a, 0);
        GetAt(b, 0);
      }
      AboveNotIn(ka, a[1..]);
      AboveNotIn(kb, b[1..]);
      forall k
        ensures Get(a[1..], k) == Get(b[1..], k)
      {
        if k != ka {
          assert Get(a, k) == Get(a[1..], k);
          assert Get(b, k) == Get(b[1..], k);
        }
      }
      Canonical(a[1..], b[1..]);
      assert a == [a[0]] + a[1..] && b == [b[0]] + b[1..];
    }
  }

  /** Applies `f` to every value, keeping the keys and their order. */
  function MapValues<V, W>(m: seq<Entry<V>>, f: V -> W): (r: seq<Entry<W>>)
    ensures |r| == |m|
    ensures forall i :: 0 <= i < |m| ==> r[i] == Entry(m[i].key, f(m[i].value))
    ensures Valid(m) ==> Valid(r)
  {
    seq(|m|, i requires 0 <= i < |m| => Entry(m[i].key, f(m[i].value)))
  }

  lemma {:induction false} MapValuesGet<V, W>(m: seq<Entry<V>>, f: V -> W, k: string)
    ensures Get(MapValues(m, f), k) == if Get(m, k).Some? then Some(f(Get(m, k).value)) else None
    decreases |m|
  {
    if |m| > 0 {
      MapValuesGet(m[1..], f, k);
      assert MapValues(m, f)[1..] == MapValues(m[1..], f);
    }
  }

  /** A found value sits at some position of the list under its key. */
  lemma {:induction false} GetSome<V>(m: seq<Entry<V>>, k: string)
    requires Get(m, k).Some?
    ensures exists i :: 0 <= i < |m| && m[i].key == k && m[i].value == Get(m, k).value
    decreases |m|
  {
    if m[0].key != k {
      GetSome(m[1..], k);
      var i :| 0 <= i < |m[1..]| && m[1..][i].key == k && m[1..][i].value == Get(m[1..], k).value;
      assert m[i + 1] == m[1..][i];
    }
  }

  /** In a valid map, membership of an entry and lookup of its key say the same. */
  lemma InIffGet<V>(m: seq<Entry<V>>, e: Entry<V>)
    requires Valid(m)
    ensures e in m <==> Get(m, e.key) == Some(e.value)
  {
    if e in m {
      var i :| 0 <= i < |m| && m[i] == e;
      GetAt(m, i);
    }
    if Get(m, e.key) == Some(e.value) {
      GetSome(m, e.key);
    }
  }
}
