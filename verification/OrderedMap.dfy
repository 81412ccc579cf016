/** The reference the tree is measured against: a finite map kept as a sorted list of entries. */
module OrderedMap {
  import opened Keys

  datatype Entry = Entry(key: Key, value: Bytes)

  ghost predicate Sorted(es: seq<Entry>) {
    forall i, j :: 0 <= i < j < |es| ==> Rank(es[i].key) < Rank(es[j].key)
  }

  ghost predicate AllBelow(es: seq<Entry>, r: real) {
    forall i :: 0 <= i < |es| ==> Rank(es[i].key) < r
  }

  ghost predicate AllFrom(es: seq<Entry>, r: real) {
    forall i :: 0 <= i < |es| ==> r <= Rank(es[i].key)
  }

  ghost predicate AllAbove(es: seq<Entry>, r: real) {
    forall i :: 0 <= i < |es| ==> r < Rank(es[i].key)
  }

  /** Insertion into a sorted list, replacing an entry with the same key. */
  ghost function Put(es: seq<Entry>, k: Key, v: Bytes): seq<Entry> {
    if es == [] then [Entry(k, v)]
    else if Rank(es[0].key) < Rank(k) then [es[0]] + Put(es[1..], k, v)
    else if es[0].key == k then [Entry(k, v)] + es[1..]
    else [Entry(k, v)] + es
  }

  /** Removal from a list. */
  ghost function Remove(es: seq<Entry>, k: Key): seq<Entry> {
    if es == [] then []
    else if es[0].key == k then es[1..]
    else [es[0]] + Remove(es[1..], k)
  }

  ghost predicate Has(es: seq<Entry>, k: Key) {
    exists i :: 0 <= i < |es| && es[i].key == k
  }

  /** The finite map a list of entries stands for. */
  ghost function ToMap(es: seq<Entry>): map<Key, Bytes> {
    if es == [] then map[] else ToMap(es[1..])[es[0].key := es[0].value]
  }

  // ---- where Put and Remove act ----

  lemma {:induction false} PutAfter(a: seq<Entry>, b: seq<Entry>, k: Key, v: Bytes)
    requires AllBelow(a, Rank(k))
    ensures Put(a + b, k, v) == a + Put(b, k, v)
  {
    if a == [] {
      assert a + b == b;
    } else {
      PutAfter(a[1..], b, k, v);
      assert (a + b)[1..] == a[1..] + b;
      assert a == [a[0]] + a[1..];
    }
  }

  lemma {:induction false} PutBefore(b: seq<Entry>, c: seq<Entry>, k: Key, v: Bytes)
    requires AllAbove(c, Rank(k))
    ensures Put(b + c, k, v) == Put(b, k, v) + c
  {
    if b == [] {
      assert b + c == c;
    } else {
      assert (b + c)[1..] == b[1..] + c;
      PutBefore(b[1..], c, k, v);
    }
  }

  /** Put touches only the stretch of the list whose neighbours enclose the key. */
  lemma PutWithin(a: seq<Entry>, b: seq<Entry>, c: seq<Entry>, k: Key, v: Bytes)
    requires AllBelow(a, Rank(k)) && AllAbove(c, Rank(k))
    ensures Put(a + b + c, k, v) == a + Put(b, k, v) + c
  {
    assert a + b + c == a + (b + c);
    PutAfter(a, b + c, k, v);
    PutBefore(b, c, k, v);
  }

  lemma {:induction false} RemoveAfter(a: seq<Entry>, b: seq<Entry>, k: Key)
    requires !Has(a, k)
    ensures Remove(a + b, k) == a + Remove(b, k)
  {
    if a == [] {
      assert a + b == b;
    } else {
      assert a[0].key != k;
      assert forall i :: 0 <= i < |a[1..]| ==> a[1..][i] == a[i + 1];
      RemoveAfter(a[1..], b, k);
      assert (a + b)[1..] == a[1..] + b;
      assert a == [a[0]] + a[1..];
    }
  }

  lemma {:induction false} RemoveBefore(b: seq<Entry>, c: seq<Entry>, k: Key)
    requires !Has(c, k)
    ensures Remove(b + c, k) == Remove(b, k) + c
  {
    if b == [] {
      assert b + c == c;
      if c != [] {
        RemoveAfter(c, [], k);
        assert c + [] == c;
      }
    } else {
      assert (b + c)[1..] == b[1..] + c;
      RemoveBefore(b[1..], c, k);
    }
  }

  lemma RemoveWithin(a: seq<Entry>, b: seq<Entry>, c: seq<Entry>, k: Key)
    requires AllBelow(a, Rank(k)) && AllAbove(c, Rank(k))
    ensures Remove(a + b + c, k) == a + Remove(b, k) + c
  {
    assert a + b + c == a + (b + c);
    RemoveAfter(a, b + c, k);
    RemoveBefore(b, c, k);
  }

  // ---- Put and Remove are the map operations ----

  lemma {:induction false} ToMapKeys(es: seq<Entry>, k: Key)
    ensures k in ToMap(es) <==> Has(es, k)
  {
    if es != [] {
      ToMapKeys(es[1..], k);
      if Has(es[1..], k) {
        var i :| 0 <= i < |es[1..]| && es[1..][i].key == k;
        assert es[i + 1].key == k;
      }
      if Has(es, k) && es[0].key != k {
        var i :| 0 <= i < |es| && es[i].key == k;
        assert es[1..][i - 1].key == k;
      }
    }
  }

  /** A sorted list maps each of its keys to the value beside it. */
  lemma {:induction false} ToMapAt(es: seq<Entry>, i: nat)
    requires Sorted(es) && i < |es|
    ensures es[i].key in ToMap(es) && ToMap(es)[es[i].key] == es[i].value
  {
    if i > 0 {
      ToMapAt(es[1..], i - 1);
    }
  }

  lemma {:induction false} PutIsUpdate(es: seq<Entry>, k: Key, v: Bytes)
    requires Sorted(es)
    ensures ToMap(Put(es, k, v)) == ToMap(es)[k := v]
  {
    if es != [] {
      var rest := es[1..];
      if Rank(es[0].key) < Rank(k) {
        PutIsUpdate(rest, k, v);
        assert ([es[0]] + Put(rest, k, v))[1..] == Put(rest, k, v);
      } else if es[0].key == k {
        assert ([Entry(k, v)] + rest)[1..] == rest;
      } else {
        assert ([Entry(k, v)] + es)[1..] == es;
      }
    }
  }

  lemma {:induction false} PutSorted(es: seq<Entry>, k: Key, v: Bytes)
    requires Sorted(es)
    ensures Sorted(Put(es, k, v))
  {
    if es != [] {
      RankOrder(es[0].key, k);
      if Rank(es[0].key) < Rank(k) {
        PutSorted(es[1..], k, v);
        PutKeepsAbove(es[1..], k, v, Rank(es[0].key));
      }
    }
  }

  lemma {:induction false} PutKeepsAbove(es: seq<Entry>, k: Key, v: Bytes, r: real)
    requires AllAbove(es, r) && r < Rank(k)
    ensures AllAbove(Put(es, k, v), r)
  {
    if es != [] && Rank(es[0].key) < Rank(k) {
      PutKeepsAbove(es[1..], k, v, r);
    }
  }

  lemma {:induction false} RemoveIsRemoval(es: seq<Entry>, k: Key)
    requires Sorted(es)
    ensures ToMap(Remove(es, k)) == ToMap(es) - {k}
    ensures Sorted(Remove(es, k)) && !Has(Remove(es, k), k)
  {
    if es != [] {
      var rest := es[1..];
      if es[0].key == k {
        forall i | 0 <= i < |rest| ensures rest[i].key != k {
          assert Rank(es[0].key) < Rank(es[i + 1].key);
        }
        ToMapKeys(rest, k);
      } else {
        RemoveIsRemoval(rest, k);
        RemoveKeepsAbove(rest, k, Rank(es[0].key));
        assert ([es[0]] + Remove(rest, k))[1..] == Remove(rest, k);
        forall i | 0 < i < 1 + |Remove(rest, k)| ensures ([es[0]] + Remove(rest, k))[i].key != k {
          assert Remove(rest, k)[i - 1].key != k;
        }
      }
    }
  }

  lemma {:induction false} RemoveKeepsAbove(es: seq<Entry>, k: Key, r: real)
    requires AllAbove(es, r)
    ensures AllAbove(Remove(es, k), r)
  {
    if es != [] && es[0].key != k {
      RemoveKeepsAbove(es[1..], k, r);
    }
  }
}
