/** The bulk loader's test that keys come in order. */
module KeyOrder {
  import opened Keys
  import opened OrderedMap

  /** The order test: a loader without a last key takes any key. An empty last key counts as none. */
  predicate InOrder(lastKey: Key, key: Key) { lastKey == [] || Compare(key, lastKey) > 0 }

  /** The test accepts exactly the keys above the last one, unless both are empty: then it lets a
      duplicate through. */
  lemma OrderTest(lastKey: Key, key: Key)
    ensures (InOrder(lastKey, key) <==> Rank(lastKey) < Rank(key)) <==> !(lastKey == [] && key == [])
  {
    RankOrder(key, lastKey);
    RankOrder(lastKey, key);
    if lastKey == [] && key != [] { EmptyFirst(key); }
  }

  lemma EmptyFirst(key: Key)
    requires key != []
    ensures Rank([]) < Rank(key)
  {
    RankOrder([], key);
  }

  /** No key after the first is empty. */
  predicate KeysAfterFirst(es: seq<Entry>) { forall i :: 0 < i < |es| ==> es[i].key != [] }

  lemma SortedPrefix(es: seq<Entry>, i: nat)
    requires 0 < i < |es| && Sorted(es[..i])
    ensures Sorted(es[..i + 1]) <==> Rank(es[i - 1].key) < Rank(es[i].key)
  {
    hide Rank;
    var a, b := es[..i], es[..i + 1];
    assert forall j :: 0 <= j < i ==> b[j] == a[j];
    assert b[i] == es[i] && b[i - 1] == es[i - 1] && a[i - 1] == es[i - 1];
  }

  lemma SortedSome(es: seq<Entry>, i: nat)
    requires i <= |es| && Sorted(es)
    ensures Sorted(es[..i])
  {
    hide Rank;
  }

  lemma AnyFirst(es: seq<Entry>, lastKey: Key, key: Key)
    ensures |es| > 0 ==> Sorted(es[..1])
    ensures lastKey == [] ==> InOrder(lastKey, key)
  {
  }

  /** The order test on the next entry: passed exactly if the list is sorted up to there. */
  lemma NextTest(es: seq<Entry>, i: nat, lastKey: Key)
    requires i < |es| && Sorted(es[..i]) && KeysAfterFirst(es) && lastKey == if i == 0 then [] else es[i - 1].key
    ensures InOrder(lastKey, es[i].key) <==> Sorted(es[..i + 1])
    ensures !Sorted(es[..i + 1]) ==> !Sorted(es)
  {
    hide Rank, InOrder, Sorted;
    if i > 0 {
      OrderTest(lastKey, es[i].key);
      SortedPrefix(es, i);
    } else {
      AnyFirst(es, lastKey, es[i].key);
    }
    if Sorted(es) { SortedSome(es, i + 1); }
  }

  /** Every key passes the test after the one before it. */
  predicate Accepted(es: seq<Entry>) { forall i :: 0 < i < |es| ==> InOrder(es[i - 1].key, es[i].key) }

  /** With no empty key after the first, the accepted lists are exactly the strictly increasing ones. */
  lemma {:induction false} AcceptedSorted(es: seq<Entry>)
    requires KeysAfterFirst(es)
    ensures Accepted(es) <==> Sorted(es)
    decreases |es|
  {
    hide InOrder, Rank, Sorted;
    if es == [] {
      NoneOutOfOrder();
    } else {
      var n := |es| - 1;
      var init := es[..n];
      AcceptedSorted(init);
      assert es[..n + 1] == es;
      if Sorted(es) { SortedSome(es, n); }
      if Sorted(init) { NextTest(es, n, if n == 0 then [] else es[n - 1].key); }
      AcceptedInit(es);
      if n == 0 { AnyFirst(es, [], es[0].key); }
    }
  }

  lemma AcceptedInit(es: seq<Entry>)
    requires es != []
    ensures var n := |es| - 1;
      Accepted(es) <==> Accepted(es[..n]) && (n > 0 ==> InOrder(es[n - 1].key, es[n].key))
  {
    hide InOrder;
    var n := |es| - 1;
    assert forall i :: 0 <= i < n ==> es[..n][i] == es[i];
    if Accepted(es[..n]) {
      forall i | 0 < i < n ensures InOrder(es[i - 1].key,
                                           es[i].key) { assert InOrder(es[..n][i - 1].key, es[..n][i].key); }
    }
  }

  lemma NoneOutOfOrder()
    ensures Sorted([])
  {
  }
}
