/** Values as they read back. The length field of a leaf cell has 16 bits, so of a longer value all bytes are
    stored and only some are read. */
module Values {
  import opened Keys
  import opened OrderedMap

  function AsRead(value: Bytes): Bytes { value[..|value| % 0x1_0000] }

  /** A value reads back as written if and only if its length fits the field. */
  lemma ReadsBack(value: Bytes)
    ensures AsRead(value) == value <==> |value| <= 65535
    ensures AsRead(AsRead(value)) == AsRead(value)
    ensures |AsRead(value)| == |value| % 65536 && AsRead(value) <= value
  {
    if |value| <= 65535 { Short(value); }
    Short(AsRead(value));
  }

  lemma Short(value: Bytes)
    requires |value| <= 65535
    ensures AsRead(value) == value
  {
    assert |value| % 0x1_0000 == |value|;
  }

  /** A list of entries as it reads back. */
  ghost function AllRead(es: seq<Entry>): (rs: seq<Entry>)
    ensures |rs| == |es| && forall i :: 0 <= i < |es| ==> rs[i] == Entry(es[i].key, AsRead(es[i].value))
  {
    seq(|es|, i requires 0 <= i < |es| => Entry(es[i].key, AsRead(es[i].value)))
  }

  /** Looking the key up gives this value. */
  ghost predicate Reads(es: seq<Entry>, k: Key, v: Bytes) {
    exists i :: 0 <= i < |es| && es[i].key == k && AsRead(es[i].value) == v
  }

  /** What a write leaves: a value that already reads as the new one stays as it is. */
  ghost function WriteTo(es: seq<Entry>, k: Key, v: Bytes): seq<Entry> {
    if Reads(es, k, v) then es else Put(es, k, v)
  }

  lemma AllReadSorted(es: seq<Entry>)
    requires Sorted(es)
    ensures Sorted(AllRead(es))
  {
    hide Rank;
  }

  lemma AllReadHas(es: seq<Entry>, k: Key)
    ensures Has(AllRead(es), k) <==> Has(es, k)
  {
    if Has(es, k) {
      var i :| 0 <= i < |es| && es[i].key == k;
      assert AllRead(es)[i].key == k;
    }
  }

  lemma AllReadTail(es: seq<Entry>)
    requires es != []
    ensures AllRead(es) == [Entry(es[0].key, AsRead(es[0].value))] + AllRead(es[1..])
            && AllRead(es)[1..] == AllRead(es[1..])
  {
    hide AsRead;
  }

  lemma AllReadCons(e: Entry, es: seq<Entry>)
    ensures AllRead([e] + es) == [Entry(e.key, AsRead(e.value))] + AllRead(es)
  {
    hide AsRead;
  }

  lemma {:induction false} PutReads(es: seq<Entry>, k: Key, v: Bytes)
    ensures AllRead(Put(es, k, v)) == Put(AllRead(es), k, AsRead(v))
  {
    hide AsRead, Rank;
    if es == [] {
      assert [Entry(k, v)] + [] == [Entry(k, v)];
      AllReadCons(Entry(k, v), []);
    } else {
      AllReadTail(es);
      PutReads(es[1..], k, v);
      AllReadCons(es[0], Put(es[1..], k, v));
      AllReadCons(Entry(k, v), es[1..]);
      AllReadCons(Entry(k, v), es);
    }
  }

  lemma {:induction false} RemoveReads(es: seq<Entry>, k: Key)
    ensures AllRead(Remove(es, k)) == Remove(AllRead(es), k)
  {
    hide AsRead;
    if es != [] {
      AllReadTail(es);
      RemoveReads(es[1..], k);
      AllReadCons(es[0], Remove(es[1..], k));
    }
  }

  lemma {:induction false} PutSame(es: seq<Entry>, k: Key, v: Bytes, i: nat)
    requires Sorted(es) && i < |es| && es[i] == Entry(k, v)
    ensures Put(es, k, v) == es
  {
    if i == 0 {
      assert [Entry(k, v)] + es[1..] == es;
    } else {
      assert Rank(es[0].key) < Rank(es[i].key);
      hide Rank;
      PutSame(es[1..], k, v, i - 1);
      assert [es[0]] + es[1..] == es;
    }
  }

  /** As far as reading goes, every write puts the value in, cut to what its length field can say. */
  lemma WriteReads(es: seq<Entry>, k: Key, v: Bytes)
    requires Sorted(es)
    ensures AllRead(WriteTo(es, k, v)) == Put(AllRead(es), k, AsRead(v))
  {
    hide AsRead, Rank, Put;
    if Reads(es, k, v) {
      var i :| 0 <= i < |es| && es[i].key == k && AsRead(es[i].value) == v;
      ReadsBack(es[i].value);
      AllReadSorted(es);
      hide Sorted;
      PutSame(AllRead(es), k, v, i);
    } else {
      PutReads(es, k, v);
    }
  }

  /** With values that fit the field, a write is Put. */
  lemma WriteShort(es: seq<Entry>, k: Key, v: Bytes)
    requires Sorted(es) && |v| <= 65535 && forall i :: 0 <= i < |es| ==> |es[i].value| <= 65535
    ensures WriteTo(es, k, v) == Put(es, k, v)
  {
    hide AsRead, Rank, Put;
    if Reads(es, k, v) {
      var i :| 0 <= i < |es| && es[i].key == k && AsRead(es[i].value) == v;
      Short(es[i].value);
      hide Sorted;
      PutSame(es, k, v, i);
    }
  }

  /** A write is update of the finite map that reads back. */
  lemma WriteIsUpdate(es: seq<Entry>, k: Key, v: Bytes)
    requires Sorted(es)
    ensures ToMap(AllRead(WriteTo(es, k, v))) == ToMap(AllRead(es))[k := AsRead(v)]
  {
    WriteReads(es, k, v);
    AllReadSorted(es);
    hide AsRead, Rank, Put, Sorted, ToMap, WriteTo;
    PutIsUpdate(AllRead(es), k, AsRead(v));
  }

  /** And a delete is removal from it. */
  lemma RemoveFromMap(es: seq<Entry>, k: Key)
    requires Sorted(es)
    ensures ToMap(AllRead(Remove(es, k))) == ToMap(AllRead(es)) - {k}
  {
    RemoveReads(es, k);
    AllReadSorted(es);
    hide AsRead, Rank, Remove, Sorted, ToMap;
    RemoveIsRemoval(AllRead(es), k);
  }

  /** Whether the key reads as the value is decided where the key belongs. */
  lemma ReadsWithin(a: seq<Entry>, b: seq<Entry>, c: seq<Entry>, k: Key, v: Bytes)
    requires AllBelow(a, Rank(k)) && AllAbove(c, Rank(k))
    ensures Reads(a + b + c, k, v) <==> Reads(b, k, v)
  {
    hide AsRead;
    var all := a + b + c;
    if Reads(all, k, v) {
      var i :| 0 <= i < |all| && all[i].key == k && AsRead(all[i].value) == v;
      assert |a| <= i < |a| + |b|;
      assert b[i - |a|].key == k;
    }
    if Reads(b, k, v) {
      var i :| 0 <= i < |b| && b[i].key == k && AsRead(b[i].value) == v;
      assert all[|a| + i].key == k;
    }
  }
}
