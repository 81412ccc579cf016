/** Long values on chains of overflow pages: writing, reading back, and freeing a chain. */
module Overflow {
  import opened Keys
  import opened Layout
  import opened Pages
  import opened Protocol
  import opened Transactions
  import opened Placed
  import Seqs

  ghost predicate Distinct(ids: seq<PageId>) {
    forall i, j :: 0 <= i < j < |ids| ==> ids[i] != ids[j]
  }

  /** Linking one more page behind the last of a chain of full pages appends its chunk to the value. */
  lemma {:induction false} ChainExtend(c0: Store, c1: Store, chain: seq<PageId>, v: Bytes, p: PageId, chunk: Bytes)
    requires ChainStored(c0, chain, v) && |v| == |chain| * CHUNK
    requires Distinct(chain + [p]) && p != 0 && 0 < |chunk| <= CHUNK
    requires p in c1 && c1[p] == OverflowPage(0, chunk)
    requires forall i :: 0 <= i < |chain| ==> chain[i] in c0 && chain[i] in c1
    requires forall i :: 0 <= i < |chain| - 1 ==> c1[chain[i]] == c0[chain[i]]
    requires chain != [] ==>
               var last := chain[|chain| - 1];
               c0[last].OverflowPage? && c1[last] == OverflowPage(p, c0[last].chunk)
    ensures ChainStored(c1, chain + [p], v + chunk)
    decreases |chain|
  {
    if chain == [] {
      assert (chain + [p])[1..] == [];
      assert v + chunk == chunk && chunk[..|chunk|] == chunk && chunk[|chunk|..] == [];
    } else {
      FullPages(c0, chain, v);
      DistinctTail(chain, p);
      ChainExtend(c0, c1, chain[1..], v[CHUNK..], p, chunk);
      assert (chain + [p])[1..] == chain[1..] + [p];
      assert (v + chunk)[..CHUNK] == v[..CHUNK];
      assert (v + chunk)[CHUNK..] == v[CHUNK..] + chunk;
      assert Head(chain[1..] + [p]) == if |chain| == 1 then p else chain[1];
    }
  }

  lemma DistinctTail(chain: seq<PageId>, p: PageId)
    requires Distinct(chain + [p]) && chain != []
    ensures Distinct(chain[1..] + [p]) && chain[0] != p && forall i :: 0 < i < |chain| ==> chain[i] != chain[0]
  {
    var all := chain + [p];
    assert chain[1..] + [p] == all[1..];
    assert all[|chain|] == p && all[0] == chain[0];
    assert forall i :: 0 < i < |chain| ==> all[i] == chain[i];
  }

  lemma FullPages(c0: Store, chain: seq<PageId>, v: Bytes)
    requires ChainStored(c0, chain, v) && |v| == |chain| * CHUNK && chain != []
    ensures |v| >= CHUNK && ChainStored(c0, chain[1..], v[CHUNK..]) && |v[CHUNK..]| == |chain[1..]| * CHUNK
    ensures c0[chain[0]] == OverflowPage(Head(chain[1..]), v[..CHUNK])
  {
    assert |chain| * CHUNK == CHUNK + (|chain| - 1) * CHUNK;
  }

  lemma {:induction false} ChainPages(store: Store, chain: seq<PageId>, value: Bytes)
    requires ChainStored(store, chain, value)
    ensures forall i :: 0 <= i < |chain| ==> chain[i] in store && store[chain[i]].OverflowPage? && chain[i] != 0
    decreases |chain|
  {
    if chain != [] {
      var n := if |value| <= CHUNK then |value| else CHUNK;
      ChainPages(store, chain[1..], value[n..]);
      forall i | 0 <= i < |chain| ensures chain[i] in store && store[chain[i]].OverflowPage? && chain[i] != 0 {
        if i > 0 { assert chain[i] == chain[1..][i - 1]; }
      }
    }
  }

  /** One more page at the end of a chain whose pages are all full. */
  method LinkPage(db: DB, prev: PageId, havePrev: bool, chunk: Bytes, ghost chain: seq<PageId>, ghost v: Bytes,
                  ghost rest: multiset<PageId>)
    returns (id: PageId)
    requires db.Open() && db.Live() == rest + multiset(chain) && Distinct(chain)
    requires ChainStored(db.cache, chain, v) && |v| == |chain| * CHUNK && 0 < |chunk| <= CHUNK
    requires havePrev <==> chain != []
    requires havePrev ==> prev == chain[|chain| - 1] && prev in db.books.mine
    modifies db
    ensures db.meta.numPages <= old(db.meta.numPages) + 1
    ensures db.Past() == old(db.Past()) && db.Still() <= old(db.Still())
    ensures db.Open() && db.Live() == rest + multiset(chain + [id]) && Distinct(chain + [id])
    ensures ChainStored(db.cache, chain + [id], v + chunk)
    ensures Kept(old(db.cache), db.cache, rest)
    ensures db.books.mine == old(db.books.mine) + {id}
  {
    hide Inv, DB.View, DB.Past, DB.Still, DB.Live, ChainStored, AllocatedFrom, WriteStep, Kept, Distinct;
    ghost var c0 := db.cache;
    LiveCached(db);
    assert havePrev ==> prev in c0 && c0[prev].OverflowPage? by { ChainPages(c0, chain, v); }
    id := db.AllocatePage();
    ghost var c1 := db.cache;
    assert havePrev ==> prev in c1 && c1[prev] == c0[prev] by { KeptLast(c0, c1, rest, chain); }
    db.Write(id, OverflowPage(0, chunk));
    if havePrev {
      assert prev != id by { assert prev in multiset(chain); }
      db.Write(prev, OverflowPage(id, db.cache[prev].chunk));
    }
    LinkedStore(c0, c1, db.cache, chain, v, id, chunk, rest);
  }

  lemma KeptLast(c0: Store, c1: Store, rest: multiset<PageId>, chain: seq<PageId>)
    requires Kept(c0, c1, rest + multiset(chain))
    ensures forall i :: 0 <= i < |chain| ==> chain[i] in c0 && chain[i] in c1 && c1[chain[i]] == c0[chain[i]]
  {
    forall i | 0 <= i < |chain| ensures chain[i] in rest + multiset(chain) { assert chain[i] in multiset(chain); }
  }

  /** The store after a page has been linked in. */
  lemma LinkedStore(c0: Store, c1: Store, c2: Store, chain: seq<PageId>, v: Bytes, id: PageId, chunk: Bytes,
                    rest: multiset<PageId>)
    requires ChainStored(c0, chain, v) && |v| == |chain| * CHUNK && 0 < |chunk| <= CHUNK && Distinct(chain) && id >= 2
    requires Kept(c0, c1, rest + multiset(chain)) && (rest + multiset(chain))[id] == 0
    requires forall p :: (rest + multiset(chain))[p] <= 1
    requires chain == [] ==> c2 == c1[id := OverflowPage(0, chunk)]
    requires chain != [] ==>
               var last := chain[|chain| - 1];
               last in c1 && c1[last].OverflowPage? && c2 == c1[id := OverflowPage(0, chunk)][last :=
                   OverflowPage(id, c1[last].chunk)]
    ensures ChainStored(c2, chain + [id], v + chunk) && Kept(c0, c2, rest)
    ensures Distinct(chain + [id]) && multiset(chain + [id]) == multiset(chain) + multiset{id}
  {
    hide ChainStored;
    KeptLast(c0, c1, rest, chain);
    forall i | 0 <= i < |chain| ensures chain[i] != id && rest[chain[i]] == 0 {
      var x := chain[i];
      assert multiset(chain)[x] > 0;
      assert (rest + multiset(chain))[x] == rest[x] + multiset(chain)[x];
    }
    ChainExtend(c0, c2, chain, v, id, chunk);
  }

  /** Write a value into fresh pages, 4087 bytes each, linked front to back. */
  method WriteOverflowPages(db: DB, value: Bytes) returns (first: PageId, ghost chain: seq<PageId>)
    requires db.Open()
    modifies db
    ensures db.meta.numPages <= old(db.meta.numPages) + ValuePages(value)
    ensures db.Past() == old(db.Past()) && db.Still() <= old(db.Still())
    ensures db.Open()
    ensures ChainStored(db.cache, chain, value) && first == Head(chain)
    ensures db.Live() == old(db.Live()) + multiset(chain)
    ensures Kept(old(db.cache), db.cache, old(db.Live()))
    ensures old(db.books.mine) <= db.books.mine
  {
    hide Inv, DB.View, DB.Past, DB.Still, DB.Live, ChainStored, Kept, Distinct;
    first, chain := 0, [];
    var prev: PageId, off, havePrev := 0, 0, false;
    KeptAll(db);
    EmptyChain(db.cache);
    while off < |value|
      invariant 0 <= off <= |value| && db.Open() && db.Past() == old(db.Past()) && db.Still() <= old(db.Still())
      invariant off == |value| || off == |chain| * CHUNK
      invariant db.meta.numPages <= old(db.meta.numPages) + |chain|
      invariant ChainStored(db.cache, chain, value[..off]) && first == Head(chain)
      invariant havePrev <==> chain != []
      invariant havePrev ==> prev == chain[|chain| - 1] && prev in db.books.mine
      invariant Distinct(chain) && db.Live() == old(db.Live()) + multiset(chain)
      invariant Kept(old(db.cache), db.cache, old(db.Live()))
      invariant old(db.books.mine) <= db.books.mine
      decreases |value| - off
    {
      var end := if off + CHUNK < |value| then off + CHUNK else |value|;
      ghost var c := db.cache;
      var id := LinkPage(db, prev, havePrev, value[off..end], chain, value[..off], old(db.Live()));
      KeptTrans(old(db.cache), c, db.cache, old(db.Live()), old(db.Live()));
      if !havePrev {
        first := id;
      }
      Seqs.TakeMore(value, off, end);
      chain := chain + [id];
      prev, off, havePrev := id, end, true;
    }
    Seqs.TakeAll(value);
    ChainLength(db.cache, chain, value);
  }

  lemma EmptyChain(store: Store)
    ensures ChainStored(store, [], []) && Distinct([])
  {
  }

  /** The overflow chain of a cell: none for a value that fits inline. */
  method LeafCellOverflow(db: DB, key: Key, value: Bytes) returns (first: PageId, ghost chain: seq<PageId>)
    requires db.Open() && |key| <= MAX_KEY
    modifies db
    ensures db.meta.numPages <= old(db.meta.numPages) + ValuePages(value)
    ensures db.Past() == old(db.Past()) && db.Still() <= old(db.Still())
    ensures db.Open()
    ensures RowStored(db.cache, Row(key, value, chain)) && first == Head(chain)
    ensures first == 0 <==> Inline(key, value)
    ensures db.Live() == old(db.Live()) + multiset(chain)
    ensures Kept(old(db.cache), db.cache, old(db.Live()))
    ensures old(db.books.mine) <= db.books.mine
  {
    hide Inv, DB.View, DB.Past, DB.Still;
    LiveCached(db);
    if LEAF_CELL_HEADER + |key| + |value| <= MAX_INLINE {
      first, chain := 0, [];
    } else {
      first, chain := WriteOverflowPages(db, value);
    }
  }

  /** Reading vallen bytes of a chain gives the first vallen bytes that were written. */
  method ReadOverflowPages(store: Store, first: PageId, vallen: nat, ghost chain: seq<PageId>, ghost value: Bytes)
    returns (r: Bytes)
    requires ChainStored(store, chain, value) && first == Head(chain) && vallen <= |value|
    ensures r == value[..vallen]
  {
    r := [];
    var id := first;
    ghost var rest, pos := chain, 0;
    assert value[0..] == value;
    while id != 0
      invariant pos <= |value| && |r| == (if pos < vallen then pos else vallen) && r == value[..|r|]
      invariant ChainStored(store, rest, value[pos..]) && id == Head(rest)
      decreases |rest|
    {
      var remaining := vallen - |r|;
      var chunk := if CHUNK < remaining then CHUNK else remaining;
      var page := store[id];
      ghost var tail := value[pos..];
      ghost var n := |page.chunk|;
      assert page.chunk == tail[..n] && n == if |tail| <= CHUNK then |tail| else CHUNK;
      assert tail[n..] == value[pos + n..];
      ChunkOf(value, pos, n, chunk, |r|);
      r := r + page.chunk[..chunk];
      rest := rest[1..];
      pos := pos + n;
      id := page.next;
    }
  }

  lemma ChunkOf(v: Bytes, pos: nat, n: nat, chunk: nat, have: nat)
    requires pos + n <= |v| && chunk <= n && have <= pos && (chunk > 0 ==> have == pos)
    ensures v[..have] + v[pos..][..n][..chunk] == v[..have + chunk]
  {
    if chunk > 0 {
      assert v[pos..][..n][..chunk] == v[pos..pos + chunk];
      Seqs.TakeMore(v, pos, pos + chunk);
    }
  }

  lemma HeadLive(db: DB, rest: multiset<PageId>, left: seq<PageId>)
    requires db.Open() && left != [] && db.Live() == rest + multiset(left)
    ensures left[0] in db.books.live && rest[left[0]] == 0
    ensures db.Live() == rest + multiset(left[1..]) + multiset{left[0]}
  {
    hide Inv, DB.View, DB.Past, DB.Still;
    assert left == [left[0]] + left[1..];
    assert multiset(left) == multiset{left[0]} + multiset(left[1..]);
    assert db.Live()[left[0]] == rest[left[0]] + multiset(left)[left[0]];
  }

  /** Freeing a chain releases exactly its pages. */
  method FreeOverflowPages(db: DB, first: PageId, ghost chain: seq<PageId>, ghost value: Bytes,
                           ghost rest: multiset<PageId>)
    requires db.Open() && ChainStored(db.cache, chain, value) && first == Head(chain)
    requires db.Live() == rest + multiset(chain)
    modifies db`allocs, db`reusable, db`freed, db`books
    ensures db.Past() == old(db.Past()) && db.Still() <= old(db.Still())
    ensures db.Open() && db.Live() == rest
    ensures db.books.mine <= old(db.books.mine) && forall p :: p in old(db.books.mine) && p in rest ==>
              p in db.books.mine
  {
    hide Inv, DB.View, DB.Past, DB.Still, DB.Live, FreeStep;
    var id := first;
    ghost var left, v := chain, value;
    while id != 0
      invariant db.Open() && ChainStored(db.cache, left, v) && id == Head(left) && db.Past() == old(db.Past())
                && db.Still() <= old(db.Still())
      invariant db.Live() == rest + multiset(left)
      invariant db.books.mine <= old(db.books.mine)
      invariant forall p :: p in old(db.books.mine) && p in rest ==> p in db.books.mine
      decreases |left|
    {
      var next := db.cache[id].next;
      HeadLive(db, rest, left);
      db.FreePage(id);
      Cancel(db.Live(), rest + multiset(left[1..]), multiset{id});
      v := v[(if |v| <= CHUNK then |v| else CHUNK)..];
      left := left[1..];
      id := next;
    }
    assert left == [];
  }
}
