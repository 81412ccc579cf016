/** Update in internal pages: following the key down, and rewriting each page on the way back up. */
module NodeUpdate {
  import opened Keys
  import opened OrderedMap
  import opened Layout
  import opened Trees
  import Upd = TreeUpdate
  import opened Pages
  import opened Protocol
  import opened Transactions
  import opened Placed
  import opened PageSearch
  import opened LeafUpdate
  import Seqs

  // ---- the split of an internal page ----

  /** The loop of internalSplitIndex. */
  method InternalSplitIndex(keys: seq<Key>, childIdx: nat, pushUpKey: Key, target: nat, ghost cs: seq<nat>)
    returns (splitIdx: nat)
    requires childIdx <= |keys| && cs == SepCosts(keys[..childIdx] + ([pushUpKey] + keys[childIdx..]))
    requires target == Sum(cs) / 2 && Sum(cs) < 0x1_0000
    ensures splitIdx == InternalSplit(cs)
  {
    hide Sum, FirstOver;
    var nCells := |keys|;
    var totalCells := nCells + 1;
    var newCellSize := InternalCellSize(pushUpKey);
    var running: uint16 := 0;
    splitIdx := 1;
    var i := 0;
    FirstOverStart(cs, target);
    while i < totalCells
      invariant 0 <= i <= totalCells && splitIdx == 1
      invariant running == Sum(cs[..i]) && running <= target
      invariant FirstOver(cs, target, 0) == i + FirstOver(cs[i..], target, running)
    {
      var size: nat;
      if i < childIdx {
        size := InternalCellSize(keys[i]);
      } else if i == childIdx {
        size := newCellSize;
      } else if i == childIdx + 1 && childIdx < nCells {
        size := InternalCellSize(keys[childIdx]);
      } else {
        size := InternalCellSize(keys[i - 1]);
      }
      assert cs[i] == size + 2;
      SumStep(cs, i);
      SumSplit(cs, i + 1);
      FirstOverStep(cs, target, running, i);
      running := running + size + 2;
      if running > target {
        splitIdx := i;
        break;
      }
      i := i + 1;
    }
    if i == totalCells { FirstOverEnd(cs, target, running); }
    if splitIdx >= totalCells {
      splitIdx := totalCells - 1;
    }
  }

  /** A page's separators and children once child c has become two. */
  function KeysAfter(keys: seq<Key>, c: nat, push: Key): seq<Key>
    requires c <= |keys|
  {
    keys[..c] + ([push] + keys[c..])
  }

  function KidsAfter(kids: seq<PageId>, c: nat, n: PageId, x: PageId): seq<PageId>
    requires c < |kids|
  {
    kids[..c] + ([n, x] + kids[c + 1..])
  }

  /** Pieces of a separator list with push inserted at c. */
  lemma KeyPieces(keys: seq<Key>, c: nat, push: Key, s: nat)
    requires c <= |keys| && s <= |keys|
    ensures var ks := KeysAfter(keys, c, push);
      && (s < c ==> ks[..s] == keys[..s] && ks[s] == keys[s] && ks[s + 1..] == keys[s + 1..c] + [push] + keys[c..])
      && (s == c ==> ks[..s] == keys[..c] && ks[s] == push && ks[s + 1..] == keys[c..])
      && (s > c ==> ks[..s] == keys[..c] + [push] + keys[c..s - 1] && ks[s] == keys[s - 1] && ks[s + 1..] == keys[s..])
  {
  }

  /** Pieces of a child list with child c replaced by n and x. */
  lemma KidPieces(kids: seq<PageId>, c: nat, n: PageId, x: PageId, s: nat)
    requires c < |kids| && s < |kids|
    ensures var ts := KidsAfter(kids, c, n, x);
      && (s < c ==> ts[..s + 1] == kids[..s] + [kids[s]] && ts[s + 1..] == kids[s + 1..c] + [n] + [x] + kids[c + 1..])
      && (s == c ==> ts[..s + 1] == kids[..c] + [n] && ts[s + 1..] == [x] + kids[c + 1..])
      && (s == c + 1 ==> ts[..s + 1] == kids[..c] + [n] + [x] && ts[s + 1..] == kids[c + 1..])
      && (s > c + 1 ==>
          ts[..s + 1] == kids[..c] + [n] + [x] + kids[c + 1..s - 1] + [kids[s - 1]] && ts[s + 1..] == kids[s..])
  {
    var ts := KidsAfter(kids, c, n, x);
    if s < c {
      assert ts[..s + 1] == kids[..s + 1];
      Seqs.TakeNext(kids, s);
    } else if s == c + 1 {
      assert ts[..s + 1] == kids[..c] + [n, x];
      assert kids[..c] + [n] + [x] == kids[..c] + [n, x];
    } else if s > c + 1 {
      assert ts[..s + 1] == kids[..c] + [n, x] + kids[c + 1..s];
      Rejoin(kids, c + 1, s - 1);
    }
  }

  lemma Rejoin<T>(a: seq<T>, i: nat, j: nat)
    requires i <= j < |a|
    ensures a[i..j] + [a[j]] == a[i..j + 1]
  {
  }

  /** The five placements of a split internal page. Whichever case applies, the two pages and the
      promoted separator are the page with the child split applied, cut at separator s. */
  method PlaceSplit(keys: seq<Key>, kids: seq<PageId>, c: nat, newChild: PageId, pushUpKey: Key, extraChild: PageId,
                    s: nat)
    returns (k1: seq<Key>, t1: seq<PageId>, sep: Key, k2: seq<Key>, t2: seq<PageId>)
    requires |kids| == |keys| + 1 && c <= |keys| && s <= |keys|
    ensures var ks, ts := KeysAfter(keys, c, pushUpKey), KidsAfter(kids, c, newChild, extraChild);
      k1 == ks[..s] && t1 == ts[..s + 1] && sep == ks[s] && k2 == ks[s + 1..] && t2 == ts[s + 1..]
  {
    hide KeysAfter, KidsAfter;
    var nCells := |keys|;
    KeyPieces(keys, c, pushUpKey, s);
    KidPieces(kids, c, newChild, extraChild, s);
    KidsAfterLength(kids, c, newChild, extraChild);
    KeysAfterLength(keys, c, pushUpKey);
    if s == c + 1 {
      // the new separator stays in the left page, the next old one is promoted
      k1, t1 := keys[..c] + [pushUpKey], kids[..c] + [newChild] + [extraChild];
      sep := keys[c];
      k2, t2 := keys[c + 1..], kids[c + 1..nCells] + [kids[nCells]];
      Rejoin(kids, c + 1, nCells);
      Seqs.Empty(keys[..c] + [pushUpKey]);
    } else if c < s {
      // the split pair lands in the left page, an old separator behind it is promoted
      k1 := keys[..c] + [pushUpKey] + ([keys[c]] + keys[c + 1..s - 1]);
      t1 := kids[..c] + [newChild] + [extraChild] + kids[c + 1..s - 1] + [kids[s - 1]];
      sep := keys[s - 1];
      k2, t2 := keys[s..], kids[s..nCells] + [kids[nCells]];
      Rejoin(kids, s, nCells);
      assert [keys[c]] + keys[c + 1..s - 1] == keys[c..s - 1];
    } else if c == s {
      // the new separator itself is promoted
      k1, t1 := keys[..c], kids[..c] + [newChild];
      sep := pushUpKey;
      if c < nCells {
        k2, t2 := [keys[c]] + keys[c + 1..], [extraChild] + (kids[c + 1..nCells] + [kids[nCells]]);
        Rejoin(kids, c + 1, nCells);
        Seqs.DropFirst(keys, c);
      } else {
        k2, t2 := [], [extraChild];
      }
    } else {
      // an old separator before the split pair is promoted
      k1, t1 := keys[..s], kids[..s] + [kids[s]];
      sep := keys[s];
      if c < nCells {
        k2 := keys[s + 1..c] + [pushUpKey] + ([keys[c]] + keys[c + 1..]);
        t2 := kids[s + 1..c] + [newChild] + [extraChild] + (kids[c + 1..nCells] + [kids[nCells]]);
        Rejoin(kids, c + 1, nCells);
        Seqs.DropFirst(keys, c);
      } else {
        k2, t2 := keys[s + 1..c] + [pushUpKey], kids[s + 1..c] + [newChild] + [extraChild];
        Seqs.Empty(k2);
        Seqs.Empty(t2);
      }
    }
  }

  lemma KeysAfterLength(keys: seq<Key>, c: nat, push: Key)
    requires c <= |keys|
    ensures |KeysAfter(keys, c, push)| == |keys| + 1
  {
  }

  lemma KidsAfterLength(kids: seq<PageId>, c: nat, n: PageId, x: PageId)
    requires c < |kids|
    ensures |KidsAfter(kids, c, n, x)| == |kids| + 1
  {
  }

  // ---- storing new internal pages ----

  lemma NewNodeStored(c: Store, n: PageId, keys: seq<Key>, ts: seq<PTree>)
    requires AllStored(c, ts) && ForestPages(ts)[n] == 0
    ensures Stored(c[n := InternalPage(keys, RootIds(ts))], PNode(n, keys, ts))
  {
    var page := InternalPage(keys, RootIds(ts));
    hide Stored;
    ForestPagesCached(c, ts);
    KeptUpdate(c, n, page, ForestPages(ts));
    AllStoredKept(c, c[n := page], ts, ForestPages(ts));
    StoredFrom(c[n := page], n, keys, ts);
  }

  lemma StoredFrom(c: Store, n: PageId, keys: seq<Key>, ts: seq<PTree>)
    requires n in c && c[n] == InternalPage(keys, RootIds(ts)) && AllStored(c, ts)
    ensures Stored(c, PNode(n, keys, ts))
  {
  }

  lemma TreePagesNode(n: PageId, keys: seq<Key>, ts: seq<PTree>)
    ensures TreePages(PNode(n, keys, ts)) == multiset{n} + ForestPages(ts)
  {
  }

  /** A fresh internal page over subtrees that are already in place. */
  method BuildNode(db: DB, keys: seq<Key>, kids: seq<PageId>, ghost ts: seq<PTree>, ghost rest: multiset<PageId>)
    returns (n: PageId)
    requires db.Open() && AllStored(db.cache, ts) && kids == RootIds(ts) && db.Live() == rest + ForestPages(ts)
    modifies db
    ensures db.meta.numPages <= old(db.meta.numPages) + 1
    ensures db.Past() == old(db.Past()) && db.Still() <= old(db.Still())
    ensures db.Open() && Stored(db.cache, PNode(n, keys, ts))
    ensures db.Live() == rest + TreePages(PNode(n, keys, ts)) && Kept(old(db.cache), db.cache, rest)
    ensures db.books.mine == old(db.books.mine) + {n}
  {
    hide Inv, DB.View, DB.Past, DB.Still, DB.Live, Kept, AllStored, Stored, TreePages, ForestPages, AllocatedFrom,
         WriteStep;
    ghost var c0 := db.cache;
    n := db.AllocatePage();
    ghost var c1 := db.cache;
    LiveCached(db);
    db.Write(n, InternalPage(keys, kids));
    AllStoredKept(c0, c1, ts, rest + ForestPages(ts));
    FreshPage(rest, ForestPages(ts), n);
    NewNodeStored(c1, n, keys, ts);
    TreePagesNode(n, keys, ts);
    KeptFresh(c0, c1, rest, ForestPages(ts), n, InternalPage(keys, kids));
  }

  lemma FreshPage(rest: multiset<PageId>, a: multiset<PageId>, n: PageId)
    requires forall p :: (rest + a + multiset{n})[p] <= 1
    ensures rest[n] == 0 && a[n] == 0
    ensures rest + a + multiset{n} == rest + (multiset{n} + a)
  {
    assert (rest + a + multiset{n})[n] == rest[n] + a[n] + 1;
  }

  lemma KeptFresh(c0: Store, c1: Store, rest: multiset<PageId>, a: multiset<PageId>, n: PageId, page: Page)
    requires Kept(c0, c1, rest + a) && rest[n] == 0
    ensures Kept(c0, c1[n := page], rest)
  {
  }

  /** Two fresh internal pages over subtrees that are already in place. Both page ids are allocated
      before either page is filled. */
  method BuildTwo(db: DB, k1: seq<Key>, t1: seq<PageId>, k2: seq<Key>, t2: seq<PageId>, ghost a: seq<PTree>,
                  ghost b: seq<PTree>,
                  ghost rest: multiset<PageId>)
    returns (n1: PageId, n2: PageId)
    requires db.Open() && AllStored(db.cache, a) && AllStored(db.cache, b) && t1 == RootIds(a) && t2 == RootIds(b)
    requires db.Live() == rest + (ForestPages(a) + ForestPages(b))
    modifies db
    ensures db.meta.numPages <= old(db.meta.numPages) + 2
    ensures db.Past() == old(db.Past()) && db.Still() <= old(db.Still())
    ensures db.Open() && Stored(db.cache, PNode(n1, k1, a)) && Stored(db.cache, PNode(n2, k2, b))
    ensures db.Live() == rest + (TreePages(PNode(n1, k1, a)) + TreePages(PNode(n2, k2, b)))
    ensures Kept(old(db.cache), db.cache, rest)
  {
    hide Inv, DB.View, DB.Past, DB.Still, DB.Live, Kept, AllStored, Stored, TreePages, ForestPages, AllocatedFrom,
         WriteStep;
    ghost var c0 := db.cache;
    n1 := db.AllocatePage();
    ghost var c1 := db.cache;
    n2 := db.AllocatePage();
    ghost var c2 := db.cache;
    LiveCached(db);
    db.Write(n1, InternalPage(k1, t1));
    db.Write(n2, InternalPage(k2, t2));
    TwoBuilt(c0, c1, c2, k1, a, k2, b, n1, n2, rest);
  }

  lemma TwoBuilt(c0: Store, c1: Store, c2: Store, k1: seq<Key>, a: seq<PTree>, k2: seq<Key>, b: seq<PTree>,
                 n1: PageId, n2: PageId, rest: multiset<PageId>)
    requires AllStored(c0, a) && AllStored(c0, b)
    requires var m := rest + (ForestPages(a) + ForestPages(b));
      && Kept(c0, c1, m) && Kept(c1, c2, m + multiset{n1})
      && forall p :: (m + multiset{n1} + multiset{n2})[p] <= 1
    ensures var c3 := c2[n1 := InternalPage(k1, RootIds(a))][n2 := InternalPage(k2, RootIds(b))];
      && Stored(c3, PNode(n1, k1, a)) && Stored(c3, PNode(n2, k2, b)) && Kept(c0, c3, rest)
    ensures rest + (ForestPages(a) + ForestPages(b)) + multiset{n1} + multiset{n2}
            == rest + (TreePages(PNode(n1, k1, a)) + TreePages(PNode(n2, k2, b)))
  {
    hide Kept, AllStored, Stored, TreePages, ForestPages;
    var fa, fb := ForestPages(a), ForestPages(b);
    var m := rest + (fa + fb);
    KeptTrans(c0, c1, c2, m, m + multiset{n1});
    AllStoredKept(c0, c2, a, m);
    AllStoredKept(c0, c2, b, m);
    TwoOnce(rest, fa, fb, n1, n2);
    var p1, p2 := InternalPage(k1, RootIds(a)), InternalPage(k2, RootIds(b));
    NewNodeStored(c2, n1, k1, a);
    TreePagesNode(n1, k1, a);
    TreePagesNode(n2, k2, b);
    var c := c2[n1 := p1];
    LeafElsewhere(c, n2, p2, PNode(n1, k1, a));
    ForestElsewhere(c2, n1, p1, b);
    NewNodeStored(c, n2, k2, b);
    KeptTwice(c0, c2, rest, fa + fb, n1, n2, p1, p2);
  }

  lemma KeptTwice(c0: Store, c2: Store, rest: multiset<PageId>, a: multiset<PageId>, n1: PageId, n2: PageId, p1: Page,
                  p2: Page)
    requires Kept(c0, c2, rest + a)
    requires forall p :: (rest + a + multiset{n1} + multiset{n2})[p] <= 1
    ensures Kept(c0, c2[n1 := p1][n2 := p2], rest)
  {
    assert (rest + a + multiset{n1} + multiset{n2})[n1] == rest[n1] + a[n1] + 1 + multiset{n2}[n1];
    assert (rest + a + multiset{n1} + multiset{n2})[n2] == rest[n2] + a[n2] + 1 + multiset{n1}[n2];
  }

  lemma ForestElsewhere(c: Store, n: PageId, page: Page, ts: seq<PTree>)
    requires AllStored(c, ts) && ForestPages(ts)[n] == 0
    ensures AllStored(c[n := page], ts)
  {
    hide Stored;
    ForestPagesCached(c, ts);
    KeptUpdate(c, n, page, ForestPages(ts));
    AllStoredKept(c, c[n := page], ts, ForestPages(ts));
  }

  // ---- one level up ----

  ghost function NewParts(r: Outcome, l: PTree, u: PTree): seq<PTree> { if r.One? then [l] else [l, u] }

  /** The children of a page once child c has been rewritten. */
  ghost function NewKids(kids: seq<PTree>, c: nat, r: Outcome, l: PTree, u: PTree): seq<PTree>
    requires c < |kids|
  {
    kids[..c] + (NewParts(r, l, u) + kids[c + 1..])
  }

  ghost function Around(kids: seq<PTree>, c: nat): multiset<PageId>
    requires c < |kids|
  {
    ForestPages(kids[..c]) + ForestPages(kids[c + 1..])
  }

  lemma ForestAround(kids: seq<PTree>, c: nat)
    requires c < |kids|
    ensures ForestPages(kids) == Around(kids, c) + TreePages(kids[c])
  {
    hide ForestPages, TreePages;
    Seqs.Around(kids, c);
    ForestPagesAppend(kids[..c] + [kids[c]], kids[c + 1..]);
    ForestPagesAppend(kids[..c], [kids[c]]);
    ForestPagesOne(kids[c]);
  }

  lemma NewKidsPages(kids: seq<PTree>, c: nat, r: Outcome, l: PTree, u: PTree)
    requires c < |kids| && Rewrote(r)
    ensures ForestPages(NewKids(kids, c, r, l, u)) == Around(kids, c) + NewPages(r, l, u)
  {
    hide ForestPages, TreePages;
    var mid := NewParts(r, l, u);
    ForestPagesAppend(kids[..c], mid + kids[c + 1..]);
    ForestPagesAppend(mid, kids[c + 1..]);
    if r.One? { ForestPagesOne(l); } else { ForestPagesTwo(l, u); }
  }

  lemma NewKidsStored(c0: Store, c1: Store, kids: seq<PTree>, c: nat, r: Outcome, l: PTree, u: PTree, g: Upd.Grown,
                      rest: multiset<PageId>)
    requires AllStored(c0, kids) && c < |kids| && Rewrote(r)
    requires Grew(c1, r, g, l, u) && Kept(c0, c1, rest) && Around(kids, c) <= rest
    ensures AllStored(c1, NewKids(kids, c, r, l, u))
  {
    hide Stored, Kept, ForestPages, Shape;
    var a, b := kids[..c], kids[c + 1..];
    assert AllStored(c0, a) && AllStored(c0, b);
    AllStoredKept(c0, c1, a, rest);
    AllStoredKept(c0, c1, b, rest);
    AppendStored(c1, NewParts(r, l, u), b);
    AppendStored(c1, a, NewParts(r, l, u) + b);
  }

  lemma AppendStored(c: Store, a: seq<PTree>, b: seq<PTree>)
    requires AllStored(c, a) && AllStored(c, b)
    ensures AllStored(c, a + b)
  {
    hide Stored;
  }

  lemma NewKidsShapes(store: Store, kids: seq<PTree>, c: nat, r: Outcome, l: PTree, u: PTree, g: Upd.Grown)
    requires c < |kids| && Rewrote(r) && Grew(store, r, g, l, u)
    ensures Shapes(NewKids(kids, c, r, l, u)) == Upd.Children'(Shapes(kids), c, g)
    ensures g.One? <==> r.One?
    ensures r.Two? ==> g.sep == r.sep
    ensures r.One? ==> RootIds(NewKids(kids, c, r, l, u)) == RootIds(kids)[..c] + ([r.id] + RootIds(kids)[c + 1..])
    ensures r.Two? ==> RootIds(NewKids(kids, c, r, l, u)) == KidsAfter(RootIds(kids), c, r.left, r.right)
  {
    hide Stored, Shape;
    var ts := NewKids(kids, c, r, l, u);
    assert |ts| == |kids| - 1 + |NewParts(r, l, u)|;
  }

  /** Everything the parent needs to know once the child has been rewritten and its old page freed. */
  lemma ChildRewritten(c0: Store, c1: Store, kids: seq<PTree>, c: nat, spec: Upd.Result, r: Outcome, l: PTree, u: PTree,
                       live: multiset<PageId>, rest: multiset<PageId>)
    requires AllStored(c0, kids) && c < |kids| && Rewrote(r)
    requires Updated(c0, c1, live + multiset{kids[c].id}, rest + Around(kids, c) + multiset{kids[c].id}, spec, r, l, u)
    ensures spec.Changed? && AllStored(c1, NewKids(kids, c, r, l, u)) && Kept(c0, c1, rest)
    ensures live == rest + ForestPages(NewKids(kids, c, r, l, u))
    ensures Shapes(NewKids(kids, c, r, l, u)) == Upd.Children'(Shapes(kids), c, spec.g)
    ensures spec.g.One? <==> r.One?
    ensures r.Two? ==> spec.g.sep == r.sep
    ensures r.One? ==> RootIds(NewKids(kids, c, r, l, u)) == RootIds(kids)[..c] + ([r.id] + RootIds(kids)[c + 1..])
    ensures r.Two? ==> RootIds(NewKids(kids, c, r, l, u)) == KidsAfter(RootIds(kids), c, r.left, r.right)
  {
    hide Stored, Kept, ForestPages, Shape, TreePages, Grew, AllStored, NewKids, Around, NewPages, KidsAfter,
         Upd.Children';
    var m := rest + Around(kids, c) + multiset{kids[c].id};
    NewKidsStored(c0, c1, kids, c, r, l, u, spec.g, m);
    NewKidsShapes(c1, kids, c, r, l, u, spec.g);
    NewKidsPages(kids, c, r, l, u);
    KeptLess(c0, c1, m, rest);
    Cancel(live, rest + Around(kids, c) + NewPages(r, l, u), multiset{kids[c].id});
  }

  lemma KeptLess(c0: Store, c1: Store, m: multiset<PageId>, m': multiset<PageId>)
    requires Kept(c0, c1, m) && m' <= m
    ensures Kept(c0, c1, m')
  {
  }

  /** The page after a child split that fits in it. */
  method ApplyChildSplit(keys: seq<Key>, kids: seq<PageId>, c: nat, newChild: PageId, pushUpKey: Key,
                         extraChild: PageId)
    returns (ks: seq<Key>, ts: seq<PageId>)
    requires |kids| == |keys| + 1 && c <= |keys|
    ensures ks == KeysAfter(keys, c, pushUpKey) && ts == KidsAfter(kids, c, newChild, extraChild)
  {
    var nCells := |keys|;
    if c < nCells {
      ks := keys[..c] + [pushUpKey] + [keys[c]] + keys[c + 1..];
      ts := kids[..c] + [newChild] + [extraChild] + kids[c + 1..nCells] + [kids[nCells]];
    } else {
      ks := keys[..nCells] + [pushUpKey];
      ts := kids[..nCells] + [newChild] + [extraChild];
    }
  }

  lemma NodeGuard(keys: seq<Key>, c: nat, sep: Key)
    requires c <= |keys| && NodeUsed(keys) <= PAGE_SIZE && |sep| <= MAX_KEY
    ensures InternalCellSize(sep) + 2 > PAGE_SIZE - NodeUsed(keys) <==> NodeUsed(KeysAfter(keys, c, sep)) > PAGE_SIZE
    ensures NodeUsed(KeysAfter(keys, c, sep)) == NodeUsed(keys) + InternalCellSize(sep) + 2
  {
    hide NodeUsed;
    Upd.SeparatorsGrow(keys, c, sep);
  }

  /** The page split in two, where internalSplitIndex says. */
  method SplitInternal(db: DB, keys: seq<Key>, kids: seq<PageId>, c: nat, newChild: PageId, pushUpKey: Key,
                       extraChild: PageId,
                       ghost ts: seq<PTree>, ghost rest: multiset<PageId>)
    returns (r: Outcome, ghost l: PTree, ghost u: PTree)
    requires db.Open() && |kids| == |keys| + 1 && c <= |keys|
    requires RootIds(ts) == KidsAfter(kids, c, newChild, extraChild) && AllStored(db.cache, ts)
    requires db.Live() == rest + ForestPages(ts)
    requires (forall i :: 0 <= i < |keys| ==> |keys[i]| <= MAX_KEY) && |pushUpKey| <= MAX_KEY
    requires NodeUsed(keys) <= PAGE_SIZE && PAGE_SIZE < NodeUsed(KeysAfter(keys, c, pushUpKey)) <= PAGE_SIZE + 1020
    modifies db
    ensures db.meta.numPages <= old(db.meta.numPages) + 2
    ensures db.Past() == old(db.Past()) && db.Still() <= old(db.Still())
    ensures db.Open() && r.Two? && db.Live() == rest + NewPages(r, l, u) && Kept(old(db.cache), db.cache, rest)
    ensures |ts| == |KeysAfter(keys, c, pushUpKey)| + 1
    ensures Grew(db.cache, r, Upd.GrowNode(KeysAfter(keys, c, pushUpKey), Shapes(ts)), l, u)
  {
    hide Inv, DB.View, DB.Past, DB.Still, DB.Live, Kept, AllStored, Stored, TreePages, ForestPages, Shape,
         Upd.GrowNode, Sum, InternalSplit, KidsAfter, Grew;
    ghost var ks := KeysAfter(keys, c, pushUpKey);
    KidsAfterLength(kids, c, newChild, extraChild);
    KeysAfterLength(keys, c, pushUpKey);
    ghost var s0 := Upd.SplitPoint(ks);
    NodeGuard(keys, c, pushUpKey);
    var nCells := |keys|;
    var newCellSize := InternalCellSize(pushUpKey);
    var cellBytes := NodeUsed(keys) - INTERNAL_HEADER - nCells * 2;
    var totalSize: uint16 := cellBytes + newCellSize + nCells * 2 + 2;
    var s := InternalSplitIndex(keys, c, pushUpKey, totalSize / 2, SepCosts(ks));
    var k1, t1, sep, k2, t2 := PlaceSplit(keys, kids, c, newChild, pushUpKey, extraChild, s);
    ghost var a, b := ts[..s + 1], ts[s + 1..];
    CutForest(db.cache, ts, s);
    var n1, n2 := BuildTwo(db, k1, t1, k2, t2, a, b, rest);
    l, u := PNode(n1, k1, a), PNode(n2, k2, b);
    r := Two(n1, sep, n2);
    SplitGrewNode(db.cache, ks, ts, s, n1, n2);
  }

  lemma CutForest(c: Store, ts: seq<PTree>, s: nat)
    requires AllStored(c, ts) && s < |ts|
    ensures AllStored(c, ts[..s + 1]) && AllStored(c, ts[s + 1..])
    ensures RootIds(ts[..s + 1]) == RootIds(ts)[..s + 1] && RootIds(ts[s + 1..]) == RootIds(ts)[s + 1..]
    ensures ForestPages(ts) == ForestPages(ts[..s + 1]) + ForestPages(ts[s + 1..])
  {
    hide Stored, ForestPages;
    Seqs.Parts(ts, s + 1);
    ForestPagesAppend(ts[..s + 1], ts[s + 1..]);
  }

  lemma SplitGrewNode(store: Store, ks: seq<Key>, ts: seq<PTree>, s: nat, n1: PageId, n2: PageId)
    requires |ts| == |ks| + 1 && s < |ks| && s == InternalSplit(SepCosts(ks)) && NodeUsed(ks) > PAGE_SIZE
    requires Stored(store, PNode(n1, ks[..s], ts[..s + 1])) && Stored(store, PNode(n2, ks[s + 1..], ts[s + 1..]))
    ensures Grew(store, Two(n1, ks[s], n2), Upd.GrowNode(ks, Shapes(ts)), PNode(n1, ks[..s], ts[..s + 1]),
                 PNode(n2, ks[s + 1..], ts[s + 1..]))
  {
    hide Stored, InternalSplit, NodeUsed, Shape;
    ShapeNode(PNode(n1, ks[..s], ts[..s + 1]));
    ShapeNode(PNode(n2, ks[s + 1..], ts[s + 1..]));
    assert Shapes(ts[..s + 1]) == Shapes(ts)[..s + 1];
    assert Shapes(ts[s + 1..]) == Shapes(ts)[s + 1..];
  }

  lemma BuiltGrew(store: Store, ks: seq<Key>, ts: seq<PTree>, n: PageId, u: PTree)
    requires |ts| == |ks| + 1 && NodeUsed(ks) <= PAGE_SIZE && Stored(store, PNode(n, ks, ts))
    ensures Grew(store, One(n), Upd.GrowNode(ks, Shapes(ts)), PNode(n, ks, ts), u)
  {
    hide Stored, NodeUsed, Shape;
    ShapeNode(PNode(n, ks, ts));
  }

  /** The parent page after the child has become one or two pages. */
  method RebuildParent(db: DB, keys: seq<Key>, kids: seq<PageId>, c: nat, child: Outcome,
                       ghost ts: seq<PTree>, ghost g: Upd.Grown, ghost rest: multiset<PageId>)
    returns (r: Outcome, ghost l: PTree, ghost u: PTree)
    requires db.Open() && |kids| == |keys| + 1 && c <= |keys| && Rewrote(child)
    requires AllStored(db.cache, ts) && db.Live() == rest + ForestPages(ts)
    requires (g.One? <==> child.One?) && (child.Two? ==> g.sep == child.sep)
    requires child.One? ==> RootIds(ts) == kids[..c] + ([child.id] + kids[c + 1..])
    requires child.Two? ==> RootIds(ts) == KidsAfter(kids, c, child.left, child.right) && |child.sep| <= MAX_KEY
    requires (forall i :: 0 <= i < |keys| ==> |keys[i]| <= MAX_KEY) && NodeUsed(keys) <= PAGE_SIZE
    modifies db
    ensures db.meta.numPages <= old(db.meta.numPages) + 2
    ensures db.Past() == old(db.Past()) && db.Still() <= old(db.Still())
    ensures db.Open() && Rewrote(r) && db.Live() == rest + NewPages(r, l, u) && Kept(old(db.cache), db.cache, rest)
    ensures |ts| == |Upd.Separators'(keys, c, g)| + 1
    ensures Grew(db.cache, r, Upd.GrowNode(Upd.Separators'(keys, c, g), Shapes(ts)), l, u)
  {
    hide Inv, DB.View, DB.Past, DB.Still, DB.Live, Kept, AllStored, Stored, TreePages, ForestPages, Shape,
         Upd.GrowNode, Grew, NodeUsed;
    u := PLeaf(0, []);
    if child.One? {
      var kids' := kids[..c] + ([child.id] + kids[c + 1..]);
      var n := BuildNode(db, keys, kids', ts, rest);
      l := PNode(n, keys, ts);
      BuiltGrew(db.cache, keys, ts, n, u);
      r := One(n);
    } else {
      NodeGuard(keys, c, child.sep);
      KidsAfterLength(kids, c, child.left, child.right);
      KeysAfterLength(keys, c, child.sep);
      if InternalCellSize(child.sep) + 2 > PAGE_SIZE - NodeUsed(keys) {
        r, l, u := SplitInternal(db, keys, kids, c, child.left, child.sep, child.right, ts, rest);
      } else {
        var ks, kids' := ApplyChildSplit(keys, kids, c, child.left, child.sep, child.right);
        var n := BuildNode(db, ks, kids', ts, rest);
        l := PNode(n, ks, ts);
        BuiltGrew(db.cache, ks, ts, n, u);
        r := One(n);
      }
    }
  }

  /** updateNode: descend to the leaf, then rewrite page after page on the way back. The page it was called
      on is left in place for the caller to free. */
  method UpdateNode(db: DB, id: PageId, key: Key, value: Bytes, mode: Upd.Mode,
                    ghost t: PTree, ghost rest: multiset<PageId>, ghost q: Limits, ghost h: nat, ghost lo: real,
                        ghost hi: real)
    returns (r: Outcome, ghost l: PTree, ghost u: PTree)
    requires db.Open() && Stored(db.cache, t) && t.id == id && db.Live() == rest + TreePages(t)
    requires Wf(Shape(t), q, h, lo, hi) && lo <= Rank(key) < hi && Storable(Entry(key, value), q)
    modifies db
    ensures db.meta.numPages <= old(db.meta.numPages) + ValuePages(value) + 2 * (h + 1)
    ensures db.Past() == old(db.Past()) && db.Still() <= old(db.Still())
    ensures db.Open()
    ensures Updated(old(db.cache), db.cache, db.Live(), rest + multiset{id},
                    Upd.UpdateNode(Shape(t), key, value, mode), r, l, u)
    ensures !Rewrote(r) ==> unchanged(db)
    decreases h
  {
    hide Inv, DB.View, DB.Past, DB.Still, DB.Live, Kept, AllStored, Stored, TreePages, ForestPages, Shape,
         Upd.GrowNode, Updated, NodeUsed, Upd.UpdateNode, Rank, Wf, Forest, ChildSlot, Around, NewKids, NewPages,
         Grew, FreeStep, Storable, ValuePages;
    RootStored(db.cache, t);
    if db.cache[id].LeafPage? {
      LeafPages(t);
      LeafHeight(t, q, h, lo, hi, db.cache);
      r, l, u := UpdateLeaf(db, id, key, value, mode, t, rest + multiset{id}, q, lo, hi);
    } else {
      NodePages(db.cache, t);
      var keys, kids := db.cache[id].keys, db.cache[id].kids;
      ghost var shapes := Shapes(t.kids);
      ShapeNode(t);
      WfNode(keys, shapes, q, h, lo, hi, 0);
      SeparatorFacts(keys, q, lo, hi);
      var c := SearchInternal(keys, key);
      WfNode(keys, shapes, q, h, lo, hi, c);
      ChildSlotRange(keys, key, q, lo, hi);
      Upd.UnfoldUpdate(keys, shapes, key, value, mode);
      StoredNode(db.cache, t, c);
      ForestAround(t.kids, c);
      ghost var kid, around := t.kids[c], Around(t.kids, c);
      ghost var c0 := db.cache;
      assert rest + (multiset{id} + (around + TreePages(kid))) == (rest + multiset{id} + around) + TreePages(kid);
      var child;
      child, l, u := UpdateNode(db, kids[c], key, value, mode, kid, rest + multiset{id} + around, q, h - 1,
                                Lo(keys, c, lo), Hi(keys, c, hi));
      if !Rewrote(child) {
        r := child;
        SameResult(c0, db.cache, db.Live(), rest + multiset{id} + around + multiset{kid.id}, rest + multiset{id},
                   Upd.UpdateNode(Shape(kid), key, value, mode), r, l, u);
        return;
      }
      ghost var spec := Upd.UpdateNode(Shape(kid), key, value, mode);
      OldPageLive(db, c0, rest + multiset{id} + around, spec, child, l, u, kid.id);
      db.FreePage(kids[c]);
      ghost var ts := NewKids(t.kids, c, child, l, u);
      ChildRewritten(c0, db.cache, t.kids, c, spec, child, l, u, db.Live(), rest + multiset{id});
      PushedKeyOk(kid, q, h - 1, Lo(keys, c, lo), Hi(keys, c, hi), key, value, mode);
      ghost var c1 := db.cache;
      r, l, u := RebuildParent(db, keys, kids, c, child, ts, spec.g, rest + multiset{id});
      ParentUpdated(c0, c1, db.cache, db.Live(), rest + multiset{id}, Upd.UpdateNode(Shape(t), key, value, mode), r,
                    l, u);
    }
  }

  lemma LeafPages(t: PTree)
    requires t.PLeaf?
    ensures TreePages(t) == multiset{t.id} + RowPages(t.rows)
  {
  }

  lemma LeafHeight(t: PTree, q: Limits, h: nat, lo: real, hi: real, store: Store)
    requires Wf(Shape(t), q, h, lo, hi) && t.PLeaf?
    ensures h == 0
  {
    hide Rank, LeafUsed;
  }

  lemma NodePages(store: Store, t: PTree)
    requires Stored(store, t) && t.PNode?
    ensures TreePages(t) == multiset{t.id} + ForestPages(t.kids) && AllStored(store, t.kids)
    ensures store[t.id] == InternalPage(t.keys, RootIds(t.kids))
  {
  }

  lemma SeparatorFacts(keys: seq<Key>, q: Limits, lo: real, hi: real)
    requires Separators(keys, q, lo, hi)
    ensures Increasing(keys) && forall i :: 0 <= i < |keys| ==> |keys[i]| <= MAX_KEY
  {
  }

  lemma SameResult(c0: Store, c1: Store, live: multiset<PageId>, rest: multiset<PageId>, rest': multiset<PageId>,
                   spec: Upd.Result, r: Outcome, l: PTree, u: PTree)
    requires Updated(c0, c1, live, rest, spec, r, l, u) && !Rewrote(r)
    ensures !spec.Changed? && Updated(c0, c1, live, rest', spec, r, l, u)
  {
  }

  lemma OldPageLive(db: DB, c0: Store, rest: multiset<PageId>, spec: Upd.Result, r: Outcome, l: PTree, u: PTree,
                    id: PageId)
    requires db.Open() && Rewrote(r) && Updated(c0, db.cache, db.Live(), rest + multiset{id}, spec, r, l, u)
    ensures id in db.books.live
  {
    hide Inv, DB.View, DB.Past, DB.Still, Kept, Grew;
    assert db.Live()[id] >= 1;
  }

  /** The separator a split pushes up is one of the tree's keys. */
  lemma PushedKeyOk(t: PTree, q: Limits, h: nat, lo: real, hi: real, key: Key, value: Bytes, mode: Upd.Mode)
    requires Wf(Shape(t), q, h, lo, hi) && lo <= Rank(key) < hi && Storable(Entry(key, value), q)
    ensures var r := Upd.UpdateNode(Shape(t), key, value, mode);
      r.Changed? && r.g.Two? ==> |r.g.sep| <= MAX_KEY
  {
    hide Rank, Wf, Upd.UpdateNode, Shape, Put, Has, Trees.Entries, Storable, Upd.GrownEntries;
    Upd.UpdateRefines(Shape(t), q, h, lo, hi, key, value, mode);
  }

  lemma ParentUpdated(c0: Store, c1: Store, c2: Store, live: multiset<PageId>, rest: multiset<PageId>,
                      spec: Upd.Result, r: Outcome, l: PTree, u: PTree)
    requires Kept(c0, c1, rest) && Kept(c1, c2, rest) && Rewrote(r) && spec.Changed?
    requires live == rest + NewPages(r, l, u) && Grew(c2, r, spec.g, l, u)
    ensures Updated(c0, c2, live, rest, spec, r, l, u)
  {
    hide Grew;
    KeptTrans(c0, c1, c2, rest, rest);
  }
}
