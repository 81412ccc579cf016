/** Delete on pages: following the key down, and on the way back borrowing from a sibling or merging with it. */
module NodeDelete {
  import opened Keys
  import opened OrderedMap
  import opened Layout
  import opened Trees
  import Del = TreeDelete
  import opened Pages
  import opened Protocol
  import opened Transactions
  import opened Placed
  import opened PageSearch
  import opened PagePairs
  import opened NodeUpdate
  import LeafUpdate
  import Seqs

  /** TooLarge: a repair would put more than 4096 bytes into a page, or the cells of a leaf and of an internal
      page into one, where the program panics or writes over the page's own offset array. */
  datatype Outcome = Missing | TooLarge | Rewritten(id: PageId)

  /** What a call on a subtree promises: the outcome the tree function gives, the new subtree stored, and
      the pages in use changed by exactly the pages of the old and the new subtree. */
  ghost predicate Deleted(c0: Store, c1: Store, live: multiset<PageId>, rest: multiset<PageId>, spec: Del.Result,
                          r: Outcome, t: PTree) {
    match r
    case Missing => spec.Missing?
    case TooLarge => spec.Overflow?
    case Rewritten(id) =>
      && spec == Del.Done(Shape(t)) && t.id == id && Stored(c1, t)
      && live == rest + TreePages(t) && Kept(c0, c1, rest)
  }

  // ---- new contents for a pair of siblings ----

  /** Write the child again in place, and the sibling into a fresh page; the sibling's old page goes. */
  method PlacePair(db: DB, child: PageId, childPage: Page, sib: PageId, sibPage: Page, ghost x: PTree, ghost y: PTree,
                   ghost rest: multiset<PageId>)
    returns (n: PageId)
    requires db.Open() && child in db.books.mine && x.id == child && childPage == PageOf(x) && sibPage == PageOf(y)
    requires BodyStored(db.cache, x) && BodyStored(db.cache, y)
    requires db.Live() == rest + (multiset{child} + multiset{sib} + (BodyPages(x) + BodyPages(y)))
    modifies db
    ensures db.meta.numPages <= old(db.meta.numPages) + 1
    ensures db.Past() == old(db.Past()) && db.Still() <= old(db.Still())
    ensures db.Open() && Stored(db.cache, x) && Stored(db.cache, y.(id := n))
    ensures db.Live() == rest + (TreePages(x) + TreePages(y.(id := n))) && Kept(old(db.cache), db.cache, rest)
  {
    hide Inv, DB.View, DB.Past, DB.Still, DB.Live, Kept, Stored, BodyStored, TreePages, BodyPages, AllocatedFrom,
         WriteStep, FreeStep, PageOf;
    ghost var c0 := db.cache;
    db.Write(child, childPage);
    n := db.AllocatePage();
    ghost var c1 := db.cache;
    LiveCached(db);
    db.Write(n, sibPage);
    LiveIs(db, rest + (multiset{child} + (BodyPages(x) + BodyPages(y))) + multiset{n}, sib);
    db.FreePage(sib);
    PairPlaced(c0, c1, x, y, sib, n, rest);
    Cancel(db.Live(), rest + (TreePages(x) + TreePages(y.(id := n))), multiset{sib});
  }

  lemma LiveIs(db: DB, m: multiset<PageId>, p: PageId)
    requires db.Live() == m + multiset{p}
    ensures p in db.books.live
  {
    hide DB.View, Inv;
    assert (m + multiset{p})[p] >= 1;
  }

  lemma PairPlaced(c0: Store, c1: Store, x: PTree, y: PTree, sib: PageId, n: PageId, rest: multiset<PageId>)
    requires BodyStored(c0, x) && BodyStored(c0, y)
    requires var m := rest + (multiset{x.id} + multiset{sib} + (BodyPages(x) + BodyPages(y)));
      && Kept(c0[x.id := PageOf(x)], c1, m) && forall p :: (m + multiset{n})[p] <= 1
    ensures var c2 := c1[n := PageOf(y)]; Stored(c2, x) && Stored(c2, y.(id := n)) && Kept(c0, c2, rest)
    ensures rest + (multiset{x.id} + multiset{sib} + (BodyPages(x) + BodyPages(y))) + multiset{n}
            == rest + (TreePages(x) + TreePages(y.(id := n))) + multiset{sib}
  {
    hide Kept, Stored, BodyStored, TreePages, BodyPages, PageOf;
    var xs, ys := BodyPages(x), BodyPages(y);
    var m := rest + (multiset{x.id} + multiset{sib} + (xs + ys));
    PairOnce(rest, x.id, sib, xs, ys, n);
    var c := c0[x.id := PageOf(x)];
    BodyElsewhere(c0, x.id, PageOf(x), x);
    BodyElsewhere(c0, x.id, PageOf(x), y);
    BodyKept(c, c1, x, m);
    BodyKept(c, c1, y, m);
    BodyElsewhere(c1, n, PageOf(y), x);
    BodyElsewhere(c1, n, PageOf(y), y);
    KeptPage(c, c1, m, x.id);
    Moved(y, n);
    StoredParts(c1[n := PageOf(y)], x);
    StoredParts(c1[n := PageOf(y)], y.(id := n));
    PagesParts(x);
    PagesParts(y.(id := n));
    KeptBeside(c0, c1, m, rest, x.id, PageOf(x), n, PageOf(y));
  }

  lemma PairOnce(rest: multiset<PageId>, a: PageId, b: PageId, xs: multiset<PageId>, ys: multiset<PageId>, n: PageId)
    requires forall p :: (rest + (multiset{a} + multiset{b} + (xs + ys)) + multiset{n})[p] <= 1
    ensures xs[a] == 0 && ys[a] == 0 && rest[a] == 0 && xs[n] == 0 && ys[n] == 0 && rest[n] == 0 && a != n && a != b
    ensures a in rest + (multiset{a} + multiset{b} + (xs + ys))
  {
    var m := rest + (multiset{a} + multiset{b} + (xs + ys)) + multiset{n};
    assert m[a] == rest[a] + 1 + multiset{b}[a] + xs[a] + ys[a] + multiset{n}[a];
    assert m[n] == rest[n] + multiset{a}[n] + multiset{b}[n] + xs[n] + ys[n] + 1;
  }

  lemma KeptPage(c0: Store, c1: Store, m: multiset<PageId>, p: PageId)
    requires Kept(c0, c1, m) && p in m
    ensures p in c0 && p in c1 && c1[p] == c0[p]
  {
  }

  lemma KeptBeside(c0: Store, c1: Store, m: multiset<PageId>, rest: multiset<PageId>, a: PageId, pa: Page, n: PageId,
                   pn: Page)
    requires Kept(c0[a := pa], c1, m) && rest <= m && rest[a] == 0 && rest[n] == 0
    ensures Kept(c0, c1[n := pn], rest)
  {
  }

  /** A fresh page for content whose chains or subtrees are already in place. */
  method PlaceNew(db: DB, page: Page, ghost m: PTree, ghost rest: multiset<PageId>) returns (n: PageId)
    requires db.Open() && page == PageOf(m) && BodyStored(db.cache, m) && db.Live() == rest + BodyPages(m)
    modifies db
    ensures db.meta.numPages <= old(db.meta.numPages) + 1
    ensures db.Past() == old(db.Past()) && db.Still() <= old(db.Still())
    ensures db.Open() && Stored(db.cache, m.(id := n)) && n in db.books.mine
    ensures db.Live() == rest + TreePages(m.(id := n)) && Kept(old(db.cache), db.cache, rest)
  {
    hide Inv, DB.View, DB.Past, DB.Still, DB.Live, Kept, Stored, BodyStored, TreePages, BodyPages, AllocatedFrom,
         WriteStep, PageOf;
    ghost var c0 := db.cache;
    n := db.AllocatePage();
    ghost var c1 := db.cache;
    LiveCached(db);
    db.Write(n, page);
    NewPlaced(c0, c1, m, n, rest);
  }

  lemma NewPlaced(c0: Store, c1: Store, t: PTree, n: PageId, rest: multiset<PageId>)
    requires BodyStored(c0, t) && Kept(c0, c1, rest + BodyPages(t))
             && forall p :: (rest + BodyPages(t) + multiset{n})[p] <= 1
    ensures var c2 := c1[n := PageOf(t)]; Stored(c2, t.(id := n)) && Kept(c0, c2, rest)
    ensures rest + BodyPages(t) + multiset{n} == rest + TreePages(t.(id := n))
  {
    hide Kept, Stored, BodyStored, TreePages, BodyPages, PageOf;
    FreshPage(rest, BodyPages(t), n);
    BodyKept(c0, c1, t, rest + BodyPages(t));
    BodyElsewhere(c1, n, PageOf(t), t);
    Moved(t, n);
    StoredParts(c1[n := PageOf(t)], t.(id := n));
    PagesParts(t.(id := n));
    KeptFresh(c0, c1, rest, BodyPages(t), n, PageOf(t));
  }

  /** Both siblings in one fresh page; both old pages go. */
  method PlaceMerged(db: DB, page: Page, sib: PageId, child: PageId, ghost m: PTree, ghost rest: multiset<PageId>)
    returns (n: PageId)
    requires db.Open() && page == PageOf(m) && BodyStored(db.cache, m)
    requires db.Live() == rest + (multiset{child} + multiset{sib} + BodyPages(m))
    modifies db
    ensures db.meta.numPages <= old(db.meta.numPages) + 1
    ensures db.Past() == old(db.Past()) && db.Still() <= old(db.Still())
    ensures db.Open() && Stored(db.cache, m.(id := n))
    ensures db.Live() == rest + TreePages(m.(id := n)) && Kept(old(db.cache), db.cache, rest)
  {
    hide Inv, DB.View, DB.Past, DB.Still, DB.Live, Kept, Stored, BodyStored, TreePages, BodyPages, FreeStep, PageOf;
    ghost var rest' := rest + multiset{child} + multiset{sib};
    ghost var c0 := db.cache;
    assert rest + (multiset{child} + multiset{sib} + BodyPages(m)) == rest' + BodyPages(m);
    n := PlaceNew(db, page, m, rest');
    KeptLess(c0, db.cache, rest', rest);
    ghost var fin := rest + TreePages(m.(id := n));
    assert rest' + TreePages(m.(id := n)) == fin + multiset{child} + multiset{sib};
    LiveIs(db, fin + multiset{child}, sib);
    db.FreePage(sib);
    Cancel(db.Live(), fin + multiset{child}, multiset{sib});
    LiveIs(db, fin, child);
    db.FreePage(child);
    Cancel(db.Live(), fin, multiset{child});
  }

  // ---- the children around a pair ----

  ghost function AroundPair(ts: seq<PTree>, i: nat): multiset<PageId>
    requires i + 1 < |ts|
  {
    ForestPages(ts[..i]) + ForestPages(ts[i + 2..])
  }

  ghost function WithMid(ts: seq<PTree>, i: nat, mid: seq<PTree>): seq<PTree>
    requires i + 1 < |ts|
  {
    ts[..i] + (mid + ts[i + 2..])
  }

  lemma ForestAroundPair(ts: seq<PTree>, i: nat)
    requires i + 1 < |ts|
    ensures ForestPages(ts) == AroundPair(ts, i) + (TreePages(ts[i]) + TreePages(ts[i + 1]))
  {
    WithMidPages(ts, i, [ts[i], ts[i + 1]]);
    hide ForestPages, TreePages;
    ForestPagesTwo(ts[i], ts[i + 1]);
    Seqs.AroundPair(ts, i);
  }

  lemma WithMidPages(ts: seq<PTree>, i: nat, mid: seq<PTree>)
    requires i + 1 < |ts|
    ensures ForestPages(WithMid(ts, i, mid)) == AroundPair(ts, i) + ForestPages(mid)
  {
    hide ForestPages;
    ForestPagesAppend(ts[..i], mid + ts[i + 2..]);
    ForestPagesAppend(mid, ts[i + 2..]);
  }

  lemma WithMidIs(ts: seq<PTree>, i: nat, mid: seq<PTree>)
    requires i + 1 < |ts|
    ensures Shapes(WithMid(ts, i, mid)) == Shapes(ts)[..i] + (Shapes(mid) + Shapes(ts)[i + 2..])
    ensures RootIds(WithMid(ts, i, mid)) == RootIds(ts)[..i] + (RootIds(mid) + RootIds(ts)[i + 2..])
  {
    hide Shape;
  }

  lemma WithMidStored(c0: Store, c1: Store, ts: seq<PTree>, i: nat, mid: seq<PTree>, rest: multiset<PageId>)
    requires i + 1 < |ts| && AllStored(c0, ts) && AllStored(c1, mid) && Kept(c0, c1, rest + AroundPair(ts, i))
    ensures AllStored(c1, WithMid(ts, i, mid))
  {
    hide Stored, Kept, ForestPages;
    var a, b := ts[..i], ts[i + 2..];
    assert AllStored(c0, a) && AllStored(c0, b);
    AllStoredKept(c0, c1, a, rest + AroundPair(ts, i));
    AllStoredKept(c0, c1, b, rest + AroundPair(ts, i));
    AppendStored(c1, mid, b);
    AppendStored(c1, a, mid + b);
  }

  /** An internal page has one child more than separators. */
  ghost predicate Formed(t: PTree) { t.PNode? ==> |t.kids| == |t.keys| + 1 }

  /** Siblings of one kind can be repaired; a leaf and an internal page cannot. */
  lemma PairKinds(c: Store, keys: seq<Key>, ts: seq<PTree>, i: nat)
    requires AllStored(c, ts) && |ts| == |keys| + 1 && i < |keys| && Formed(ts[i]) && Formed(ts[i + 1])
    ensures ts[i].id in c && ts[i + 1].id in c
    ensures c[ts[i].id].LeafPage? == c[ts[i + 1].id].LeafPage? ==> AlikeTrees(ts[i], ts[i + 1])
    ensures c[ts[i].id].LeafPage? != c[ts[i + 1].id].LeafPage? ==>
              Del.Merge(keys, Shapes(ts), i) == Del.Overflow
                  && forall s: nat :: Del.Rebalance(keys, Shapes(ts), i, s) == Del.Overflow
  {
    hide Stored, BodyStored, Del.Used;
    StoredParts(c, ts[i]);
    StoredParts(c, ts[i + 1]);
  }

  // ---- borrowing ----

  /** The parent's separators after a borrow that moves sep up into slot i. */
  function BorrowedKeys(keys: seq<Key>, i: nat, sep: Key): seq<Key>
    requires i < |keys|
  {
    keys[..i] + ([sep] + keys[i + 1..])
  }

  /** Page by page, the borrow is the rebalancing of the tree; it overflows when a page does. */
  lemma BorrowPlan(c: Store, keys: seq<Key>, ts: seq<PTree>, i: nat, s: nat)
    requires AllStored(c, ts) && |ts| == |keys| + 1 && i < |keys| && AlikeTrees(ts[i], ts[i + 1])
    requires Alike(PageOf(ts[i]), PageOf(ts[i + 1]))
             && s < PageCells(JoinPages(PageOf(ts[i]), keys[i], PageOf(ts[i + 1])))
    ensures var h := CutPage(JoinPages(PageOf(ts[i]), keys[i], PageOf(ts[i + 1])), s);
      var j := JoinTrees(ts[i], keys[i], ts[i + 1]);
      && s < PageCells(PageOf(j)) && (j.PNode? ==> |j.kids| == |j.keys| + 1)
      && var a, b := CutLeft(j, s), CutRight(j, s);
      && PageOf(a) == h.left && PageOf(b) == h.right && BodyStored(c, a) && BodyStored(c, b)
      && BodyPages(ts[i]) + BodyPages(ts[i + 1]) == BodyPages(a) + BodyPages(b)
      && Del.Rebalance(keys, Shapes(ts), i, s) ==
         if PageUsed(h.left) <= PAGE_SIZE && PageUsed(h.right) <= PAGE_SIZE
             && NodeUsed(BorrowedKeys(keys, i, h.sep)) <= PAGE_SIZE
         then Del.Done(Node(BorrowedKeys(keys, i, h.sep),
                            Shapes(ts)[..i] + ([Shape(a), Shape(b)] + Shapes(ts)[i + 2..])))
         else Del.Overflow
  {
    hide Shape, BodyStored, BodyPages, NodeUsed, Stored, PageOf, CutPage, PageUsed, JoinTrees, CutLeft, CutRight,
         Del.CutAt, Del.Joined, PageCells, JoinPages;
    var l, r := ts[i], ts[i + 1];
    StoredParts(c, l);
    StoredParts(c, r);
    JoinTreesIs(c, l, keys[i], r);
    var j := JoinTrees(l, keys[i], r);
    CutTreesIs(c, j, s);
    Measures(c, CutLeft(j, s));
    Measures(c, CutRight(j, s));
  }

  /** The two halves on their pages: the child keeps the page it has, the sibling gets a fresh one. */
  method PlaceHalves(db: DB, left: PageId, right: PageId, h: Halves, fromLeft: bool, ghost a: PTree, ghost b: PTree,
                     ghost rest: multiset<PageId>)
    returns (left': PageId, right': PageId)
    requires db.Open() && (if fromLeft then right in db.books.mine else left in db.books.mine)
    requires h.left == PageOf(a) && h.right == PageOf(b) && BodyStored(db.cache, a) && BodyStored(db.cache, b)
    requires db.Live() == rest + (multiset{left} + multiset{right} + (BodyPages(a) + BodyPages(b)))
    modifies db
    ensures db.meta.numPages <= old(db.meta.numPages) + 1
    ensures db.Past() == old(db.Past()) && db.Still() <= old(db.Still())
    ensures db.Open() && Stored(db.cache, a.(id := left')) && Stored(db.cache, b.(id := right'))
    ensures db.Live() == rest + (TreePages(a.(id := left')) + TreePages(b.(id := right')))
            && Kept(old(db.cache), db.cache, rest)
  {
    hide Inv, DB.View, DB.Past, DB.Still, DB.Live, Kept, Stored, BodyStored, TreePages, BodyPages, PageOf;
    if fromLeft {
      Moved(b, right);
      assert multiset{left} + multiset{right} + (BodyPages(a) + BodyPages(b)) ==
             multiset{right} + multiset{left} + (BodyPages(b) + BodyPages(a));
      left' := PlacePair(db, right, h.right, left, h.left, b.(id := right), a, rest);
      right' := right;
    } else {
      Moved(a, left);
      right' := PlacePair(db, left, h.left, right, h.right, a.(id := left), b, rest);
      left' := left;
    }
  }

  lemma PairLive(ts: seq<PTree>, i: nat, rest: multiset<PageId>)
    requires i + 1 < |ts|
    ensures rest + ForestPages(ts) ==
            rest + AroundPair(ts, i) + (multiset{ts[i].id} + multiset{ts[i + 1].id}
                                        + (BodyPages(ts[i]) + BodyPages(ts[i + 1])))
  {
    hide ForestPages, TreePages, BodyPages, AroundPair;
    ForestAroundPair(ts, i);
    PagesParts(ts[i]);
    PagesParts(ts[i + 1]);
  }

  /** A cell moves across separator i, to the child from its sibling; the parent is rebuilt around them. */
  method BorrowAt(db: DB, keys: seq<Key>, ids: seq<PageId>, i: nat, fromLeft: bool, ghost ts: seq<PTree>,
                  ghost rest: multiset<PageId>)
    returns (r: Outcome, ghost t: PTree)
    requires db.Open() && AllStored(db.cache, ts) && ids == RootIds(ts) && |ts| == |keys| + 1 && i < |keys|
    requires db.Live() == rest + ForestPages(ts) && Formed(ts[i]) && Formed(ts[i + 1])
    requires Del.Cells(Shape(ts[if fromLeft then i else i + 1])) > 1
    requires (if fromLeft then ids[i + 1] else ids[i]) in db.books.mine
    modifies db
    ensures db.meta.numPages <= old(db.meta.numPages) + 2
    ensures db.Past() == old(db.Past()) && db.Still() <= old(db.Still())
    ensures db.Open()
    ensures Deleted(old(db.cache), db.cache, db.Live(), rest,
                    Del.Rebalance(keys, Shapes(ts), i, if fromLeft then Del.Cells(Shape(ts[i])) - 1
                                  else Del.Cells(Shape(ts[i])) + 1), r, t)
    ensures !r.Missing? && (r.Rewritten? ==> r.id in db.books.mine)
  {
    hide Inv, DB.View, DB.Past, DB.Still, DB.Live, Kept, Stored, BodyStored, TreePages, BodyPages, PageOf, AllStored,
         ForestPages, Shape, NodeUsed, Del.Rebalance, Deleted, BorrowedKeys, AroundPair, WithMid, CutPage, JoinPages,
         PageUsed, PageCells, CutLeft, CutRight, JoinTrees;
    t := PLeaf(0, []);
    ghost var l, u := ts[i], ts[i + 1];
    PairKinds(db.cache, keys, ts, i);
    if db.cache[ids[i]].LeafPage? != db.cache[ids[i + 1]].LeafPage? {
      r := TooLarge;
      Refused(db.cache, db.Live(), rest, Del.Overflow, t);
      return;
    }
    SiblingPages(db.cache, ts, i, keys[i]);
    var left, right := db.cache[ids[i]], db.cache[ids[i + 1]];
    var h;
    if fromLeft {
      h := BorrowFromLeft(left, keys[i], right);
    } else {
      h := BorrowFromRight(left, keys[i], right);
    }
    ghost var s := if fromLeft then PageCells(left) - 1 else PageCells(left) + 1;
    BorrowPlan(db.cache, keys, ts, i, s);
    ghost var a, b := CutLeft(JoinTrees(l, keys[i], u), s), CutRight(JoinTrees(l, keys[i], u), s);
    if PageUsed(h.left) > PAGE_SIZE || PageUsed(h.right) > PAGE_SIZE
        || NodeUsed(BorrowedKeys(keys, i, h.sep)) > PAGE_SIZE {
      r := TooLarge;
      Refused(db.cache, db.Live(), rest, Del.Rebalance(keys, Shapes(ts), i, s), t);
      return;
    }
    ghost var c0 := db.cache;
    PairLive(ts, i, rest);
    var left', right' := PlaceHalves(db, ids[i], ids[i + 1], h, fromLeft, a, b, rest + AroundPair(ts, i));
    ghost var c1 := db.cache;
    ghost var ts' := PairReplaced(c0, c1, ts, i, a, b, left', right', rest);
    var ks, kids := RebuildParentForBorrow(keys, ids, i, left', h.sep, right');
    BorrowedKeysAre(keys, i, h.sep);
    var n := BuildNode(db, ks, kids, ts', rest);
    t := PNode(n, ks, ts');
    r := Rewritten(n);
    ParentDone(c0, c1, db.cache, db.Live(), rest, Del.Rebalance(keys, Shapes(ts), i, s), t);
  }

  lemma BorrowedKeysAre(keys: seq<Key>, i: nat, sep: Key)
    requires i < |keys|
    ensures BorrowedKeys(keys, i, sep) == keys[..i] + ([sep] + keys[i + 1..])
  {
  }

  lemma Refused(c: Store, live: multiset<PageId>, rest: multiset<PageId>, spec: Del.Result, t: PTree)
    requires spec.Overflow?
    ensures Deleted(c, c, live, rest, spec, TooLarge, t)
  {
  }

  lemma ParentDone(c0: Store, c1: Store, c2: Store, live: multiset<PageId>, rest: multiset<PageId>, spec: Del.Result,
                   t: PTree)
    requires t.PNode? && spec == Del.Done(Node(t.keys, Shapes(t.kids))) && Stored(c2, t) && live == rest + TreePages(t)
    requires Kept(c0, c1, rest) && Kept(c1, c2, rest)
    ensures Deleted(c0, c2, live, rest, spec, Rewritten(t.id), t)
  {
    hide Stored, Kept, TreePages, Shape;
    ShapeNode(t);
    KeptTrans(c0, c1, c2, rest, rest);
  }

  lemma SiblingPages(c: Store, ts: seq<PTree>, i: nat, sep: Key)
    requires AllStored(c, ts) && i + 1 < |ts| && AlikeTrees(ts[i], ts[i + 1])
    ensures ts[i].id in c && ts[i + 1].id in c && c[ts[i].id] == PageOf(ts[i]) && c[ts[i + 1].id] == PageOf(ts[i + 1])
    ensures Alike(PageOf(ts[i]), PageOf(ts[i + 1]))
    ensures PageCells(PageOf(ts[i])) == Del.Cells(Shape(ts[i]))
            && PageCells(PageOf(ts[i + 1])) == Del.Cells(Shape(ts[i + 1]))
    ensures PageCells(JoinPages(PageOf(ts[i]), sep, PageOf(ts[i + 1]))) >= PageCells(PageOf(ts[i]))
            + PageCells(PageOf(ts[i + 1]))
    ensures BodyStored(c, ts[i]) && BodyStored(c, ts[i + 1])
  {
    hide Shape, Stored, BodyStored;
    StoredParts(c, ts[i]);
    StoredParts(c, ts[i + 1]);
    Measures(c, ts[i]);
    Measures(c, ts[i + 1]);
  }

  /** The children of the parent once the pair has its new pages. */
  lemma PairReplaced(c0: Store, c1: Store, ts: seq<PTree>, i: nat, a: PTree, b: PTree, left: PageId, right: PageId,
                     rest: multiset<PageId>)
    returns (ts': seq<PTree>)
    requires i + 1 < |ts| && AllStored(c0, ts) && Kept(c0, c1, rest + AroundPair(ts, i))
    requires Stored(c1, a.(id := left)) && Stored(c1, b.(id := right))
    ensures AllStored(c1, ts') && Kept(c0, c1, rest) && |ts'| == |ts|
    ensures rest + AroundPair(ts, i) + (TreePages(a.(id := left)) + TreePages(b.(id := right))) ==
            rest + ForestPages(ts')
    ensures Shapes(ts') == Shapes(ts)[..i] + ([Shape(a), Shape(b)] + Shapes(ts)[i + 2..])
    ensures RootIds(ts') == RootIds(ts)[..i] + ([left, right] + RootIds(ts)[i + 2..])
  {
    hide Kept, Stored, TreePages, ForestPages, Shape, AroundPair, AllStored, WithMid;
    var a', b' := a.(id := left), b.(id := right);
    Moved(a, left);
    Moved(b, right);
    PairStored(c1, a', b');
    ts' := WithMid(ts, i, [a', b']);
    WithMidPages(ts, i, [a', b']);
    ForestPagesTwo(a', b');
    WithMidIs(ts, i, [a', b']);
    WithMidStored(c0, c1, ts, i, [a', b'], rest);
    KeptLess(c0, c1, rest + AroundPair(ts, i), rest);
    assert Shapes([a', b']) == [Shape(a), Shape(b)];
    assert RootIds([a', b']) == [left, right];
  }

  lemma PairStored(c: Store, a: PTree, b: PTree)
    requires Stored(c, a) && Stored(c, b)
    ensures AllStored(c, [a, b])
  {
    hide Stored;
  }

  // ---- merging ----

  lemma MergePlan(c: Store, keys: seq<Key>, ts: seq<PTree>, i: nat)
    requires AllStored(c, ts) && |ts| == |keys| + 1 && i < |keys| && AlikeTrees(ts[i], ts[i + 1])
    ensures Alike(PageOf(ts[i]), PageOf(ts[i + 1]))
    ensures var p := JoinPages(PageOf(ts[i]), keys[i], PageOf(ts[i + 1]));
      var j := JoinTrees(ts[i], keys[i], ts[i + 1]);
      && PageOf(j) == p && BodyStored(c, j) && BodyPages(j) == BodyPages(ts[i]) + BodyPages(ts[i + 1])
      && Del.Merge(keys, Shapes(ts), i) ==
         if PageUsed(p) <= PAGE_SIZE
         then Del.Done(Node(keys[..i] + ([] + keys[i + 1..]), Shapes(ts)[..i] + ([Shape(j)] + Shapes(ts)[i + 2..])))
         else Del.Overflow
  {
    hide Shape, BodyStored, BodyPages, NodeUsed, Stored, PageOf, PageUsed, JoinTrees, Del.Joined, JoinPages;
    StoredParts(c, ts[i]);
    StoredParts(c, ts[i + 1]);
    JoinTreesIs(c, ts[i], keys[i], ts[i + 1]);
    Measures(c, JoinTrees(ts[i], keys[i], ts[i + 1]));
  }

  /** The children around separator i become one, and the separator goes. */
  method MergeAt(db: DB, keys: seq<Key>, ids: seq<PageId>, i: nat, withLeft: bool, ghost ts: seq<PTree>,
                 ghost rest: multiset<PageId>)
    returns (r: Outcome, ghost t: PTree)
    requires db.Open() && AllStored(db.cache, ts) && ids == RootIds(ts) && |ts| == |keys| + 1 && i < |keys|
    requires db.Live() == rest + ForestPages(ts) && Formed(ts[i]) && Formed(ts[i + 1])
    modifies db
    ensures db.meta.numPages <= old(db.meta.numPages) + 2
    ensures db.Past() == old(db.Past()) && db.Still() <= old(db.Still())
    ensures db.Open() && Deleted(old(db.cache), db.cache, db.Live(), rest, Del.Merge(keys, Shapes(ts), i), r, t)
    ensures !r.Missing? && (r.Rewritten? ==> r.id in db.books.mine)
  {
    hide Inv, DB.View, DB.Past, DB.Still, DB.Live, Kept, Stored, BodyStored, TreePages, BodyPages, PageOf, AllStored,
         ForestPages, Shape, NodeUsed, Del.Merge, Deleted, AroundPair, WithMid, JoinPages, PageUsed, PageCells,
         JoinTrees;
    t := PLeaf(0, []);
    PairKinds(db.cache, keys, ts, i);
    if db.cache[ids[i]].LeafPage? != db.cache[ids[i + 1]].LeafPage? {
      r := TooLarge;
      Refused(db.cache, db.Live(), rest, Del.Overflow, t);
      return;
    }
    ghost var m := JoinTrees(ts[i], keys[i], ts[i + 1]);
    SiblingPages(db.cache, ts, i, keys[i]);
    MergePlan(db.cache, keys, ts, i);
    var page := MergePages(db.cache[ids[i]], keys[i], db.cache[ids[i + 1]]);
    if PageUsed(page) > PAGE_SIZE {
      r := TooLarge;
      Refused(db.cache, db.Live(), rest, Del.Merge(keys, Shapes(ts), i), t);
      return;
    }
    ghost var c0 := db.cache;
    PairLive(ts, i, rest);
    var sib, child := if withLeft then ids[i] else ids[i + 1], if withLeft then ids[i + 1] else ids[i];
    assert multiset{child} + multiset{sib} == multiset{ids[i]} + multiset{ids[i + 1]};
    var merged := PlaceMerged(db, page, sib, child, m, rest + AroundPair(ts, i));
    ghost var c1 := db.cache;
    ghost var ts' := OneReplaced(c0, c1, ts, i, m, merged, rest);
    var ks, kids := RebuildParentForMerge(keys, ids, i, merged);
    var n := BuildNode(db, ks, kids, ts', rest);
    t := PNode(n, ks, ts');
    r := Rewritten(n);
    ParentDone(c0, c1, db.cache, db.Live(), rest, Del.Merge(keys, Shapes(ts), i), t);
  }

  lemma OneReplaced(c0: Store, c1: Store, ts: seq<PTree>, i: nat, m: PTree, n: PageId, rest: multiset<PageId>)
    returns (ts': seq<PTree>)
    requires i + 1 < |ts| && AllStored(c0, ts) && Kept(c0, c1, rest + AroundPair(ts, i)) && Stored(c1, m.(id := n))
    ensures AllStored(c1, ts') && Kept(c0, c1, rest)
    ensures rest + AroundPair(ts, i) + TreePages(m.(id := n)) == rest + ForestPages(ts')
    ensures Shapes(ts') == Shapes(ts)[..i] + ([Shape(m)] + Shapes(ts)[i + 2..])
    ensures RootIds(ts') == RootIds(ts)[..i] + ([n] + RootIds(ts)[i + 2..])
  {
    hide Kept, Stored, TreePages, ForestPages, Shape, AroundPair, WithMid;
    var m' := m.(id := n);
    Moved(m, n);
    ts' := WithMid(ts, i, [m']);
    WithMidPages(ts, i, [m']);
    ForestPagesOne(m');
    WithMidIs(ts, i, [m']);
    WithMidStored(c0, c1, ts, i, [m'], rest);
    KeptLess(c0, c1, rest + AroundPair(ts, i), rest);
    assert Shapes([m']) == [Shape(m)];
    assert RootIds([m']) == [n];
  }

  // ---- repair ----

  ghost predicate AllFormed(ts: seq<PTree>) { forall i :: 0 <= i < |ts| ==> Formed(ts[i]) }

  lemma DonorPage(c: Store, ts: seq<PTree>, i: nat)
    requires AllStored(c, ts) && i < |ts|
    ensures ts[i].id in c && PageCanDonate(c[ts[i].id]) == Del.CanDonate(Shape(ts[i]))
  {
    hide Shape, Stored, BodyStored, PageCanDonate, Del.CanDonate;
    StoredParts(c, ts[i]);
    Measures(c, ts[i]);
  }

  /** borrowForUnderfullChild, then mergeUnderfullChild. */
  method RepairChild(db: DB, keys: seq<Key>, ids: seq<PageId>, c: nat, ghost ts: seq<PTree>,
                     ghost rest: multiset<PageId>)
    returns (r: Outcome, ghost t: PTree)
    requires db.Open() && AllStored(db.cache, ts) && ids == RootIds(ts) && |ts| == |keys| + 1 && c < |ts|
    requires db.Live() == rest + ForestPages(ts) && AllFormed(ts) && ids[c] in db.books.mine
    modifies db
    ensures db.meta.numPages <= old(db.meta.numPages) + 2
    ensures db.Past() == old(db.Past()) && db.Still() <= old(db.Still())
    ensures db.Open() && Deleted(old(db.cache), db.cache, db.Live(), rest, Del.Repair(keys, Shapes(ts), c), r, t)
    ensures !r.Missing? && (r.Rewritten? ==> r.id in db.books.mine)
  {
    hide Inv, DB.View, DB.Past, DB.Still, DB.Live, AllStored, ForestPages, Shape, Del.Merge, Del.Rebalance, Deleted,
         PageCanDonate, Formed;
    if c > 0 {
      DonorPage(db.cache, ts, c - 1);
      if PageCanDonate(db.cache[ids[c - 1]]) {
        r, t := BorrowAt(db, keys, ids, c - 1, true, ts, rest);
        return;
      }
    }
    if c < |keys| {
      DonorPage(db.cache, ts, c + 1);
      if PageCanDonate(db.cache[ids[c + 1]]) {
        r, t := BorrowAt(db, keys, ids, c, false, ts, rest);
        return;
      }
    }
    if c > 0 {
      r, t := MergeAt(db, keys, ids, c - 1, true, ts, rest);
    } else if c < |keys| {
      r, t := MergeAt(db, keys, ids, c, false, ts, rest);
    } else {
      r, t := Rewritten(ids[c]), ts[c];
      HandedUp(db, ts, rest);
    }
  }

  /** An only child in place of its parent. */
  lemma HandedUp(db: DB, ts: seq<PTree>, rest: multiset<PageId>)
    requires db.Open() && |ts| == 1 && AllStored(db.cache, ts) && db.Live() == rest + ForestPages(ts)
    ensures Deleted(db.cache, db.cache, db.Live(), rest, Del.Done(Shape(ts[0])), Rewritten(ts[0].id), ts[0])
  {
    hide Inv, DB.View, DB.Live, Kept, Stored, ForestPages, TreePages, Shape;
    KeptSelf(db, rest, ForestPages(ts));
    assert ts == [ts[0]];
    ForestPagesOne(ts[0]);
  }

  // ---- one level ----

  lemma RowsWithout(store: Store, rows: seq<Row>, i: nat)
    requires RowsStored(store, rows) && i < |rows|
    ensures var t := PLeaf(0, rows[..i] + rows[i + 1..]);
      && BodyStored(store, t) && BodyPages(t) == LeafUpdate.OtherPages(rows, i, true)
      && PageOf(t) == LeafPage(Cells(rows)[..i] + Cells(rows)[i + 1..])
      && Shape(t) == Leaf(RowEntries(rows)[..i] + RowEntries(rows)[i + 1..])
  {
    hide RowStored, RowPages;
    RowPagesAppend(rows[..i], rows[i + 1..]);
    var left := rows[..i] + rows[i + 1..];
    assert RowEntries(left) == RowEntries(rows)[..i] + RowEntries(rows)[i + 1..];
    assert Cells(left) == Cells(rows)[..i] + Cells(rows)[i + 1..];
  }

  method DeleteFromLeaf(db: DB, id: PageId, key: Key, ghost t: PTree, ghost rest: multiset<PageId>, ghost q: Limits,
                        ghost lo: real, ghost hi: real)
    returns (r: Outcome, ghost l: PTree)
    requires db.Open() && Stored(db.cache, t) && t.PLeaf? && t.id == id && db.Live() == rest + RowPages(t.rows)
    requires Wf(Shape(t), q, 0, lo, hi)
    modifies db
    ensures db.meta.numPages <= old(db.meta.numPages) + 1
    ensures db.Past() == old(db.Past()) && db.Still() <= old(db.Still())
    ensures db.Open() && Deleted(old(db.cache), db.cache, db.Live(), rest, Del.DeleteNode(Shape(t), key), r, l)
    ensures r.Missing? ==> unchanged(db)
    ensures r.Rewritten? ==> r.id in db.books.mine
  {
    hide Inv, DB.View, DB.Past, DB.Still, DB.Live, Kept, RowsStored, Stored, Shape, TreePages, Rank, LeafSlot, Wf,
         RowPages, RowsFit, BodyStored, PageOf, BodyPages, LeafUpdate.OtherPages;
    StoredLeaf(db.cache, t);
    RootStored(db.cache, t);
    StoredFit(db.cache, t.rows);
    RowCosts(t.rows);
    LeafSorted(RowEntries(t.rows), q, 0, lo, hi);
    var cells := db.cache[id].cells;
    l := t;
    var idx, present := SearchLeaf(cells, key, RowEntries(t.rows));
    if !present {
      r := Missing;
      return;
    }
    RowAt(db.cache, t.rows, idx);
    LeafUpdate.PagesAround(t.rows, idx, true);
    RowsWithout(db.cache, t.rows, idx);
    ghost var x := PLeaf(0, t.rows[..idx] + t.rows[idx + 1..]);
    LeafUpdate.ReleaseChain(db, cells[idx], t.rows[idx], rest + LeafUpdate.OtherPages(t.rows, idx, true));
    var n := PlaceNew(db, LeafPage(cells[..idx] + cells[idx + 1..]), x, rest);
    l := PLeaf(n, x.rows);
    Moved(x, n);
    r := Rewritten(n);
  }

  /** The children of a page once child c has been rewritten. */
  ghost function WithKid(kids: seq<PTree>, c: nat, l: PTree): seq<PTree>
    requires c < |kids|
  {
    kids[..c] + ([l] + kids[c + 1..])
  }

  lemma KidReplaced(c0: Store, c1: Store, kids: seq<PTree>, c: nat, spec: Del.Result, l: PTree,
                    live: multiset<PageId>, rest: multiset<PageId>)
    requires AllStored(c0, kids) && c < |kids|
    requires Deleted(c0, c1, live + multiset{kids[c].id}, rest + Around(kids, c) + multiset{kids[c].id}, spec,
                     Rewritten(l.id), l)
    ensures AllStored(c1, WithKid(kids, c, l)) && Kept(c0, c1, rest) && live == rest + ForestPages(WithKid(kids, c, l))
    ensures Shapes(WithKid(kids, c, l)) == Del.WithChild(Shapes(kids), c, Shape(l)) && |WithKid(kids, c, l)| == |kids|
    ensures RootIds(WithKid(kids, c, l)) == RootIds(kids)[..c] + ([l.id] + RootIds(kids)[c + 1..])
    ensures WithKid(kids, c, l)[c] == l
  {
    hide Stored, Kept, ForestPages, Shape, TreePages, AllStored, Around, WithKid, Del.WithChild;
    var m := rest + Around(kids, c) + multiset{kids[c].id};
    KidShapes(kids, c, l);
    KidStored(c0, c1, kids, c, l, m);
    KidPages(kids, c, l);
    KeptLess(c0, c1, m, rest);
    Cancel(live, rest + Around(kids, c) + TreePages(l), multiset{kids[c].id});
  }

  lemma KidShapes(kids: seq<PTree>, c: nat, l: PTree)
    requires c < |kids|
    ensures Shapes(WithKid(kids, c, l)) == Del.WithChild(Shapes(kids), c, Shape(l)) && |WithKid(kids, c, l)| == |kids|
    ensures RootIds(WithKid(kids, c, l)) == RootIds(kids)[..c] + ([l.id] + RootIds(kids)[c + 1..])
    ensures WithKid(kids, c, l)[c] == l
  {
    hide Shape;
  }

  lemma KidStored(c0: Store, c1: Store, kids: seq<PTree>, c: nat, l: PTree, m: multiset<PageId>)
    requires AllStored(c0, kids) && c < |kids| && Kept(c0, c1, m) && Around(kids, c) <= m && Stored(c1, l)
    ensures AllStored(c1, WithKid(kids, c, l))
  {
    hide Stored, Kept, ForestPages;
    var a, b := kids[..c], kids[c + 1..];
    assert AllStored(c0, a) && AllStored(c0, b);
    AllStoredKept(c0, c1, a, m);
    AllStoredKept(c0, c1, b, m);
    AppendStored(c1, [l], b);
    AppendStored(c1, a, [l] + b);
  }

  lemma KidPages(kids: seq<PTree>, c: nat, l: PTree)
    requires c < |kids|
    ensures ForestPages(WithKid(kids, c, l)) == Around(kids, c) + TreePages(l)
  {
    hide ForestPages, TreePages;
    ForestPagesAppend(kids[..c], [l] + kids[c + 1..]);
    ForestPagesAppend([l], kids[c + 1..]);
    ForestPagesOne(l);
  }

  lemma FormedForest(keys: seq<Key>, ts: seq<PTree>, q: Limits, h: nat, lo: real, hi: real)
    requires Forest(keys, Shapes(ts), q, h, lo, hi)
    ensures AllFormed(ts)
  {
    hide Rank, Wf, Shape;
    forall i | 0 <= i < |ts| ensures Formed(ts[i]) {
      ForestChild(keys, Shapes(ts), q, h, lo, hi, i);
      TreeKind(ts[i], q, h, Lo(keys, i, lo), Hi(keys, i, hi));
    }
  }

  lemma ForestChild(keys: seq<Key>, kids: seq<Tree>, q: Limits, h: nat, lo: real, hi: real, i: nat)
    requires Forest(keys, kids, q, h, lo, hi) && i < |kids|
    ensures |kids| == |keys| + 1 && Wf(kids[i], q, h, Lo(keys, i, lo), Hi(keys, i, hi))
  {
    hide Rank, Wf;
  }

  lemma TreeKind(t: PTree, q: Limits, h: nat, lo: real, hi: real)
    requires Wf(Shape(t), q, h, lo, hi)
    ensures (t.PLeaf? <==> h == 0) && (t.PNode? ==> |t.kids| == |t.keys| + 1)
  {
    hide Rank, LeafUsed, NodeUsed;
    Del.KindOfHeight(Shape(t), q, h, lo, hi);
    if t.PNode? {
      ShapeNode(t);
      WfNode(t.keys, Shapes(t.kids), q, h, lo, hi, 0);
    }
  }

  /** The node above a child whose delete succeeded: kept, or repaired if the child is underfull. */
  method RebuildAbove(db: DB, keys: seq<Key>, ids: seq<PageId>, c: nat, ghost ts: seq<PTree>,
                      ghost rest: multiset<PageId>)
    returns (r: Outcome, ghost t: PTree)
    requires db.Open() && AllStored(db.cache, ts) && ids == RootIds(ts) && |ts| == |keys| + 1 && c < |ts|
    requires db.Live() == rest + ForestPages(ts) && AllFormed(ts) && ids[c] in db.books.mine
    modifies db
    ensures db.meta.numPages <= old(db.meta.numPages) + 2
    ensures db.Past() == old(db.Past()) && db.Still() <= old(db.Still())
    ensures db.Open() && !r.Missing? && (r.Rewritten? ==> r.id in db.books.mine)
    ensures Deleted(old(db.cache), db.cache, db.Live(), rest,
                    if !Del.Underfull(Shape(ts[c])) then Del.Done(Node(keys, Shapes(ts)))
                        else Del.Repair(keys, Shapes(ts), c), r, t)
  {
    hide Inv, DB.View, DB.Past, DB.Still, DB.Live, Kept, AllStored, ForestPages, Shape, Del.Repair, Deleted,
         Del.Underfull, PageUnderfull, AllFormed, Stored, TreePages;
    ChildPage(db.cache, ts, c);
    if PageUnderfull(db.cache[ids[c]]) {
      r, t := RepairChild(db, keys, ids, c, ts, rest);
      return;
    }
    ghost var c0 := db.cache;
    KeptSelf(db, rest, ForestPages(ts));
    var n := BuildNode(db, keys, ids, ts, rest);
    t := PNode(n, keys, ts);
    r := Rewritten(n);
    ParentDone(c0, c0, db.cache, db.Live(), rest, Del.Done(Node(keys, Shapes(ts))), t);
  }

  lemma KeptSelf(db: DB, rest: multiset<PageId>, m: multiset<PageId>)
    requires db.Open() && db.Live() == rest + m
    ensures Kept(db.cache, db.cache, rest)
  {
    hide Inv, DB.View, DB.Past, DB.Still, DB.Live, Kept;
    KeptAll(db);
    KeptLess(db.cache, db.cache, rest + m, rest);
  }

  lemma ChildPage(c: Store, ts: seq<PTree>, i: nat)
    requires AllStored(c, ts) && i < |ts|
    ensures ts[i].id in c && PageUnderfull(c[ts[i].id]) == Del.Underfull(Shape(ts[i]))
  {
    hide Shape, Stored, BodyStored, PageUnderfull, Del.Underfull;
    StoredParts(c, ts[i]);
    Measures(c, ts[i]);
  }

  /** delete: descend to the leaf, then rewrite page after page on the way back. The page it was called
      on is left in place for the caller to free. */
  method DeleteNode(db: DB, id: PageId, key: Key, ghost t: PTree, ghost rest: multiset<PageId>,
                    ghost q: Limits, ghost h: nat, ghost lo: real, ghost hi: real)
    returns (r: Outcome, ghost l: PTree)
    requires db.Open() && Stored(db.cache, t) && t.id == id && db.Live() == rest + TreePages(t)
    requires Wf(Shape(t), q, h, lo, hi) && lo <= Rank(key) < hi
    modifies db
    ensures db.meta.numPages <= old(db.meta.numPages) + 1 + 2 * h
    ensures db.Past() == old(db.Past()) && db.Still() <= old(db.Still())
    ensures db.Open()
    ensures Deleted(old(db.cache), db.cache, db.Live(), rest + multiset{id}, Del.DeleteNode(Shape(t), key), r, l)
    ensures r.Missing? ==> unchanged(db)
    ensures r.Rewritten? ==> r.id in db.books.mine
    decreases h
  {
    hide Inv, DB.View, DB.Past, DB.Still, DB.Live, Kept, AllStored, Stored, TreePages, ForestPages, Shape, Deleted,
         NodeUsed, Del.DeleteNode, Del.Repair, Rank, Wf, Forest, ChildSlot, Around, WithKid, FreeStep, Del.Underfull,
         AllFormed, Del.WithChild;
    RootStored(db.cache, t);
    if db.cache[id].LeafPage? {
      LeafPages(t);
      LeafHeight(t, q, h, lo, hi, db.cache);
      r, l := DeleteFromLeaf(db, id, key, t, rest + multiset{id}, q, lo, hi);
    } else {
      NodePages(db.cache, t);
      var keys, kids := db.cache[id].keys, db.cache[id].kids;
      ghost var c0 := db.cache;
      ghost var slot := NodeReady(t, q, h, lo, hi, key);
      var c := SearchInternal(keys, key);
      StoredNode(db.cache, t, c);
      ForestAround(t.kids, c);
      ghost var kid, around := t.kids[c], Around(t.kids, c);
      assert rest + (multiset{id} + (around + TreePages(kid))) == (rest + multiset{id} + around) + TreePages(kid);
      r, l := DeleteNode(db, kids[c], key, kid, rest + multiset{id} + around, q, h - 1, Lo(keys, c, lo),
                         Hi(keys, c, hi));
      if !r.Rewritten? {
        SameOutcome(c0, db.cache, db.Live(), rest + multiset{id} + around + multiset{kid.id}, rest + multiset{id},
                    Del.DeleteNode(Shape(kid), key), r, l);
        return;
      }
      ghost var spec := Del.DeleteNode(Shape(kid), key);
      OldKidLive(db, c0, rest + multiset{id} + around, spec, r, l, kid.id);
      db.FreePage(kids[c]);
      KidReplaced(c0, db.cache, t.kids, c, spec, l, db.Live(), rest + multiset{id});
      ghost var ts := WithKid(t.kids, c, l);
      AboveReady(t, q, h, lo, hi, key, l);
      ghost var c1 := db.cache;
      r, l := RebuildAbove(db, keys, kids[..c] + ([r.id] + kids[c + 1..]), c, ts, rest + multiset{id});
      AboveDone(c0, c1, db.cache, db.Live(), rest + multiset{id}, Del.DeleteNode(Shape(t), key), r, l);
    }
  }

  lemma NodeReady(t: PTree, q: Limits, h: nat, lo: real, hi: real, key: Key) returns (c: nat)
    requires t.PNode? && Wf(Shape(t), q, h, lo, hi) && lo <= Rank(key) < hi
    ensures Increasing(t.keys) && c == ChildSlot(t.keys, key) && |t.kids| == |t.keys| + 1 && c < |t.kids| && h > 0
    ensures Wf(Shape(t.kids[c]), q, h - 1, Lo(t.keys, c, lo), Hi(t.keys, c, hi))
    ensures Lo(t.keys, c, lo) <= Rank(key) < Hi(t.keys, c, hi)
    ensures !Del.DeleteNode(Shape(t.kids[c]), key).Done? ==>
              Del.DeleteNode(Shape(t), key) == Del.DeleteNode(Shape(t.kids[c]), key)
  {
    hide Rank, Wf, Forest, ChildSlot, Del.DeleteNode, Shape, Del.Repair, Del.Underfull, Del.WithChild;
    ShapeNode(t);
    var keys, shapes := t.keys, Shapes(t.kids);
    WfNode(keys, shapes, q, h, lo, hi, 0);
    SeparatorFacts(keys, q, lo, hi);
    ChildSlotRange(keys, key, q, lo, hi);
    c := ChildSlot(keys, key);
    WfNode(keys, shapes, q, h, lo, hi, c);
    Del.UnfoldDelete(keys, shapes, key);
  }

  lemma AboveReady(t: PTree, q: Limits, h: nat, lo: real, hi: real, key: Key, l: PTree)
    requires t.PNode? && Wf(Shape(t), q, h, lo, hi) && lo <= Rank(key) < hi
    requires var c := ChildSlot(t.keys, key);
      c < |t.kids| && Del.DeleteNode(Shape(t.kids[c]), key) == Del.Done(Shape(l))
    ensures |t.kids| == |t.keys| + 1
    ensures var c := ChildSlot(t.keys, key);
      var ts := WithKid(t.kids, c, l);
      && AllFormed(ts)
      && Del.DeleteNode(Shape(t), key) ==
         if !Del.Underfull(Shape(l)) then Del.Done(Node(t.keys, Del.WithChild(Shapes(t.kids), c, Shape(l))))
         else Del.Repair(t.keys, Del.WithChild(Shapes(t.kids), c, Shape(l)), c)
  {
    hide Rank, Wf, Forest, ChildSlot, Del.DeleteNode, Shape, Del.Repair, Del.Underfull, AllFormed, Trees.Entries,
         Remove, Has;
    var c := NodeReady(t, q, h, lo, hi, key);
    ShapeNode(t);
    var keys, shapes := t.keys, Shapes(t.kids);
    WfNode(keys, shapes, q, h, lo, hi, c);
    Del.UnfoldDelete(keys, shapes, key);
    Del.DeleteTakes(shapes[c], q, h - 1, Lo(keys, c, lo), Hi(keys, c, hi), key);
    FormedShape(l);
    FormedForest(keys, t.kids, q, h - 1, lo, hi);
    KidFormed(t.kids, c, l);
  }

  lemma FormedShape(l: PTree)
    requires Del.Regular(Shape(l))
    ensures Formed(l)
  {
    if l.PNode? { ShapeNode(l); }
    hide Shape;
  }

  lemma KidFormed(kids: seq<PTree>, c: nat, l: PTree)
    requires c < |kids| && AllFormed(kids) && Formed(l)
    ensures AllFormed(WithKid(kids, c, l))
  {
    hide Formed;
  }

  lemma SameOutcome(c0: Store, c1: Store, live: multiset<PageId>, rest: multiset<PageId>, rest': multiset<PageId>,
                    spec: Del.Result, r: Outcome, l: PTree)
    requires Deleted(c0, c1, live, rest, spec, r, l) && !r.Rewritten?
    ensures !spec.Done? && Deleted(c0, c1, live, rest', spec, r, l)
  {
  }

  lemma OldKidLive(db: DB, c0: Store, rest: multiset<PageId>, spec: Del.Result, r: Outcome, l: PTree, id: PageId)
    requires db.Open() && r.Rewritten? && Deleted(c0, db.cache, db.Live(), rest + multiset{id}, spec, r, l)
    ensures id in db.books.live && id != r.id && spec == Del.Done(Shape(l)) && l.id == r.id
  {
    hide Inv, DB.View, DB.Past, DB.Still, Kept, Stored, Shape;
    LiveCached(db);
    PagesParts(l);
    assert db.Live()[id] == rest[id] + 1 + TreePages(l)[id];
    assert TreePages(l)[l.id] >= 1;
  }

  lemma AboveDone(c0: Store, c1: Store, c2: Store, live: multiset<PageId>, rest: multiset<PageId>, spec: Del.Result,
                  r: Outcome, t: PTree)
    requires Kept(c0, c1, rest) && Deleted(c1, c2, live, rest, spec, r, t)
    ensures Deleted(c0, c2, live, rest, spec, r, t)
  {
    hide Stored, Kept, TreePages, Shape;
    if r.Rewritten? { KeptTrans(c0, c1, c2, rest, rest); }
  }
}
