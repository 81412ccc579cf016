/** The bulk loader on pages: the right spine is kept open and filled in place. */
module BulkLoads {
  import opened Keys
  import opened OrderedMap
  import opened Layout
  import opened Trees
  import TB = TreeBulk
  import opened KeyOrder
  import Hist = TreeHistory
  import opened Pages
  import opened Protocol
  import opened Transactions
  import opened Placed
  import opened PageSearch
  import Overflow
  import LeafUpdate
  import NodeUpdate
  import NodeDelete
  import PagePairs
  import opened BTrees
  import Seqs

  /** An open internal page of the spine; its rightmost child is the spine page one level down. */
  datatype PLevel = PLevel(id: PageId, keys: seq<Key>, kids: seq<PTree>)

  ghost function Levels(up: seq<PLevel>): (ls: seq<TB.Level>)
    ensures |ls| == |up|
  {
    if up == [] then [] else [TB.Level(up[0].keys, Shapes(up[0].kids))] + Levels(up[1..])
  }

  ghost function LevelIds(up: seq<PLevel>): (ids: seq<PageId>)
    ensures |ids| == |up|
  {
    if up == [] then [] else [up[0].id] + LevelIds(up[1..])
  }

  ghost function LevelPages(up: seq<PLevel>): multiset<PageId> {
    if up == [] then multiset{} else multiset{up[0].id} + ForestPages(up[0].kids) + LevelPages(up[1..])
  }

  ghost predicate LevelsStored(c: Store, up: seq<PLevel>, child: PageId)
    decreases |up|
  {
    up == [] ||
    (&& up[0].id in c && c[up[0].id] == InternalPage(up[0].keys, RootIds(up[0].kids) + [child])
     && |up[0].kids| == |up[0].keys| && AllStored(c, up[0].kids) && LevelsStored(c, up[1..], up[0].id))
  }

  lemma {:induction false} LevelsKept(c0: Store, c1: Store, up: seq<PLevel>, child: PageId, m: multiset<PageId>)
    requires LevelsStored(c0, up, child) && Kept(c0, c1, m) && LevelPages(up) <= m
    ensures LevelsStored(c1, up, child)
    decreases |up|
  {
    hide AllStored, ForestPages;
    if up != [] {
      assert up[0].id in LevelPages(up);
      AllStoredKept(c0, c1, up[0].kids, m);
      LevelsKept(c0, c1, up[1..], up[0].id, m);
    }
  }

  lemma {:induction false} LevelsCached(c: Store, up: seq<PLevel>, child: PageId)
    requires LevelsStored(c, up, child)
    ensures forall p :: p in LevelPages(up) ==> p in c
    decreases |up|
  {
    hide AllStored, ForestPages;
    if up != [] {
      ForestPagesCached(c, up[0].kids);
      LevelsCached(c, up[1..], up[0].id);
    }
  }

  lemma LevelsElsewhere(c: Store, n: PageId, page: Page, up: seq<PLevel>, child: PageId)
    requires LevelsStored(c, up, child) && LevelPages(up)[n] == 0
    ensures LevelsStored(c[n := page], up, child)
  {
    hide LevelsStored, LevelPages;
    LevelsCached(c, up, child);
    KeptUpdate(c, n, page, LevelPages(up));
    LevelsKept(c, c[n := page], up, child, LevelPages(up));
  }

  // one level at a time

  lemma TopLevel(c: Store, up: seq<PLevel>, child: PageId)
    requires LevelsStored(c, up, child) && up != []
    ensures up[0].id in c && c[up[0].id] == InternalPage(up[0].keys, RootIds(up[0].kids) + [child])
            && |up[0].kids| == |up[0].keys|
    ensures AllStored(c, up[0].kids) && LevelsStored(c, up[1..], up[0].id)
    ensures LevelPages(up) == multiset{up[0].id} + ForestPages(up[0].kids) + LevelPages(up[1..])
    ensures LevelIds(up) == [up[0].id] + LevelIds(up[1..]) && LevelIds(up)[1..] == LevelIds(up[1..])
    ensures Levels(up) == [TB.Level(up[0].keys, Shapes(up[0].kids))] + Levels(up[1..])
            && Levels(up)[1..] == Levels(up[1..])
  {
  }

  lemma PutLevel(c: Store, lv: PLevel, up: seq<PLevel>, child: PageId)
    requires lv.id in c && c[lv.id] == InternalPage(lv.keys, RootIds(lv.kids) + [child]) && |lv.kids| == |lv.keys|
    requires AllStored(c, lv.kids) && LevelsStored(c, up, lv.id)
    ensures LevelsStored(c, [lv] + up, child)
    ensures LevelPages([lv] + up) == multiset{lv.id} + ForestPages(lv.kids) + LevelPages(up)
    ensures LevelIds([lv] + up) == [lv.id] + LevelIds(up)
    ensures Levels([lv] + up) == [TB.Level(lv.keys, Shapes(lv.kids))] + Levels(up)
  {
    assert ([lv] + up)[1..] == up;
  }

  lemma NoLevels(c: Store, child: PageId)
    ensures LevelsStored(c, [], child) && LevelPages([]) == multiset{} && LevelIds([]) == [] && Levels([]) == []
  {
  }

  predicate RollPage(keys: seq<Key>, sep: Key, target: nat) {
    |keys| != 0 && (PAGE_SIZE - NodeUsed(keys) < InternalCellSize(sep) + 2
                    || NodeUsed(keys) + InternalCellSize(sep) + 2 > target)
  }

  lemma RollAgrees(keys: seq<Key>, sep: Key, target: nat)
    ensures RollPage(keys, sep, target) == TB.RollInternal(keys, sep, target)
  {
    hide NodeUsed;
  }

  /** What promote promises for the levels from here up. */
  ghost predicate Promoted(c0: Store, c1: Store, live: multiset<PageId>, rest: multiset<PageId>, newChild: PageId,
                           ids: seq<PageId>, up: seq<PLevel>) {
    && LevelsStored(c1, up, newChild) && LevelIds(up) == ids && live == rest + LevelPages(up) && Kept(c0, c1, rest)
  }

  ghost predicate AllMine(ids: seq<PageId>, mine: set<PageId>) {
    forall i :: 0 <= i < |ids| ==> ids[i] in mine
  }

  /** promote: the child at this level is complete. It joins the page above, or, if that page is full, the
      page is complete as well, and an empty page takes its place on the spine. */
  method Promote(db: DB, ids: seq<PageId>, oldChild: PageId, sep: Key, newChild: PageId, target: nat,
                 ghost up: seq<PLevel>, ghost l: PTree, ghost rest: multiset<PageId>)
    returns (ids': seq<PageId>, ghost up': seq<PLevel>)
    requires db.Open() && Stored(db.cache, l) && l.id == oldChild && LevelsStored(db.cache, up, oldChild)
             && ids == LevelIds(up)
    requires AllMine(ids, db.books.mine) && db.Live() == rest + (TreePages(l) + LevelPages(up))
    modifies db
    ensures db.meta.numPages <= old(db.meta.numPages) + |ids| + 1 && |ids'| <= |ids| + 1
    ensures db.Open() && db.Past() == old(db.Past()) && old(db.books.mine) <= db.books.mine
            && AllMine(ids', db.books.mine)
    ensures Promoted(old(db.cache), db.cache, db.Live(), rest, newChild, ids', up')
    ensures Levels(up') == TB.Promote(Levels(up), Shape(l), sep, target)
    decreases |ids|
  {
    hide Inv, DB.View, DB.Past, DB.Live, Kept, Stored, AllStored, LevelsStored, LevelPages, LevelIds, Levels,
         TreePages, ForestPages, Shape, TB.Promote, NodeUsed, WriteStep, AllocatedFrom, Promoted, RollPage;
    if |ids| == 0 {
      ids', up' := NewTop(db, oldChild, sep, newChild, target, l, rest);
      return;
    }
    TopLevel(db.cache, up, oldChild);
    RollAgrees(up[0].keys, sep, target);
    UnfoldPromote(Levels(up), Shape(l), sep, target);
    ghost var c0 := db.cache;
    var cur := db.cache[ids[0]];
    assert cur.kids[|cur.keys|] == oldChild;
    if RollPage(cur.keys, sep, target) {
      ghost var node := PNode(ids[0], up[0].keys, up[0].kids + [l]);
      LevelClosed(c0, up, l, rest);
      var n := db.AllocatePage();
      ghost var c1 := db.cache;
      LiveCached(db);
      db.Write(n, InternalPage([], [newChild]));
      FreshLevel(c0, c1, node, up[1..], n, newChild, rest);
      ghost var c2 := db.cache;
      var more;
      ghost var upper;
      more, upper := Promote(db, ids[1..], ids[0], sep, n, target, up[1..], node, rest + multiset{n});
      ids', up' := [n] + more, [PLevel(n, [], [])] + upper;
      RolledOver(c0, c2, db.cache, db.Live(), rest, n, newChild, more, upper);
    } else {
      LiveCached(db);
      var nCells := |cur.keys|;
      db.Write(ids[0], InternalPage(cur.keys + [sep], cur.kids[..nCells] + [oldChild] + [newChild]));
      up' := [PLevel(ids[0], up[0].keys + [sep], up[0].kids + [l])] + up[1..];
      ids' := ids;
      JoinedHere(c0, db.Live(), rest, up, l, sep, newChild);
    }
  }

  lemma UnfoldPromote(up: seq<TB.Level>, l: Tree, sep: Key, target: nat)
    requires up != []
    ensures TB.Promote(up, l, sep, target) ==
            if TB.RollInternal(up[0].keys, sep, target) then
              [TB.Level([], [])] + TB.Promote(up[1..], Node(up[0].keys, up[0].kids + [l]), sep, target)
            else [TB.Level(up[0].keys + [sep], up[0].kids + [l])] + up[1..]
  {
    hide NodeUsed;
  }

  /** A new level on top of the spine. */
  method NewTop(db: DB, oldChild: PageId, sep: Key, newChild: PageId, target: nat, ghost l: PTree,
                ghost rest: multiset<PageId>)
    returns (ids: seq<PageId>, ghost up: seq<PLevel>)
    requires db.Open() && Stored(db.cache, l) && l.id == oldChild && db.Live() == rest + (TreePages(l) + LevelPages([]))
    modifies db
    ensures db.meta.numPages <= old(db.meta.numPages) + 1 && |ids| == 1
    ensures db.Open() && db.Past() == old(db.Past()) && old(db.books.mine) <= db.books.mine
            && AllMine(ids, db.books.mine)
    ensures Promoted(old(db.cache), db.cache, db.Live(), rest, newChild, ids, up)
    ensures Levels(up) == TB.Promote([], Shape(l), sep, target)
  {
    hide Inv, DB.View, DB.Past, DB.Live, Kept, Stored, AllStored, LevelsStored, LevelIds, Levels, TreePages,
         ForestPages, Shape, WriteStep, AllocatedFrom;
    ghost var c0 := db.cache;
    assert rest + (TreePages(l) + LevelPages([])) == rest + TreePages(l);
    var n := db.AllocatePage();
    ghost var c1 := db.cache;
    LiveCached(db);
    db.Write(n, InternalPage([sep], [oldChild, newChild]));
    ids, up := [n], [PLevel(n, [sep], [l])];
    NewTopOk(c0, c1, n, sep, l, newChild, rest);
  }

  lemma NewTopOk(c0: Store, c1: Store, n: PageId, sep: Key, l: PTree, newChild: PageId, rest: multiset<PageId>)
    requires Stored(c0, l) && Kept(c0, c1, rest + TreePages(l))
             && forall p :: (rest + TreePages(l) + multiset{n})[p] <= 1
    ensures var up := [PLevel(n, [sep], [l])];
      && Promoted(c0, c1[n := InternalPage([sep], [l.id, newChild])], rest + TreePages(l) + multiset{n}, rest,
                  newChild, [n], up)
      && Levels(up) == [TB.Level([sep], [Shape(l)])]
  {
    hide Kept, Stored, TreePages, ForestPages, Shape, AllStored, LevelsStored, LevelPages, Levels, LevelIds;
    var page := InternalPage([sep], [l.id, newChild]);
    NodeUpdate.FreshPage(rest, TreePages(l), n);
    StoredKept(c0, c1, l, rest + TreePages(l));
    LeafUpdate.LeafElsewhere(c1, n, page, l);
    OneStored(c1[n := page], l);
    NoLevels(c1[n := page], n);
    PutLevel(c1[n := page], PLevel(n, [sep], [l]), [], newChild);
    Seqs.Empty([PLevel(n, [sep], [l])]);
    NodeUpdate.KeptFresh(c0, c1, rest, TreePages(l), n, page);
  }

  lemma OneStored(c: Store, l: PTree)
    requires Stored(c, l)
    ensures AllStored(c, [l]) && RootIds([l]) == [l.id] && ForestPages([l]) == TreePages(l) && Shapes([l]) == [Shape(l)]
  {
    ForestPagesOne(l);
    hide Stored, TreePages, ForestPages, Shape;
  }

  /** A level closed with its last child is a subtree of its own. */
  lemma LevelClosed(c: Store, up: seq<PLevel>, l: PTree, rest: multiset<PageId>)
    requires up != [] && LevelsStored(c, up, l.id) && Stored(c, l)
    ensures var node := PNode(up[0].id, up[0].keys, up[0].kids + [l]);
      && Stored(c, node) && Shape(node) == Node(up[0].keys, Shapes(up[0].kids) + [Shape(l)])
      && rest + (TreePages(l) + LevelPages(up)) == rest + (TreePages(node) + LevelPages(up[1..]))
  {
    hide Stored, TreePages, ForestPages, Shape, AllStored, LevelsStored, LevelPages, Levels, LevelIds;
    TopLevel(c, up, l.id);
    OneStored(c, l);
    var kids := up[0].kids;
    NodeUpdate.AppendStored(c, kids, [l]);
    NodeUpdate.StoredFrom(c, up[0].id, up[0].keys, kids + [l]);
    NodeUpdate.TreePagesNode(up[0].id, up[0].keys, kids + [l]);
    ForestPagesAppend(kids, [l]);
    ShapeNode(PNode(up[0].id, up[0].keys, kids + [l]));
    ShapesAppend(kids, [l]);
  }

  /** An empty page has been put on the spine in its place. */
  lemma FreshLevel(c0: Store, c1: Store, node: PTree, up: seq<PLevel>, n: PageId, newChild: PageId,
                   rest: multiset<PageId>)
    requires Stored(c0, node) && LevelsStored(c0, up, node.id)
    requires var m := TreePages(node) + LevelPages(up);
               Kept(c0, c1, rest + m) && forall p :: (rest + m + multiset{n})[p] <= 1
    ensures var c2 := c1[n := InternalPage([], [newChild])];
      && Stored(c2, node) && LevelsStored(c2, up, node.id) && Kept(c0, c2, rest) && rest[n] == 0
    ensures rest + (TreePages(node) + LevelPages(up)) + multiset{n} ==
            rest + multiset{n} + (TreePages(node) + LevelPages(up))
  {
    hide Kept, Stored, TreePages, LevelsStored, LevelPages;
    var m := TreePages(node) + LevelPages(up);
    var page := InternalPage([], [newChild]);
    NodeUpdate.FreshPage(rest, m, n);
    assert m[n] == TreePages(node)[n] + LevelPages(up)[n];
    StoredKept(c0, c1, node, rest + m);
    LevelsKept(c0, c1, up, node.id, rest + m);
    LeafUpdate.LeafElsewhere(c1, n, page, node);
    LevelsElsewhere(c1, n, page, up, node.id);
    NodeUpdate.KeptFresh(c0, c1, rest, m, n, page);
  }

  lemma RolledOver(c0: Store, c2: Store, c3: Store, live: multiset<PageId>, rest: multiset<PageId>, n: PageId,
                   newChild: PageId, ids: seq<PageId>, up: seq<PLevel>)
    requires Promoted(c2, c3, live, rest + multiset{n}, n, ids, up) && Kept(c0, c2, rest)
    requires n in c2 && c2[n] == InternalPage([], [newChild])
    ensures Promoted(c0, c3, live, rest, newChild, [n] + ids, [PLevel(n, [], [])] + up)
    ensures Levels([PLevel(n, [], [])] + up) == [TB.Level([], [])] + Levels(up)
  {
    hide Kept, LevelsStored, LevelPages, Levels, LevelIds, ForestPages;
    NodeDelete.KeptPage(c2, c3, rest + multiset{n}, n);
    NodeUpdate.KeptLess(c2, c3, rest + multiset{n}, rest);
    KeptTrans(c0, c2, c3, rest, rest);
    EmptyForest(c3, newChild);
    PutLevel(c3, PLevel(n, [], []), up, newChild);
    assert Shapes([]) == [];
  }

  lemma EmptyForest(c: Store, x: PageId)
    ensures AllStored(c, []) && ForestPages([]) == multiset{} && RootIds([]) + [x] == [x]
  {
  }

  /** The page above had room: the child joins it in place. */
  lemma JoinedHere(c: Store, live: multiset<PageId>, rest: multiset<PageId>, up: seq<PLevel>, l: PTree, sep: Key,
                   newChild: PageId)
    requires up != [] && LevelsStored(c, up, l.id) && Stored(c, l) && live == rest + (TreePages(l) + LevelPages(up))
             && forall p :: live[p] <= 1
    requires forall p :: p in rest ==> p in c
    ensures var lv := PLevel(up[0].id, up[0].keys + [sep], up[0].kids + [l]);
      var ids := RootIds(up[0].kids) + [l.id];
      var c1 := c[up[0].id := InternalPage(up[0].keys + [sep], ids[..|up[0].keys|] + [l.id] + [newChild])];
      && |up[0].keys| == |up[0].kids|
      && Promoted(c, c1, live, rest, newChild, LevelIds(up), [lv] + up[1..])
      && Levels([lv] + up[1..]) == [TB.Level(up[0].keys + [sep], Shapes(up[0].kids) + [Shape(l)])] + Levels(up[1..])
  {
    hide Kept, Stored, TreePages, ForestPages, Shape, AllStored, LevelsStored, LevelPages, Levels, LevelIds;
    TopLevel(c, up, l.id);
    OneStored(c, l);
    var id, kids := up[0].id, up[0].kids;
    var lv := PLevel(id, up[0].keys + [sep], kids + [l]);
    JoinedIds(kids, l, newChild);
    var page := InternalPage(up[0].keys + [sep], RootIds(kids + [l]) + [newChild]);
    HereOnce(rest, TreePages(l), ForestPages(kids), LevelPages(up[1..]), id);
    NodeUpdate.ForestElsewhere(c, id, page, kids);
    NodeUpdate.ForestElsewhere(c, id, page, [l]);
    NodeUpdate.AppendStored(c[id := page], kids, [l]);
    LevelsElsewhere(c, id, page, up[1..], id);
    ForestPagesAppend(kids, [l]);
    ShapesAppend(kids, [l]);
    PutLevel(c[id := page], lv, up[1..], newChild);
    KeptUpdate(c, id, page, rest);
    assert live == rest + LevelPages([lv] + up[1..]);
  }

  lemma JoinedIds(kids: seq<PTree>, l: PTree, x: PageId)
    ensures RootIds(kids + [l]) == RootIds(kids) + [l.id]
    ensures (RootIds(kids) + [l.id])[..|kids|] + [l.id] + [x] == RootIds(kids + [l]) + [x]
  {
  }

  lemma HereOnce(rest: multiset<PageId>, a: multiset<PageId>, b: multiset<PageId>, c: multiset<PageId>, id: PageId)
    requires forall p :: (rest + (a + (multiset{id} + b + c)))[p] <= 1
    ensures rest[id] == 0 && a[id] == 0 && b[id] == 0 && c[id] == 0
  {
    assert (rest + (a + (multiset{id} + b + c)))[id] == rest[id] + a[id] + 1 + b[id] + c[id];
  }

  // ---- the loader ----

  datatype Reply = Ok | Finished | TooBig | KeyOrder

  /** Two empty keys in a row: both are accepted, and the list is not sorted. */
  lemma EmptyKeyTwice(v: Bytes, w: Bytes, target: nat)
    requires TB.Target(target) && Inline([], v) && Inline([], w) && |v| <= 500 && |w| <= 500
    ensures InOrder([], [])
    ensures var s := TB.AppendAll(TB.Empty, [Entry([], v), Entry([], w)], target);
      TB.Contents(s) == [Entry([], v), Entry([], w)] && !Sorted(TB.Contents(s))
  {
    hide Rank;
    var a, b := Entry([], v), Entry([], w);
    assert [a, b][1..] == [b] && [b][1..] == [];
    var s1 := TB.Append(TB.Empty, a, target);
    TB.MoreEntries([], a);
    assert EntryCosts([]) == [];
    assert [] + [a] == [a];
    assert TB.AppendAll(TB.Empty, [a, b], target) == TB.AppendAll(s1, [b], target) == TB.Append(s1, b, target);
    var es := [a] + [b];
    assert TB.Listed([]) == [];
    assert es[0].key == es[1].key;
  }

  class BulkLoader {
    const bt: BTree
    const targetUsed: nat
    var spine: seq<PageId>
    var lastKey: Key
    var finished: bool
    ghost var rows: seq<Row>
    ghost var up: seq<PLevel>

    ghost function Spine(): TB.Spine
      reads this
    {
      if spine == [] then TB.Empty else TB.Open(RowEntries(rows), Levels(up))
    }

    ghost function Pages(): multiset<PageId>
      reads this
    {
      if spine == [] then multiset{} else multiset{spine[0]} + RowPages(rows) + LevelPages(up)
    }

    /** Until it is finished, the loader is loading. */
    ghost predicate Valid(rest: multiset<PageId>)
      reads this, bt, bt.db
    {
      !finished ==> Loading(rest)
    }

    /** Everything appended so far is in key order, and every page within the fill target. */
    ghost predicate Ordered()
      reads this
    {
      TB.SpineOk(Spine(), ANY, targetUsed)
    }

    /** What was appended so far. */
    ghost function Loaded(): seq<Entry>
      reads this
    {
      TB.Contents(Spine())
    }

    /** Each spine page's rightmost child is the spine page one level down, and the top one has a separator; the
        spine's pages are the transaction's own; the tree is still empty. */
    ghost predicate Loading(rest: multiset<PageId>)
      reads this, bt, bt.db
    {
      && bt.root == 0 && bt.db.Open() && bt.db.Live() == rest + Pages()
      && (spine != [] ==>
            && SpineStored(bt.db.cache, bt.db.books.mine, spine, rows, up) && TB.Topped(Levels(up))
            && rows != [] && lastKey == rows[|rows| - 1].key)
      && (spine == [] ==> lastKey == [])
    }

    constructor (bt: BTree, targetUsed: nat)
      requires bt.root == 0
      ensures this.bt == bt && this.targetUsed == targetUsed && spine == [] && !finished && lastKey == [] && Ordered()
              && Loaded() == []
    {
      this.bt, this.targetUsed := bt, targetUsed;
      spine, lastKey, finished, rows, up := [], [], false, [], [];
    }

    /** Append: the errors in the order the program tests for them. An accepted entry goes to the end of the
        list, by one step of the spine; the list stays in order, unless both keys are empty. */
    method Append(key: Key, value: Bytes, ghost rest: multiset<PageId>) returns (r: Reply)
      requires Valid(rest) && TB.Target(targetUsed)
      modifies this, bt.db
      ensures bt.db.meta.numPages <= old(bt.db.meta.numPages) + ValuePages(value) + old(|spine|) + 1
      ensures |spine| <= old(|spine|) + 1
      ensures Valid(rest) && finished == old(finished) && bt.db.Past() == old(bt.db.Past())
      ensures !finished ==> Kept(old(bt.db.cache), bt.db.cache, rest)
      ensures r == if finished then Finished else if |key| > MAX_KEY then TooBig
              else if !InOrder(old(lastKey), key) then KeyOrder else Ok
      ensures r != Ok ==> unchanged(this) && unchanged(bt.db)
      ensures r == Ok ==> Spine() == TB.Append(old(Spine()), Entry(key, value), targetUsed) && lastKey == key
      ensures r == Ok ==> Loaded() == old(Loaded()) + [Entry(key, value)] && spine != []
      ensures r == Ok && old(Ordered()) && (old(spine) == [] || old(lastKey) != [] || key != []) ==> Ordered()
    {
      hide Inv, DB.View, DB.Past, DB.Live, Kept, Levels, LevelPages, RowPages, TB.Append, SpineStored, Compare,
           Storable, TB.SpineOk, TB.Contents, InOrder, Rank, ValuePages;
      ghost var s := Spine();
      AnyStorable(Entry(key, value));
      r := AppendPage(key, value, rest);
      if r == Ok { AppendStep(s, old(lastKey), Entry(key, value), targetUsed); }
    }

    method AppendPage(key: Key, value: Bytes, ghost rest: multiset<PageId>) returns (r: Reply)
      requires Valid(rest) && TB.Target(targetUsed)
      modifies this, bt.db
      ensures bt.db.meta.numPages <= old(bt.db.meta.numPages) + ValuePages(value) + old(|spine|) + 1
      ensures |spine| <= old(|spine|) + 1
      ensures Valid(rest) && finished == old(finished) && bt.db.Past() == old(bt.db.Past())
      ensures !finished ==> Kept(old(bt.db.cache), bt.db.cache, rest)
      ensures r == if finished then Finished else if |key| > MAX_KEY then TooBig
              else if !InOrder(old(lastKey), key) then KeyOrder else Ok
      ensures r != Ok ==> unchanged(this) && unchanged(bt.db)
      ensures r == Ok ==>
                Spine() == TB.Append(old(Spine()), Entry(key, value), targetUsed) && lastKey == key && spine != []
    {
      hide Inv, DB.View, DB.Past, DB.Live, Kept, Levels, LevelPages, RowPages, TB.Append, SpineStored, Compare,
           Storable, InOrder, TB.Topped, ValuePages;
      r := Check(key);
      AnyStorable(Entry(key, value));
      if !finished { KeptOpen(bt.db, rest, Pages()); }
      if r == Ok {
        TB.AppendTopped(Spine(), Entry(key, value), targetUsed);
        Accept(key, value, rest);
        lastKey := key;
      }
    }

    /** The tests Append makes first. */
    method Check(key: Key) returns (r: Reply)
      ensures r == if finished then Finished else if |key| > MAX_KEY then TooBig
              else if !InOrder(lastKey, key) then KeyOrder else Ok
    {
      if finished {
        return Finished;
      }
      if |key| > MAX_KEY {
        return TooBig;
      }
      if !InOrder(lastKey, key) {
        return KeyOrder;
      }
      r := Ok;
    }

    method Accept(key: Key, value: Bytes, ghost rest: multiset<PageId>)
      requires Loading(rest) && Storable(Entry(key, value), ANY) && TB.Target(targetUsed)
      modifies this`spine, this`rows, this`up, bt.db
      ensures bt.db.meta.numPages <= old(bt.db.meta.numPages) + ValuePages(value) + old(|spine|) + 1
      ensures |spine| <= old(|spine|) + 1
      ensures bt.db.Open() && bt.db.Past() == old(bt.db.Past()) && Kept(old(bt.db.cache), bt.db.cache, rest)
      ensures bt.db.Live() == rest + Pages() && spine != []
              && SpineStored(bt.db.cache, bt.db.books.mine, spine, rows, up)
      ensures rows != [] && rows[|rows| - 1].key == key
              && Spine() == TB.Append(old(Spine()), Entry(key, value), targetUsed)
    {
      hide Inv, DB.View, DB.Past, DB.Live, Kept, Levels, LevelPages, RowPages, TB.Append, SpineStored, Storable,
           ValuePages;
      if |spine| == 0 {
        StartLeaf(key, value, rest);
      } else {
        AppendToSpine(key, value, rest);
      }
    }

    /** The first leaf. */
    method StartLeaf(key: Key, value: Bytes, ghost rest: multiset<PageId>)
      requires Loading(rest) && spine == [] && Storable(Entry(key, value), ANY)
      modifies this`spine, this`rows, this`up, bt.db
      ensures bt.db.meta.numPages <= old(bt.db.meta.numPages) + ValuePages(value) + 1 && |spine| == 1
      ensures bt.db.Open() && bt.db.Past() == old(bt.db.Past()) && Kept(old(bt.db.cache), bt.db.cache, rest)
      ensures bt.db.Live() == rest + Pages() && spine != []
              && SpineStored(bt.db.cache, bt.db.books.mine, spine, rows, up)
      ensures rows != [] && rows[|rows| - 1].key == key && Spine() == TB.Append(TB.Empty, Entry(key, value), targetUsed)
    {
      hide Inv, DB.View, DB.Past, DB.Live, Kept, Stored, RowPages, Storable, TreePages, Shape, ValuePages;
      NoRows(bt.db.cache, rest);
      ghost var l;
      var o;
      o, l := LeafUpdate.CopyLeaf(bt.db, [], 0, key, value, false, [], rest);
      OneEntry(Entry(key, value));
      LeafParts(bt.db.cache, l);
      spine, rows, up := [o.id], l.rows, [];
      LastRow(rows, Entry(key, value));
      UnfoldAppendEmpty(Entry(key, value), targetUsed);
    }

    method AppendToSpine(key: Key, value: Bytes, ghost rest: multiset<PageId>)
      requires Loading(rest) && spine != [] && Storable(Entry(key, value), ANY) && TB.Target(targetUsed)
      modifies this`spine, this`rows, this`up, bt.db
      ensures bt.db.meta.numPages <= old(bt.db.meta.numPages) + ValuePages(value) + old(|spine|) + 1
      ensures |spine| <= old(|spine|) + 1
      ensures bt.db.Open() && bt.db.Past() == old(bt.db.Past()) && Kept(old(bt.db.cache), bt.db.cache, rest)
      ensures bt.db.Live() == rest + Pages() && spine != []
              && SpineStored(bt.db.cache, bt.db.books.mine, spine, rows, up)
      ensures rows != [] && rows[|rows| - 1].key == key
      ensures Spine() == TB.Append(old(Spine()), Entry(key, value), targetUsed)
    {
      hide Inv, DB.View, DB.Past, DB.Live, Kept, Levels, LevelPages, RowPages, TB.Append, SpineStored, Storable,
           TB.RollLeaf, ShouldRollLeaf, ValuePages;
      ghost var c0 := bt.db.cache;
      KeptOpen(bt.db, rest, Pages());
      SpineLeaf(c0, bt.db.books.mine, spine, rows, up, Entry(key, value), targetUsed);
      UnfoldAppend(RowEntries(rows), Levels(up), Entry(key, value), targetUsed);
      if ShouldRollLeaf(bt.db.cache[spine[0]].cells, LeafCellSize(key, value), targetUsed) {
        RollLeaf(key, rest);
      }
      ghost var c1 := bt.db.cache;
      AddCell(key, value, rest);
      KeptTrans(c0, c1, bt.db.cache, rest, rest);
    }

    /** The leaf is full: it is promoted, and a fresh one takes its place. */
    method RollLeaf(key: Key, ghost rest: multiset<PageId>)
      requires Loading(rest) && spine != []
      modifies this`spine, this`rows, this`up, bt.db
      ensures bt.db.meta.numPages <= old(bt.db.meta.numPages) + old(|spine|) + 1 && |spine| <= old(|spine|) + 1
      ensures bt.db.Open() && bt.db.Past() == old(bt.db.Past()) && Kept(old(bt.db.cache), bt.db.cache, rest)
      ensures bt.db.Live() == rest + Pages() && spine != [] && rows == []
              && SpineStored(bt.db.cache, bt.db.books.mine, spine, rows, up)
      ensures Levels(up) == TB.Promote(old(Levels(up)), Leaf(old(RowEntries(rows))), key, targetUsed)
    {
      hide Inv, DB.View, DB.Past, DB.Live, Kept, Levels, LevelPages, RowPages, SpineStored, TB.Promote;
      spine, up := CloseLeaf(bt.db, spine, key, targetUsed, rows, up, rest);
      rows := [];
    }

    /** The new cell, in place, at the end of the open leaf. */
    method AddCell(key: Key, value: Bytes, ghost rest: multiset<PageId>)
      requires bt.db.Open() && bt.db.Live() == rest + Pages() && spine != [] && Storable(Entry(key, value), ANY)
      requires SpineStored(bt.db.cache, bt.db.books.mine, spine, rows, up)
      modifies this`rows, bt.db
      ensures bt.db.meta.numPages <= old(bt.db.meta.numPages) + ValuePages(value)
      ensures bt.db.Open() && bt.db.Past() == old(bt.db.Past()) && Kept(old(bt.db.cache), bt.db.cache, rest)
      ensures bt.db.Live() == rest + Pages() && SpineStored(bt.db.cache, bt.db.books.mine, spine, rows, up)
      ensures rows != [] && rows[|rows| - 1].key == key
              && RowEntries(rows) == old(RowEntries(rows)) + [Entry(key, value)]
    {
      hide Inv, DB.View, DB.Past, DB.Live, Kept, LevelsStored, LevelIds, LevelPages, RowPages, LeafStored, Storable,
           WriteStep, RowStored, ValuePages;
      var db := bt.db;
      ghost var c0 := db.cache;
      KeyBound(Entry(key, value));
      var first, chain := Overflow.LeafCellOverflow(db, key, value);
      ghost var c1 := db.cache;
      LiveCached(db);
      ghost var row := Row(key, value, chain);
      CellAdded(c0, c1, spine[0], rows, up, row, rest);
      db.Write(spine[0], LeafPage(db.cache[spine[0]].cells + [LeafUpdate.NewCell(key, value, first)]));
      rows := rows + [row];
    }

    /** Finish: the top of the spine becomes the root of the tree, whose contents are exactly what was
        appended. If that is in order, so is the tree, with every page within the fill target. */
    method Finish(ghost rest: multiset<PageId>) returns (r: Reply, root: PageId)
      requires Valid(rest) && TB.Target(targetUsed)
      modifies this, bt
      ensures finished && (old(finished) ==> r == Finished && unchanged(this) && unchanged(bt))
      ensures !old(finished) ==>
                r == Ok && root == bt.root && bt.db.Live() == rest + bt.Pages() && bt.Contents() == old(Loaded())
      ensures !old(finished) && root != 0 ==> bt.tree.id == root && Stored(bt.db.cache, bt.tree)
      ensures !old(finished) && old(Ordered()) ==>
                bt.Valid(ANY, rest) && (root != 0 ==> TB.Filled(Shape(bt.tree), targetUsed))
    {
      hide Inv, DB.View, DB.Live, SpineStored, Levels, LevelPages, RowPages, TB.SpineOk, TB.Contents, Shape, Stored,
           TreePages, TB.Filled, Hist.RootWf, Hist.Contents, Loading, Loaded, Ordered;
      if finished {
        return Finished, 0;
      }
      r, root := Ok, 0;
      IsOpen(this, rest);
      if |spine| == 0 {
        FinishedEmpty(this, rest);
      } else {
        root := InstallRoot(rest);
      }
      finished := true;
    }

    method InstallRoot(ghost rest: multiset<PageId>) returns (root: PageId)
      requires Loading(rest) && spine != [] && TB.Target(targetUsed)
      modifies this`spine, bt
      ensures root == bt.root && root != 0 && bt.db.Live() == rest + bt.Pages() && bt.Contents() == old(Loaded())
      ensures bt.tree.id == root && Stored(bt.db.cache, bt.tree)
      ensures old(Ordered()) ==> Hist.RootWf(bt.Shaped(), ANY) && TB.Filled(Shape(bt.tree), targetUsed)
    {
      hide Inv, DB.View, DB.Live, SpineStored, Levels, LevelPages, RowPages, TB.SpineOk, TB.Contents, Shape, Stored,
           TreePages, TB.Filled, Hist.RootWf, Hist.Contents;
      root := spine[|spine| - 1];
      ghost var t := LoadedTree(bt.db, spine, rows, up, rest, targetUsed);
      bt.root, bt.tree := root, t;
      spine := [];
    }

    /** Abort frees the pages of the spine and nothing else: finished subtrees and overflow chains stay in
        use, named by no tree. So it gives everything back if and only if no leaf has been finished and every
        value is inline. */
    method Abort(ghost rest: multiset<PageId>)
      requires Valid(rest)
      modifies this, bt.db`allocs, bt.db`reusable, bt.db`freed, bt.db`books
      ensures finished && bt.db.Past() == old(bt.db.Past())
      ensures old(finished) ==> unchanged(this) && unchanged(bt.db)
      ensures !old(finished) ==>
                && bt.db.Open() && rest <= bt.db.Live()
                && (bt.db.Live() == rest <==>
                    |old(spine)| <= 1 && forall e :: e in old(Loaded()) ==> Inline(e.key, e.value))
      ensures !old(finished) ==>
                bt.db.Live() == rest + (if old(spine) == [] then multiset{}
                                        else RowPages(old(rows)) + Subtrees(old(up)))
    {
      hide Inv, DB.View, DB.Past, DB.Live, SpineStored, LevelPages, RowPages, FreeStep, Subtrees, Levels, TB.Topped,
           TB.Contents;
      if finished {
        return;
      }
      finished := true;
      if |spine| > 0 {
        ghost var lost := RowPages(rows) + Subtrees(up);
        SpineIs(bt.db.cache, bt.db.books.mine, spine, rows, up);
        SpinePages(spine, up, rows, rest);
        LostPages(bt.db.cache, bt.db.books.mine, spine, rows, up);
        Unchanged(rest, lost);
        FreePages(bt.db, spine, rest + lost);
        spine := [];
      } else {
        NothingLoaded();
      }
    }
  }

  lemma SpineIs(c: Store, mine: set<PageId>, spine: seq<PageId>, rows: seq<Row>, up: seq<PLevel>)
    requires SpineStored(c, mine, spine, rows, up)
    ensures spine != [] && spine == [spine[0]] + LevelIds(up) && AllMine(spine, mine)
  {
    hide LeafStored, LevelsStored, LevelIds;
  }

  lemma Unchanged(rest: multiset<PageId>, m: multiset<PageId>)
    ensures rest <= rest + m && (rest + m == rest <==> m == multiset{})
  {
    if m != multiset{} {
      var p :| p in m;
      assert (rest + m)[p] == rest[p] + m[p];
    }
  }

  /** The pages an abort leaves in use: none if and only if the spine is one leaf of inline values. */
  lemma LostPages(c: Store, mine: set<PageId>, spine: seq<PageId>, rows: seq<Row>, up: seq<PLevel>)
    requires SpineStored(c, mine, spine, rows, up) && TB.Topped(Levels(up))
    ensures RowPages(rows) + Subtrees(up) == multiset{} <==>
            |spine| <= 1 && forall e :: e in TB.Contents(TB.Open(RowEntries(rows), Levels(up))) ==>
                Inline(e.key, e.value)
  {
    hide RowPages, Subtrees, LevelsStored, RowStored, TB.Topped, LevelIds, Levels;
    RowChains(c, rows);
    var es := RowEntries(rows);
    if up == [] {
      NoLevels(c, spine[0]);
      assert TB.Listed([]) == [] && [] + es == es;
      assert Subtrees(up) == multiset{} by { NoSubtrees(); }
    } else {
      TopKept(c, up, spine[0]);
      var p :| p in Subtrees(up);
      assert p in RowPages(rows) + Subtrees(up);
    }
  }

  lemma NoSubtrees()
    ensures Subtrees([]) == multiset{}
  {
  }

  lemma {:induction false} RowChains(c: Store, rows: seq<Row>)
    requires RowsStored(c, rows)
    ensures RowPages(rows) == multiset{} <==> forall e :: e in RowEntries(rows) ==> Inline(e.key, e.value)
    decreases |rows|
  {
    hide ChainStored;
    var es := RowEntries(rows);
    if rows != [] {
      RowChains(c, rows[1..]);
      assert es == [es[0]] + RowEntries(rows[1..]);
      assert RowStored(c, rows[0]);
      if rows[0].chain != [] {
        assert rows[0].chain[0] in RowPages(rows);
        assert es[0] in es;
      }
    }
  }

  lemma {:induction false} TopKept(c: Store, up: seq<PLevel>, child: PageId)
    requires LevelsStored(c, up, child) && up != [] && TB.Topped(Levels(up))
    ensures exists p :: p in Subtrees(up)
    decreases |up|
  {
    hide AllStored, ForestPages, TreePages;
    if |up| == 1 {
      assert Levels(up)[0].keys == up[0].keys;
      var kids := up[0].kids;
      assert kids == [kids[0]] + kids[1..];
      ForestPagesAppend([kids[0]], kids[1..]);
      ForestPagesOne(kids[0]);
      PagePairs.PagesParts(kids[0]);
      assert kids[0].id in Subtrees(up);
    } else {
      assert Levels(up)[1..] == Levels(up[1..]);
      TopKept(c, up[1..], up[0].id);
      var p :| p in Subtrees(up[1..]);
      assert p in Subtrees(up);
    }
  }

  /** A fresh open leaf, and the old one promoted as complete. */
  method CloseLeaf(db: DB, spine: seq<PageId>, key: Key, target: nat, ghost rows: seq<Row>, ghost up: seq<PLevel>,
                   ghost rest: multiset<PageId>)
    returns (spine': seq<PageId>, ghost up': seq<PLevel>)
    requires db.Open() && SpineStored(db.cache, db.books.mine, spine, rows, up)
    requires db.Live() == rest + (multiset{spine[0]} + RowPages(rows) + LevelPages(up))
    modifies db
    ensures db.meta.numPages <= old(db.meta.numPages) + |spine| + 1 && |spine'| <= |spine| + 1
    ensures db.Open() && db.Past() == old(db.Past()) && Kept(old(db.cache), db.cache, rest)
    ensures spine' != [] && SpineStored(db.cache, db.books.mine, spine', [], up')
    ensures db.Live() == rest + (multiset{spine'[0]} + RowPages([]) + LevelPages(up'))
    ensures Levels(up') == TB.Promote(Levels(up), Leaf(RowEntries(rows)), key, target)
  {
    hide Inv, DB.View, DB.Past, DB.Live, Kept, LevelsStored, LevelIds, Levels, LevelPages, RowPages, LeafStored,
         Stored, TreePages, Shape, TB.Promote, Promoted, AllocatedFrom, WriteStep;
    ghost var l := PLeaf(spine[0], rows);
    ghost var c0 := db.cache;
    LeafTree(c0, spine[0], rows);
    assert rest + (multiset{spine[0]} + RowPages(rows) + LevelPages(up)) == rest + (TreePages(l) + LevelPages(up));
    var n := db.AllocatePage();
    ghost var c1 := db.cache;
    LiveCached(db);
    db.Write(n, LeafPage([]));
    ghost var c2 := db.cache;
    FreshLeaf(c0, c1, l, up, n, rest);
    var ids;
    ids, up' := Promote(db, spine[1..], spine[0], key, n, target, up, l, rest + multiset{n});
    LeafRolled(c0, c2, db.cache, db.Live(), rest, n, ids, up');
    spine' := [n] + ids;
  }

  method FreePages(db: DB, ids: seq<PageId>, ghost rest: multiset<PageId>)
    requires db.Open() && db.Live() == rest + multiset(ids)
    modifies db`allocs, db`reusable, db`freed, db`books
    ensures db.Open() && db.Past() == old(db.Past()) && db.Live() == rest
  {
    hide Inv, DB.View, DB.Past, DB.Live, FreeStep;
    Seqs.FromStart(ids);
    for i := 0 to |ids|
      invariant db.Open() && db.Past() == old(db.Past()) && db.Live() == rest + multiset(ids[i..])
    {
      Overflow.HeadLive(db, rest, ids[i..]);
      assert ids[i..][1..] == ids[i + 1..];
      db.FreePage(ids[i]);
      Cancel(db.Live(), rest + multiset(ids[i + 1..]), multiset{ids[i]});
    }
  }

  /** The spine's pages hold the open leaf and the open levels, and the transaction may write them. */
  ghost predicate SpineStored(c: Store, mine: set<PageId>, spine: seq<PageId>, rows: seq<Row>, up: seq<PLevel>) {
    && spine != [] && spine == [spine[0]] + LevelIds(up) && AllMine(spine, mine)
    && LeafStored(c, spine[0], rows) && LevelsStored(c, up, spine[0])
  }

  lemma SpineLeaf(c: Store, mine: set<PageId>, spine: seq<PageId>, rows: seq<Row>, up: seq<PLevel>, e: Entry,
                  target: nat)
    requires SpineStored(c, mine, spine, rows, up)
    ensures spine[0] in c && c[spine[0]].LeafPage?
    ensures ShouldRollLeaf(c[spine[0]].cells, LeafCellSize(e.key, e.value), target) ==
            TB.RollLeaf(RowEntries(rows), e, target)
  {
    hide LevelsStored, LevelIds, TB.RollLeaf, ShouldRollLeaf;
    LeafRoll(c, spine[0], rows, e, target);
  }

  ghost predicate LeafStored(c: Store, id: PageId, rows: seq<Row>) {
    id in c && c[id] == LeafPage(Cells(rows)) && RowsStored(c, rows)
  }

  ghost function Subtrees(up: seq<PLevel>): multiset<PageId> {
    if up == [] then multiset{} else ForestPages(up[0].kids) + Subtrees(up[1..])
  }

  predicate ShouldRollLeaf(cells: seq<LeafCell>, cellSize: nat, target: nat) {
    |cells| != 0 && (PAGE_SIZE - CellsUsed(cells) < cellSize + 2 || CellsUsed(cells) + cellSize + 2 > target)
  }

  lemma LeafRoll(c: Store, id: PageId, rows: seq<Row>, e: Entry, target: nat)
    requires LeafStored(c, id, rows)
    ensures id in c && c[id].LeafPage? && ShouldRollLeaf(c[id].cells, LeafCellSize(e.key, e.value), target) ==
            TB.RollLeaf(RowEntries(rows), e, target)
  {
    hide Sum;
    StoredFit(c, rows);
    RowCosts(rows);
  }

  lemma UnfoldAppendEmpty(e: Entry, target: nat)
    ensures TB.Append(TB.Empty, e, target) == TB.Open([e], []) && Levels([]) == [] && LevelIds([]) == []
            && LevelPages([]) == multiset{}
    ensures forall c: Store, x: PageId :: LevelsStored(c, [], x)
  {
  }

  lemma UnfoldAppend(es: seq<Entry>, up: seq<TB.Level>, e: Entry, target: nat)
    ensures TB.Append(TB.Open(es, up), e, target) ==
            if TB.RollLeaf(es, e, target) then TB.Open([] + [e], TB.Promote(up, Leaf(es), e.key, target))
                else TB.Open(es + [e], up)
  {
    Seqs.Empty([e]);
  }

  lemma LeafParts(c: Store, l: PTree)
    requires Stored(c, l) && Shape(l).Leaf?
    ensures l.PLeaf? && LeafStored(c, l.id, l.rows) && TreePages(l) == multiset{l.id} + RowPages(l.rows)
            && Shape(l) == Leaf(RowEntries(l.rows))
  {
  }

  lemma LastRow(rows: seq<Row>, e: Entry)
    requires RowEntries(rows) == [e]
    ensures |rows| == 1 && rows[0].key == e.key && LevelPages([]) == multiset{}
  {
    assert RowEntries(rows)[0] == e;
  }

  lemma LeafTree(c: Store, id: PageId, rows: seq<Row>)
    requires LeafStored(c, id, rows)
    ensures var l := PLeaf(id, rows);
      Stored(c, l) && TreePages(l) == multiset{id} + RowPages(rows) && Shape(l) == Leaf(RowEntries(rows))
  {
  }

  lemma FreshLeaf(c0: Store, c1: Store, l: PTree, up: seq<PLevel>, n: PageId, rest: multiset<PageId>)
    requires Stored(c0, l) && LevelsStored(c0, up, l.id)
    requires var m := TreePages(l) + LevelPages(up);
               Kept(c0, c1, rest + m) && forall p :: (rest + m + multiset{n})[p] <= 1
    ensures var c2 := c1[n := LeafPage([])];
      Stored(c2, l) && LevelsStored(c2, up, l.id) && Kept(c0, c2, rest) && rest[n] == 0
    ensures rest + (TreePages(l) + LevelPages(up)) + multiset{n} == rest + multiset{n} + (TreePages(l) + LevelPages(up))
  {
    hide Kept, Stored, TreePages, LevelsStored, LevelPages;
    var m := TreePages(l) + LevelPages(up);
    NodeUpdate.FreshPage(rest, m, n);
    assert m[n] == TreePages(l)[n] + LevelPages(up)[n];
    StoredKept(c0, c1, l, rest + m);
    LevelsKept(c0, c1, up, l.id, rest + m);
    LeafUpdate.LeafElsewhere(c1, n, LeafPage([]), l);
    LevelsElsewhere(c1, n, LeafPage([]), up, l.id);
    NodeUpdate.KeptFresh(c0, c1, rest, m, n, LeafPage([]));
  }

  lemma LeafRolled(c0: Store, c2: Store, c3: Store, live: multiset<PageId>, rest: multiset<PageId>, n: PageId,
                   ids: seq<PageId>, up: seq<PLevel>)
    requires Promoted(c2, c3, live, rest + multiset{n}, n, ids, up) && Kept(c0, c2, rest) && n in c2
             && c2[n] == LeafPage([])
    ensures LeafStored(c3, n, []) && LevelsStored(c3, up, n) && LevelIds(up) == ids && Kept(c0, c3, rest)
    ensures live == rest + (multiset{n} + RowPages([]) + LevelPages(up))
  {
    hide Kept, LevelsStored, LevelPages, LevelIds;
    NodeDelete.KeptPage(c2, c3, rest + multiset{n}, n);
    NodeUpdate.KeptLess(c2, c3, rest + multiset{n}, rest);
    KeptTrans(c0, c2, c3, rest, rest);
    assert Cells([]) == [];
  }

  lemma CellAdded(c0: Store, c1: Store, id: PageId, rows: seq<Row>, up: seq<PLevel>, row: Row, rest: multiset<PageId>)
    requires LeafStored(c0, id, rows) && LevelsStored(c0, up, id) && RowStored(c1, row)
    requires var m := rest + (multiset{id} + RowPages(rows) + LevelPages(up));
      Kept(c0, c1, m) && forall p :: (m + multiset(row.chain))[p] <= 1
    ensures id in c1 && c1[id] == LeafPage(Cells(rows))
    ensures var c2 := c1[id := LeafPage(Cells(rows) + [LeafUpdate.NewCell(row.key, row.value, Head(row.chain))])];
      LeafStored(c2, id, rows + [row]) && LevelsStored(c2, up, id) && Kept(c0, c2, rest)
    ensures RowEntries(rows + [row]) == RowEntries(rows) + [Entry(row.key, row.value)]
    ensures rest + (multiset{id} + RowPages(rows) + LevelPages(up)) + multiset(row.chain) ==
            rest + (multiset{id} + RowPages(rows + [row]) + LevelPages(up))
  {
    hide Kept, LevelsStored, LevelPages, RowPages, RowStored;
    var lv, ps, ch := LevelPages(up), RowPages(rows), multiset(row.chain);
    var m := rest + (multiset{id} + ps + lv);
    assert (m + ch)[id] == rest[id] + 1 + ps[id] + lv[id] + ch[id];
    NodeDelete.KeptPage(c0, c1, m, id);
    RowsKept(c0, c1, rows, m);
    LevelsKept(c0, c1, up, id, m);
    LeafUpdate.NewCellIs(c1, row.key, row.value, row.chain);
    RowPagesAppend(rows, [row]);
    RowPagesOne(row);
    assert RowsStored(c1, rows + [row]);
    assert Cells(rows + [row]) == Cells(rows) + [CellOf(row)];
    var page := LeafPage(Cells(rows + [row]));
    LeafUpdate.RowsElsewhere(c1, id, page, rows + [row]);
    LevelsElsewhere(c1, id, page, up, id);
    KeptBesideOne(c0, c1, m, rest, id, page);
  }

  lemma KeptBesideOne(c0: Store, c1: Store, m: multiset<PageId>, rest: multiset<PageId>, n: PageId, page: Page)
    requires Kept(c0, c1, m) && rest <= m && rest[n] == 0
    ensures Kept(c0, c1[n := page], rest)
  {
  }

  lemma IsOpen(l: BulkLoader, rest: multiset<PageId>)
    requires l.Loading(rest)
    ensures l.bt.db.Open()
  {
    hide Inv;
  }

  lemma FinishedEmpty(l: BulkLoader, rest: multiset<PageId>)
    requires l.Loading(rest) && l.spine == []
    ensures l.bt.root == 0 && l.bt.Valid(ANY, rest) && l.bt.Contents() == l.Loaded()
  {
    hide Inv, DB.View, DB.Live, SpineStored, LevelPages, RowPages, Hist.Contents, TB.Contents, TB.Topped;
    NothingLoaded();
  }

  lemma NothingLoaded()
    ensures TB.Contents(TB.Empty) == [] && Hist.Contents(Hist.Empty) == [] && Hist.RootWf(Hist.Empty, ANY)
  {
  }

  /** The spine closed from the bottom up: the tree under its top page. */
  lemma {:induction false} Closed(c: Store, t: PTree, up: seq<PLevel>, rest: multiset<PageId>) returns (r: PTree)
    requires Stored(c, t) && LevelsStored(c, up, t.id)
    ensures Stored(c, r) && r.id == ([t.id] + LevelIds(up))[|up|]
    ensures Shape(r) == TB.Build(Levels(up), Shape(t))
    ensures rest + TreePages(r) == rest + (TreePages(t) + LevelPages(up))
    decreases |up|
  {
    hide Stored, LevelsStored, TreePages, LevelPages, Shape, Levels, LevelIds;
    if up == [] {
      NoLevels(c, t.id);
      r := t;
    } else {
      TopLevel(c, up, t.id);
      LevelClosed(c, up, t, rest);
      r := Closed(c, PNode(up[0].id, up[0].keys, up[0].kids + [t]), up[1..], rest);
    }
  }

  lemma SpineTree(c: Store, id: PageId, rows: seq<Row>, up: seq<PLevel>, rest: multiset<PageId>) returns (r: PTree)
    requires LeafStored(c, id, rows) && LevelsStored(c, up, id)
    ensures Stored(c, r) && r.id == ([id] + LevelIds(up))[|up|]
            && Shape(r) == TB.Build(Levels(up), Leaf(RowEntries(rows)))
    ensures rest + TreePages(r) == rest + (multiset{id} + RowPages(rows) + LevelPages(up))
  {
    hide Stored, LevelsStored, TreePages, LevelPages, Shape, Levels, LevelIds, LeafStored, RowPages;
    LeafTree(c, id, rows);
    r := Closed(c, PLeaf(id, rows), up, rest);
  }

  /** The tree under the top of the spine. */
  lemma LoadedTree(db: DB, spine: seq<PageId>, rows: seq<Row>, up: seq<PLevel>, rest: multiset<PageId>, target: nat)
    returns (t: PTree)
    requires db.Open() && SpineStored(db.cache, db.books.mine, spine, rows, up) && TB.Target(target)
    requires db.Live() == rest + (multiset{spine[0]} + RowPages(rows) + LevelPages(up))
    ensures Stored(db.cache, t) && t.id == spine[|spine| - 1] && t.id != 0 && db.Live() == rest + TreePages(t)
    ensures Hist.Contents(Hist.At(Shape(t))) == TB.Contents(TB.Open(RowEntries(rows), Levels(up)))
    ensures TB.SpineOk(TB.Open(RowEntries(rows), Levels(up)), ANY, target) ==>
              Hist.RootWf(Hist.At(Shape(t)), ANY) && TB.Filled(Shape(t), target)
  {
    hide Inv, DB.View, DB.Live, LevelsStored, LevelIds, Levels, LevelPages, RowPages, LeafStored, TB.SpineOk,
         TB.Contents, Shape, Stored, TreePages, TB.Filled, Hist.RootWf, Hist.Contents, TB.Build;
    t := SpineTree(db.cache, spine[0], rows, up, rest);
    var s := TB.Open(RowEntries(rows), Levels(up));
    LoadedIs(t, s);
    if TB.SpineOk(s, ANY, target) { LoadedOk(t, s, target); }
    RootLive(db, rest, t);
  }

  lemma LoadedIs(t: PTree, s: TB.Spine)
    requires s.Open? && Shape(t) == TB.Tree(s)
    ensures Hist.Contents(Hist.At(Shape(t))) == TB.Contents(s)
  {
    TB.BuildEntries(s.up, Leaf(s.es));
    hide Shape;
  }

  /** An accepted key keeps a spine in order, except an empty key after an empty key. */
  lemma AppendStep(s: TB.Spine, lastKey: Key, e: Entry, target: nat)
    requires TB.Target(target) && Storable(e, ANY) && InOrder(lastKey, e.key)
    requires s.Open? ==> s.es != [] && lastKey == s.es[|s.es| - 1].key
    ensures TB.Contents(TB.Append(s, e, target)) == TB.Contents(s) + [e]
    ensures TB.SpineOk(s, ANY, target) && (s.Empty? || lastKey != [] || e.key != []) ==>
              TB.SpineOk(TB.Append(s, e, target), ANY, target)
  {
    hide Rank, TB.Append, TB.SpineOk, TB.Contents, Storable, InOrder;
    TB.AppendContents(s, e, target);
    OrderTest(lastKey, e.key);
    if TB.SpineOk(s, ANY, target) && (s.Empty? || lastKey != [] || e.key != []) {
      if s.Open? { TB.LastIsGreatest(s, ANY, target, e.key); } else { NoneBelow(Rank(e.key)); }
      TB.AppendOk(s, e, ANY, target);
    }
  }

  lemma NoneBelow(r: real)
    ensures AllBelow(TB.Contents(TB.Empty), r)
  {
  }

  lemma LoadedOk(t: PTree, s: TB.Spine, target: nat)
    requires TB.SpineOk(s, ANY, target) && TB.Target(target) && s.Open? && Shape(t) == TB.Tree(s)
    ensures Hist.RootWf(Hist.At(Shape(t)), ANY) && Hist.Contents(Hist.At(Shape(t))) == TB.Contents(s)
            && TB.Filled(Shape(t), target)
  {
    hide TB.SpineOk, TB.Contents, TB.Filled, Wf, Shape, TB.Tree;
    TB.FinishOk(s, ANY, target);
    Hist.WfRoot(TB.Tree(s), ANY, |s.up|);
  }

  lemma {:induction false} LevelSplit(up: seq<PLevel>)
    ensures LevelPages(up) == multiset(LevelIds(up)) + Subtrees(up)
  {
    hide ForestPages;
    if up != [] { LevelSplit(up[1..]); }
  }

  lemma SpinePages(spine: seq<PageId>, up: seq<PLevel>, rows: seq<Row>, rest: multiset<PageId>)
    requires spine != [] && spine == [spine[0]] + LevelIds(up)
    ensures rest + (multiset{spine[0]} + RowPages(rows) + LevelPages(up)) ==
            rest + (RowPages(rows) + Subtrees(up)) + multiset(spine)
  {
    hide RowPages, LevelPages, Subtrees, LevelIds;
    LevelSplit(up);
    assert multiset(spine) == multiset{spine[0]} + multiset(LevelIds(up));
  }

  // ---- whole loads ----

  /** A whole load: Append every entry, then Finish, or Abort at the first refusal. The load succeeds exactly if
      every key passes the order test and none is too long, and then the tree holds exactly the list. It is
      well formed if the list is in key order, as it must be if no key after the first is empty. */
  method Load(bt: BTree, es: seq<Entry>, targetUsed: nat, ghost rest: multiset<PageId>) returns (ok: bool)
    requires bt.root == 0 && bt.Valid(ANY, rest) && TB.Target(targetUsed)
    modifies bt, bt.db
    ensures bt.db.meta.numPages <= old(bt.db.meta.numPages) + LoadPages(es, |es|)
    ensures ok <==> Passing(es, |es|)
    ensures KeysAfterFirst(es) ==> (ok <==> Sorted(es) && forall i :: 0 <= i < |es| ==> |es[i].key| <= MAX_KEY)
    ensures ok ==> bt.OnPages(rest) && bt.Contents() == es
    ensures ok && Sorted(es) ==> bt.Valid(ANY, rest) && (bt.root != 0 ==> TB.Filled(Shape(bt.tree), targetUsed))
    ensures ok ==> Kept(old(bt.db.cache), bt.db.cache, rest)
    ensures !ok ==> bt.root == 0 && bt.db.Open() && rest <= bt.db.Live()
    ensures bt.db.Past() == old(bt.db.Past())
  {
    hide Inv, DB.View, DB.Past, DB.Live, Kept, Levels, LevelPages, RowPages, SpineStored, TB.SpineOk, TB.Contents,
         TB.Append, InOrder, Rank, Sorted, Stored, Shape, TreePages, Hist.RootWf, Hist.Contents, TB.Filled, Subtrees,
         BulkLoader.Ordered, BulkLoader.Loaded, Compare, Passing, KeysAfterFirst, BulkLoader.Loading, Halfway,
         ValuePages;
    KeptOpen(bt.db, rest, bt.Pages());
    var l := new BulkLoader(bt, targetUsed);
    Starts(l, es, rest);
    if KeysAfterFirst(es) { PassingSorted(es); }
    ghost var c := bt.db.cache;
    ok := AppendList(l, es, rest);
    if ok {
      KeptTrans(old(bt.db.cache), c, bt.db.cache, rest, rest);
      Ends(l, es, rest);
      var _, _ := l.Finish(rest);
    } else {
      l.Abort(rest);
    }
  }

  /** The first i keys pass the tests of Append one after another. */
  ghost predicate Passing(es: seq<Entry>, i: nat)
    requires i <= |es|
  {
    && (forall j :: 0 < j < i ==> InOrder(es[j - 1].key, es[j].key))
    && (forall j :: 0 <= j < i ==> |es[j].key| <= MAX_KEY)
  }

  lemma Starts(l: BulkLoader, es: seq<Entry>, rest: multiset<PageId>)
    requires l.bt.root == 0 && l.bt.Valid(ANY, rest) && l.spine == [] && !l.finished && l.lastKey == []
    requires l.Ordered() && l.Loaded() == []
    ensures Halfway(l, es, 0, rest)
  {
    hide Inv, DB.View, DB.Live, SpineStored, LevelPages, RowPages, BulkLoader.Loaded, BulkLoader.Ordered, InOrder,
         Sorted, TreePages;
  }

  lemma Ends(l: BulkLoader, es: seq<Entry>, rest: multiset<PageId>)
    requires Halfway(l, es, |es|, rest)
    ensures !l.finished && l.Loading(rest) && l.bt.db.Open() && l.Loaded() == es && Passing(es, |es|)
            && (Sorted(es) ==> l.Ordered())
  {
    hide BulkLoader.Loading, BulkLoader.Loaded, BulkLoader.Ordered, Passing, Sorted, Inv;
    Seqs.TakeAll(es);
    IsOpen(l, rest);
  }

  lemma PassingSorted(es: seq<Entry>)
    requires KeysAfterFirst(es)
    ensures Passing(es, |es|) <==> Sorted(es) && forall i :: 0 <= i < |es| ==> |es[i].key| <= MAX_KEY
  {
    AcceptedSorted(es);
    hide InOrder, Sorted, KeysAfterFirst;
  }

  /** At most how many pages a load of the first i entries takes: the overflow pages, and for each entry a leaf and a
      page on every level. */
  function LoadPages(es: seq<Entry>, i: nat): nat
    requires i <= |es|
  {
    if i == 0 then 0 else LoadPages(es, i - 1) + ValuePages(es[i - 1].value) + i
  }

  lemma {:induction false} MorePages(es: seq<Entry>, i: nat)
    requires i < |es|
    ensures LoadPages(es, i) + ValuePages(es[i].value) + i + 1 <= LoadPages(es, |es|)
    decreases |es| - i
  {
    hide ValuePages;
    if i + 1 < |es| { MorePages(es, i + 1); }
  }

  /** Append entry after entry, up to the first refusal. */
  method AppendList(l: BulkLoader, es: seq<Entry>, ghost rest: multiset<PageId>) returns (ok: bool)
    requires Halfway(l, es, 0, rest) && TB.Target(l.targetUsed) && Kept(l.bt.db.cache, l.bt.db.cache, rest)
    modifies l, l.bt.db
    ensures l.bt.db.meta.numPages <= old(l.bt.db.meta.numPages) + LoadPages(es, |es|)
    ensures ok ==> Halfway(l, es, |es|, rest) && Kept(old(l.bt.db.cache), l.bt.db.cache, rest)
    ensures !ok ==> !Passing(es, |es|) && !l.finished && l.Loading(rest)
    ensures l.bt.db.Past() == old(l.bt.db.Past())
  {
    hide Inv, DB.View, DB.Past, DB.Live, Kept, Halfway, BulkLoader.Loading, Passing, ValuePages;
    var db := l.bt.db;
    for i := 0 to |es|
      invariant Halfway(l, es, i, rest) && Kept(old(db.cache), db.cache, rest) && db.Past() == old(db.Past())
      invariant db.meta.numPages <= old(db.meta.numPages) + LoadPages(es, i)
    {
      ghost var c := db.cache;
      ok := AppendNext(l, es, i, rest);
      MorePages(es, i);
      if !ok {
        return;
      }
      KeptTrans(old(db.cache), c, db.cache, rest, rest);
    }
    ok := true;
  }

  /** The first i entries have been loaded. */
  ghost predicate Halfway(l: BulkLoader, es: seq<Entry>, i: nat, rest: multiset<PageId>)
    reads l, l.bt, l.bt.db
    requires i <= |es|
  {
    && !l.finished && l.Loading(rest) && l.Loaded() == es[..i] && Passing(es, i) && (Sorted(es[..i]) ==> l.Ordered())
    && (l.spine == [] <==> i == 0) && |l.spine| <= i && l.lastKey == if i == 0 then [] else es[i - 1].key
  }

  method AppendNext(l: BulkLoader, es: seq<Entry>, i: nat, ghost rest: multiset<PageId>) returns (ok: bool)
    requires i < |es| && Halfway(l, es, i, rest) && TB.Target(l.targetUsed)
    modifies l, l.bt.db
    ensures l.bt.db.meta.numPages <= old(l.bt.db.meta.numPages) + ValuePages(es[i].value) + i + 1
    ensures ok ==> Halfway(l, es, i + 1, rest) && Kept(old(l.bt.db.cache), l.bt.db.cache, rest)
    ensures !ok ==> !Passing(es, |es|) && !l.finished && l.Loading(rest)
    ensures l.bt.db.Past() == old(l.bt.db.Past())
  {
    hide Inv, DB.View, DB.Past, DB.Live, Kept, Levels, LevelPages, RowPages, SpineStored, TB.SpineOk, TB.Contents,
         TB.Append, InOrder, Rank, Sorted, Compare, BulkLoader.Ordered, BulkLoader.Loaded, Passing, ValuePages;
    PassingNext(es, i);
    var r := l.Append(es[i].key, es[i].value, rest);
    Seqs.TakeNext(es, i);
    ok := r == Ok;
  }

  lemma PassingNext(es: seq<Entry>, i: nat)
    requires i < |es| && Passing(es, i)
    ensures var last := if i == 0 then [] else es[i - 1].key;
      && (Passing(es, i + 1) <==> |es[i].key| <= MAX_KEY && InOrder(last, es[i].key))
      && (!Passing(es, i + 1) ==> !Passing(es, |es|))
      && (Sorted(es[..i + 1]) ==> Sorted(es[..i]) && (i == 0 || last != [] || es[i].key != []))
  {
    hide InOrder, Rank, Sorted;
    AnyFirst(es, [], es[i].key);
    if Sorted(es[..i + 1]) { SortedStep(es, i); }
  }

  lemma SortedStep(es: seq<Entry>, i: nat)
    requires i < |es| && Sorted(es[..i + 1])
    ensures Sorted(es[..i]) && (i > 0 ==> es[i - 1].key != es[i].key)
  {
    hide Rank;
    var a := es[..i + 1];
    assert a[..i] == es[..i] && a[i] == es[i];
    if i > 0 { assert a[i - 1] == es[i - 1]; }
  }

  lemma KeyBound(e: Entry)
    requires Storable(e, ANY)
    ensures |e.key| <= MAX_KEY
  {
  }

  /** An aborted load can lose pages: once a leaf is finished, it stays in use though no tree names it. Any two
      entries that do not fit one leaf under the fill target will do. */
  method LoadAndAbort(bt: BTree, a: Entry, b: Entry, targetUsed: nat, ghost rest: multiset<PageId>)
    requires bt.root == 0 && bt.Valid(ANY, rest) && TB.Target(targetUsed) && Storable(a, ANY) && Storable(b, ANY)
    requires a.key != [] && InOrder(a.key, b.key) && TB.RollLeaf([a], b, targetUsed)
    modifies bt, bt.db
    ensures bt.root == 0 && bt.db.Open() && rest < bt.db.Live()
  {
    hide Inv, DB.View, DB.Past, DB.Live, Kept, Levels, LevelPages, RowPages, SpineStored, TB.SpineOk, TB.Contents,
         Storable, InOrder, TB.RollLeaf, Stored, Shape, TreePages, Hist.RootWf, Hist.Contents, Subtrees, Compare,
         TB.Append, BulkLoader.Ordered, BulkLoader.Loaded;
    var l := new BulkLoader(bt, targetUsed);
    KeyBound(a);
    KeyBound(b);
    AnyFirst([a], [], a.key);
    TwoSteps(a, b, targetUsed);
    var r1 := l.Append(a.key, a.value, rest);
    var r2 := l.Append(b.key, b.value, rest);
    SpineIs(bt.db.cache, bt.db.books.mine, l.spine, l.rows, l.up);
    l.Abort(rest);
  }

  lemma TwoSteps(a: Entry, b: Entry, target: nat)
    requires TB.RollLeaf([a], b, target)
    ensures TB.Append(TB.Empty, a, target) == TB.Open([a], [])
    ensures TB.Append(TB.Open([a], []), b, target) == TB.Open([b], [TB.Level([b.key], [Leaf([a])])])
  {
    hide TB.RollLeaf;
  }
}
