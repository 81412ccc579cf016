/** A tree as the program holds it: a root page id and the transaction it works in. */
module BTrees {
  import opened Keys
  import opened OrderedMap
  import opened Layout
  import opened Values
  import opened Trees
  import Upd = TreeUpdate
  import Del = TreeDelete
  import Hist = TreeHistory
  import opened Pages
  import Protocol
  import opened Transactions
  import opened Placed
  import PageSearch
  import LeafUpdate
  import NodeUpdate
  import NodeDelete
  import PagePairs
  import ProtocolSafety
  import Seqs

  datatype UpdateReply = Root(id: PageId) | KeyExists | KeyNotFound | KeyTooBig

  /** TooLarge: the delete had to put more into a page than fits. */
  datatype DeleteReply = Found(id: PageId) | NotFound(same: PageId) | TooLarge

  /** How many levels of internal pages a tree has. */
  ghost function Tall(r: Hist.Root): nat { if r.Empty? then 0 else Hist.Height(r.t) }

  class BTree {
    const db: DB
    var root: PageId
    ghost var tree: PTree

    constructor (db: DB, root: PageId, ghost tree: PTree)
      ensures this.db == db && this.root == root && this.tree == tree
    {
      this.db, this.root, this.tree := db, root, tree;
    }

    ghost function Shaped(): Hist.Root
      reads this
    {
      if root == 0 then Hist.Empty else Hist.At(Shape(tree))
    }

    /** What the tree holds, in key order. */
    ghost function Contents(): seq<Entry>
      reads this
    {
      Hist.Contents(Shaped())
    }

    /** The tree's pages, overflow chains included, each as often as it is referenced. */
    ghost function Pages(): multiset<PageId>
      reads this
    {
      if root == 0 then multiset{} else TreePages(tree)
    }

    /** The tree is on its pages, which together with rest are the pages in use. */
    ghost predicate OnPages(rest: multiset<PageId>)
      reads this, db
    {
      && db.Open() && db.Live() == rest + Pages()
      && (root != 0 ==> tree.id == root && Stored(db.cache, tree))
    }

    /** And it is well formed. */
    ghost predicate Valid(q: Limits, rest: multiset<PageId>)
      reads this, db
    {
      OnPages(rest) && Hist.RootWf(Shaped(), q)
    }

    /** Update refines insertion and replacement in a finite map. The mode and the key's presence decide
        which calls are refused; a refused call, and one that writes the value already there, change
        nothing at all. Otherwise the pages in use are exactly those of the new tree and the rest, no
        other page in use has changed, and no committed version is touched. */
    method Update(key: Key, value: Bytes, mode: Upd.Mode, ghost q: Limits, ghost rest: multiset<PageId>)
      returns (r: UpdateReply)
      requires Valid(q, rest) && (|key| <= MAX_KEY ==> Storable(Entry(key, value), q))
      modifies this, db
      ensures db.meta.numPages <= old(db.meta.numPages) + ValuePages(value) + 2 * old(Tall(Shaped())) + 3
      ensures Valid(q, rest) && Kept(old(db.cache), db.cache, rest) && db.Past() == old(db.Past())
              && db.Still() <= old(db.Still())
      ensures r.KeyTooBig? <==> |key| > MAX_KEY
      ensures |key| <= MAX_KEY ==> (r.KeyExists? <==> mode == Upd.Insert && Has(old(Contents()), key))
      ensures |key| <= MAX_KEY ==> (r.KeyNotFound? <==> mode == Upd.Update && !Has(old(Contents()), key))
      ensures r.Root? ==> r.id == root && Contents() == WriteTo(old(Contents()), key, value)
      ensures r.Root? ==> Hist.UpdateRoot(old(Shaped()), key, value, mode) == Hist.Ok(Shaped())
      ensures !r.Root? || Reads(old(Contents()), key, value) ==> unchanged(this) && unchanged(db)
      ensures old(Hist.RootDense(Shaped())) ==> Hist.RootDense(Shaped())
      ensures r.Root? && !Reads(old(Contents()), key, value) && old(root) != 0 ==> old(root) !in db.Still()
    {
      hide Protocol.Inv, DB.View, DB.Past, DB.Still, DB.Live, Kept, Stored, Shape, TreePages, Hist.RootWf,
           Hist.RootDense, Hist.UpdateRoot, Has, Put, Reads, Hist.Contents, Storable, ValuePages;
      KeptOpen(db, rest, Pages());
      if |key| > MAX_KEY {
        return KeyTooBig;
      }
      ghost var before := Shaped();
      Hist.UpdateRootRefines(before, q, key, value, mode);
      UpdateDenseIf(before, q, key, value, mode);
      if root == 0 {
        if mode == Upd.Update {
          UnfoldEmpty(key, value, mode);
          return KeyNotFound;
        }
        FirstInsert(key, value, q, rest);
        UnfoldEmpty(key, value, mode);
        Hist.EmptyPut(key, value);
        EmptyContents();
        return Root(root);
      }
      UnfoldAt(before.t, key, value, mode);
      ChangedReads(before.t, q, key, value, mode);
      r := UpdateTree(key, value, mode, q, rest);
    }

    /** The first entry of a tree gets a leaf of its own. */
    method FirstInsert(key: Key, value: Bytes, ghost q: Limits, ghost rest: multiset<PageId>)
      requires db.Open() && db.Live() == rest && Storable(Entry(key, value), q)
      modifies this, db
      ensures db.meta.numPages <= old(db.meta.numPages) + ValuePages(value) + 1
      ensures db.Open() && root != 0 && db.Live() == rest + Pages() && tree.id == root && Stored(db.cache, tree)
      ensures Kept(old(db.cache), db.cache, rest) && db.Past() == old(db.Past()) && db.Still() <= old(db.Still())
      ensures Shaped() == Hist.At(Leaf([Entry(key, value)]))
    {
      hide Protocol.Inv, DB.View, DB.Past, DB.Still, DB.Live, Kept, Stored, Shape, TreePages, Storable, ValuePages;
      LeafUpdate.StorableAny(Entry(key, value), q);
      NoRows(db.cache, rest);
      ghost var l;
      var o;
      o, l := LeafUpdate.CopyLeaf(db, [], 0, key, value, false, [], rest);
      root, tree := o.id, l;
      RootLive(db, rest, l);
      OneEntry(Entry(key, value));
    }

    method UpdateTree(key: Key, value: Bytes, mode: Upd.Mode, ghost q: Limits, ghost rest: multiset<PageId>)
      returns (r: UpdateReply)
      requires Valid(q, rest) && root != 0 && Storable(Entry(key, value), q)
      modifies this, db
      ensures db.meta.numPages <= old(db.meta.numPages) + ValuePages(value) + 2 * old(Tall(Shaped())) + 3
      ensures db.Open() && db.Live() == rest + Pages() && root != 0 && tree.id == root && Stored(db.cache, tree)
      ensures Kept(old(db.cache), db.cache, rest) && db.Past() == old(db.Past()) && db.Still() <= old(db.Still())
      ensures Answers(r, Hist.UpdateRoot(old(Shaped()), key, value, mode), root, Shaped())
      ensures !r.Root? || Upd.UpdateNode(old(Shape(tree)), key, value, mode).Same? ==> unchanged(this) && unchanged(db)
      ensures Upd.UpdateNode(old(Shape(tree)), key, value, mode).Changed? ==> old(root) !in db.Still()
    {
      hide Protocol.Inv, DB.View, DB.Past, DB.Still, DB.Live, Kept, Stored, Shape, TreePages, Hist.RootWf, Storable,
           Upd.UpdateNode, LeafUpdate.Updated, Rank, LeafUpdate.Grew, LeafUpdate.NewPages, Hist.UpdateRoot,
           Protocol.FreeStep, ValuePages;
      KeptOpen(db, rest, Pages());
      RootRange(tree, key, q);
      KeyFits(Entry(key, value), q);
      UnfoldAt(Shape(tree), key, value, mode);
      ghost var c0, t := db.cache, tree;
      var o;
      ghost var l, u;
      o, l, u := NodeUpdate.UpdateNode(db, root, key, value, mode, tree, rest, q, Hist.Height(Shape(tree)), LOWEST,
                                       HIGHEST);
      ghost var spec := Upd.UpdateNode(Shape(t), key, value, mode);
      if !LeafUpdate.Rewrote(o) {
        r := match o case Exists => KeyExists case NotFound => KeyNotFound case _ => Root(root);
        NotRewritten(c0, db.cache, db.Live(), rest + multiset{root}, spec, o, l, u);
        return;
      }
      NodeUpdate.OldPageLive(db, c0, rest, spec, o, l, u, root);
      db.FreePage(root);
      RootRewritten(c0, db.cache, db.Live(), rest, root, spec, o, l, u);
      ghost var c1 := db.cache;
      SetRoot(o, rest, l, u);
      KeptTrans(c0, c1, db.cache, rest, rest);
      r := Root(root);
    }

    /** The page the root was rewritten to, or a new root above the two pages it became. */
    method SetRoot(o: LeafUpdate.Outcome, ghost rest: multiset<PageId>, ghost l: PTree, ghost u: PTree)
      requires db.Open() && LeafUpdate.Rewrote(o)
      requires o.One? ==> l.id == o.id && Stored(db.cache, l) && db.Live() == rest + TreePages(l)
      requires o.Two? ==> l.id == o.left && u.id == o.right && Stored(db.cache, l) && Stored(db.cache, u)
                          && db.Live() == rest + (TreePages(l) + TreePages(u))
      modifies this, db
      ensures db.meta.numPages <= old(db.meta.numPages) + 1
      ensures db.Open() && db.Live() == rest + Pages() && root != 0 && tree.id == root && Stored(db.cache, tree)
      ensures Kept(old(db.cache), db.cache, rest) && db.Past() == old(db.Past()) && db.Still() <= old(db.Still())
      ensures Shaped() == Hist.At(if o.One? then Shape(l) else Node([o.sep], [Shape(l), Shape(u)]))
    {
      hide Protocol.Inv, DB.View, DB.Past, DB.Still, DB.Live, Kept, Stored, Shape, TreePages, AllStored, ForestPages;
      if o.One? {
        KeptOpen(db, rest, TreePages(l));
        root, tree := o.id, l;
      } else {
        TwoKids(db.cache, l, u);
        var n := NodeUpdate.BuildNode(db, [o.sep], [o.left, o.right], [l, u], rest);
        root, tree := n, PNode(n, [o.sep], [l, u]);
        TwoShapes(n, o.sep, l, u);
      }
      RootLive(db, rest, tree);
    }

    /** Delete refines removal from a finite map, on every well-formed tree. A key that is not there changes
        nothing at all. Otherwise the tree function decides: a delete that completes has exactly the other
        entries on exactly the pages of its tree, and that tree is well formed if and only if the delete is
        sound; where no page is empty, completing is enough. */
    method Delete(key: Key, ghost q: Limits, ghost rest: multiset<PageId>) returns (r: DeleteReply)
      requires Valid(q, rest)
      modifies this, db
      ensures db.meta.numPages <= old(db.meta.numPages) + 2 * old(Tall(Shaped())) + 1
      ensures r.TooLarge? <==> Hist.DeleteRoot(old(Shaped()), key).Broken?
      ensures r.NotFound? <==> !Has(old(Contents()), key)
      ensures r.NotFound? ==> r.same == root && unchanged(this) && unchanged(db)
      ensures r.NotFound? ==> Hist.DeleteRoot(old(Shaped()), key).Absent?
      ensures r.Found? ==> r.id == root && Contents() == Remove(old(Contents()), key) && old(root) !in db.Still()
      ensures r.Found? ==> Hist.DeleteRoot(old(Shaped()), key) == Hist.Removed(Shaped())
      ensures !r.TooLarge? ==> OnPages(rest) && Kept(old(db.cache), db.cache, rest)
      ensures Has(old(Contents()), key) ==> (Hist.SoundRoot(old(Shaped()), key) <==> r.Found? && Valid(q, rest))
      ensures old(Hist.RootDense(Shaped())) && !r.TooLarge? ==> Valid(q, rest) && Hist.RootDense(Shaped())
      ensures db.Past() == old(db.Past()) && db.Still() <= old(db.Still())
    {
      hide Protocol.Inv, DB.View, DB.Past, DB.Still, DB.Live, Kept, Stored, Shape, TreePages, Hist.RootWf,
           Hist.RootDense, Hist.DeleteRoot, Has, Remove, Hist.Contents, NodeDelete.Deleted, Del.DeleteNode, Rank, Wf,
           Protocol.FreeStep, Hist.SoundRoot;
      KeptOpen(db, rest, Pages());
      ghost var before := Shaped();
      Hist.DeleteRootSoundly(before, q, key);
      if Hist.RootDense(before) { Hist.DeleteRootRefines(before, q, key); }
      if root == 0 {
        UnfoldDeleteEmpty(key);
        return NotFound(0);
      }
      Hist.UnfoldDeleteRoot(before.t, key);
      RootRange(tree, key, q);
      ghost var c0, t := db.cache, tree;
      var o;
      ghost var l;
      o, l := NodeDelete.DeleteNode(db, root, key, tree, rest, q, Hist.Height(Shape(tree)), LOWEST, HIGHEST);
      DeleteAnswer(c0, db.cache, db.Live(), rest + multiset{root}, Del.DeleteNode(Shape(t), key), o, l);
      if o.Missing? {
        return NotFound(root);
      }
      if o.TooLarge? {
        return TooLarge;
      }
      NodeDelete.OldKidLive(db, c0, rest, Del.DeleteNode(Shape(t), key), o, l, root);
      db.FreePage(root);
      RootDeleted(c0, db.cache, db.Live(), rest, root, Del.DeleteNode(Shape(t), key), o, l);
      DeletedKind(t, q, key, l);
      Collapse(o.id, rest, l);
      r := Found(root);
    }

    /** The new root: nothing if the tree is empty, the only child of a root without separators, or else
        the page itself. */
    method Collapse(id: PageId, ghost rest: multiset<PageId>, ghost l: PTree)
      requires db.Open() && l.id == id && Stored(db.cache, l) && db.Live() == rest + TreePages(l)
      requires NodeDelete.Formed(l)
      modifies this, db`allocs, db`reusable, db`freed, db`books
      ensures db.Open() && db.Live() == rest + Pages() && db.Past() == old(db.Past()) && db.Still() <= old(db.Still())
      ensures root != 0 ==> tree.id == root && Stored(db.cache, tree)
      ensures Shaped() == Hist.Collapsed(Shape(l))
    {
      hide Protocol.Inv, DB.View, DB.Past, DB.Still, DB.Live, Stored, Shape, TreePages, Protocol.FreeStep,
           PagePairs.BodyStored, PagePairs.BodyPages;
      PagePairs.StoredParts(db.cache, l);
      PagePairs.PagesParts(l);
      RootLive(db, rest, l);
      var page := db.cache[id];
      tree := l;
      if page.LeafPage? && page.cells == [] {
        EmptyLeaf(l);
        FreeTop(rest, multiset{}, id);
        root := 0;
      } else if page.InternalPage? && page.keys == [] {
        OnlyChild(db.cache, l);
        FreeTop(rest, TreePages(l.kids[0]), id);
        root, tree := page.kids[0], l.kids[0];
        RootLive(db, rest, tree);
      } else {
        Uncollapsed(db.cache, l);
        root := id;
      }
    }

    method FreeTop(ghost rest: multiset<PageId>, ghost m: multiset<PageId>, id: PageId)
      requires db.Open() && db.Live() == rest + (multiset{id} + m)
      modifies db`allocs, db`reusable, db`freed, db`books
      ensures db.Open() && db.Live() == rest + m && db.Past() == old(db.Past()) && db.Still() <= old(db.Still())
    {
      hide Protocol.Inv, DB.View, DB.Past, DB.Still, DB.Live, Protocol.FreeStep;
      assert rest + (multiset{id} + m) == rest + m + multiset{id};
      NodeDelete.LiveIs(db, rest + m, id);
      db.FreePage(id);
      Cancel(db.Live(), rest + m, multiset{id});
    }

    /** Search finds exactly what the tree holds, and reads only. */
    method Search(key: Key, ghost q: Limits, ghost rest: multiset<PageId>) returns (r: PageSearch.Found)
      requires Valid(q, rest)
      ensures r.Some? <==> Has(Contents(), key)
      ensures r.Some? ==> Reads(Contents(), key, r.value)
    {
      hide Protocol.Inv, DB.View, DB.Live, Stored, Shape, TreePages, Hist.RootWf, Has, Reads, Rank, Wf;
      if root == 0 {
        Hist.EmptyHas(key);
        return PageSearch.None;
      }
      RootRange(tree, key, q);
      r := PageSearch.Search(db.cache, root, key, tree, q, Hist.Height(Shape(tree)), LOWEST, HIGHEST);
    }

    /** FreeAll releases exactly the tree's pages. */
    method FreeAll(ghost q: Limits, ghost rest: multiset<PageId>)
      requires Valid(q, rest)
      modifies db`allocs, db`reusable, db`freed, db`books
      ensures db.Open() && db.Live() == rest && db.Past() == old(db.Past()) && db.Still() <= old(db.Still())
    {
      hide Protocol.Inv, DB.View, DB.Past, DB.Still, DB.Live, Stored, Shape, TreePages, Hist.RootWf;
      if root != 0 {
        FreeSubtree(db, root, tree, rest);
      }
    }
  }

  /** freeSubtree: the chains of a leaf's cells, or the subtrees of an internal page, and then the page. */
  method FreeSubtree(db: DB, id: PageId, ghost t: PTree, ghost rest: multiset<PageId>)
    requires db.Open() && Stored(db.cache, t) && t.id == id && db.Live() == rest + TreePages(t)
    modifies db`allocs, db`reusable, db`freed, db`books
    ensures db.Open() && db.Live() == rest && db.Past() == old(db.Past()) && db.Still() <= old(db.Still())
    decreases t
  {
    hide Protocol.Inv, DB.View, DB.Past, DB.Still, DB.Live, Stored, AllStored, TreePages, ForestPages, RowPages,
         RowsStored, RowStored, Protocol.FreeStep, CellOf;
    PageSearch.RootStored(db.cache, t);
    ghost var m := rest + multiset{id};
    if db.cache[id].LeafPage? {
      NodeUpdate.LeafPages(t);
      PageSearch.StoredLeaf(db.cache, t);
      var cells := db.cache[id].cells;
      assert rest + (multiset{id} + RowPages(t.rows)) == m + RowPages(t.rows[0..]) by { Seqs.FromStart(t.rows); }
      for i := 0 to |cells|
        invariant db.Open() && db.Live() == m + RowPages(t.rows[i..]) && db.Past() == old(db.Past())
                  && db.Still() <= old(db.Still())
      {
        PageSearch.RowAt(db.cache, t.rows, i);
        NextRow(t.rows, i, m);
        LeafUpdate.ReleaseChain(db, cells[i], t.rows[i], m + RowPages(t.rows[i + 1..]));
      }
      NoMoreRows(t.rows, m);
    } else {
      NodeUpdate.NodePages(db.cache, t);
      var children := db.cache[id].kids;
      assert rest + (multiset{id} + ForestPages(t.kids)) == m + ForestPages(t.kids[0..]) by { Seqs.FromStart(t.kids); }
      for i := 0 to |children|
        invariant db.Open() && db.Live() == m + ForestPages(t.kids[i..]) && db.Past() == old(db.Past())
                  && db.Still() <= old(db.Still())
      {
        PageSearch.StoredNode(db.cache, t, i);
        NextKid(t.kids, i, m);
        FreeSubtree(db, children[i], t.kids[i], m + ForestPages(t.kids[i + 1..]));
      }
      NoMoreKids(t.kids, m);
    }
    NodeDelete.LiveIs(db, rest, id);
    db.FreePage(id);
    Cancel(db.Live(), rest, multiset{id});
  }

  lemma NextRow(rows: seq<Row>, i: nat, m: multiset<PageId>)
    requires i < |rows|
    ensures m + RowPages(rows[i..]) == m + RowPages(rows[i + 1..]) + multiset(rows[i].chain)
  {
    assert rows[i..][1..] == rows[i + 1..];
  }

  lemma NoMoreRows(rows: seq<Row>, m: multiset<PageId>)
    ensures m + RowPages(rows[|rows|..]) == m
  {
  }

  lemma NextKid(kids: seq<PTree>, i: nat, m: multiset<PageId>)
    requires i < |kids|
    ensures m + ForestPages(kids[i..]) == m + ForestPages(kids[i + 1..]) + TreePages(kids[i])
  {
    hide TreePages;
    assert kids[i..][1..] == kids[i + 1..];
  }

  lemma NoMoreKids(kids: seq<PTree>, m: multiset<PageId>)
    ensures m + ForestPages(kids[|kids|..]) == m
  {
  }

  lemma UnfoldDeleteEmpty(k: Key)
    ensures Hist.DeleteRoot(Hist.Empty, k) == Hist.Absent
  {
  }

  lemma DeleteAnswer(c0: Store, c1: Store, live: multiset<PageId>, rest: multiset<PageId>, spec: Del.Result,
                     o: NodeDelete.Outcome, l: PTree)
    requires NodeDelete.Deleted(c0, c1, live, rest, spec, o, l)
    ensures (o.Missing? <==> spec.Missing?) && (o.TooLarge? <==> spec.Overflow?)
            && (o.Rewritten? ==> spec == Del.Done(Shape(l)))
  {
  }

  lemma DeletedKind(t: PTree, q: Limits, k: Key, l: PTree)
    requires Hist.RootWf(Hist.At(Shape(t)), q) && Del.DeleteNode(Shape(t), k) == Del.Done(Shape(l))
    ensures NodeDelete.Formed(l)
  {
    hide Rank, Wf, Del.DeleteNode, Shape, Trees.Entries, Remove, Has, Hist.Height;
    RootRange(t, k, q);
    Del.DeleteTakes(Shape(t), q, Hist.Height(Shape(t)), LOWEST, HIGHEST, k);
    NodeDelete.FormedShape(l);
  }

  lemma RootDeleted(c0: Store, c1: Store, live: multiset<PageId>, rest: multiset<PageId>, id: PageId,
                    spec: Del.Result, o: NodeDelete.Outcome, l: PTree)
    requires NodeDelete.Deleted(c0, c1, live + multiset{id}, rest + multiset{id}, spec, o, l) && o.Rewritten?
    ensures Kept(c0, c1, rest) && l.id == o.id && Stored(c1, l) && live == rest + TreePages(l)
  {
    hide Kept, Stored, Shape, TreePages;
    NodeUpdate.KeptLess(c0, c1, rest + multiset{id}, rest);
    assert rest + multiset{id} + TreePages(l) == rest + TreePages(l) + multiset{id};
    Cancel(live, rest + TreePages(l), multiset{id});
  }

  lemma EmptyLeaf(l: PTree)
    requires PagePairs.PageOf(l) == LeafPage([])
    ensures Shape(l) == Leaf([]) && TreePages(l) == multiset{l.id} + multiset{}
  {
  }

  lemma OnlyChild(c: Store, l: PTree)
    requires Stored(c, l) && l.PNode? && l.keys == [] && |l.kids| == 1
    ensures Stored(c, l.kids[0]) && RootIds(l.kids) == [l.kids[0].id]
    ensures TreePages(l) == multiset{l.id} + TreePages(l.kids[0])
    ensures Hist.Collapsed(Shape(l)) == Hist.At(Shape(l.kids[0]))
  {
    hide Shape;
    ShapeNode(l);
    assert l.kids == [l.kids[0]];
    ForestPagesOne(l.kids[0]);
  }

  lemma Uncollapsed(c: Store, l: PTree)
    requires Stored(c, l) && c[l.id] != LeafPage([]) && (c[l.id].InternalPage? ==> c[l.id].keys != [])
    ensures Hist.Collapsed(Shape(l)) == Hist.At(Shape(l))
  {
    if l.PNode? { ShapeNode(l); }
  }

  /** The reply and the new tree are those of the update function on trees. */
  ghost predicate Answers(r: UpdateReply, o: Hist.Outcome, root: PageId, shaped: Hist.Root) {
    match o
    case Ok(t) => r == Root(root) && shaped == t
    case KeyExists => r == KeyExists
    case KeyNotFound => r == KeyNotFound
    case KeyTooBig => r == KeyTooBig
  }

  lemma KeptOpen(db: DB, rest: multiset<PageId>, m: multiset<PageId>)
    requires db.Open() && db.Live() == rest + m
    ensures Kept(db.cache, db.cache, rest)
  {
    hide Protocol.Inv, DB.View, DB.Live;
    NodeDelete.KeptSelf(db, rest, m);
  }

  /** Pages in use are data pages, so none of them has id 0. */
  lemma RootLive(db: DB, rest: multiset<PageId>, t: PTree)
    requires db.Open() && db.Live() == rest + TreePages(t)
    ensures t.id != 0
  {
    hide TreePages, Protocol.Span, Protocol.Isolated, Protocol.Committed, Protocol.Ordered, Protocol.Slots,
         Protocol.Owned, Protocol.Working, Protocol.Shared;
    ProtocolSafety.BuildingFacts(db.View());
    hide Protocol.Inv;
    PagePairs.PagesParts(t);
    assert (rest + TreePages(t))[t.id] >= 1;
    ProtocolSafety.SpanCounts(db.meta.numPages, t.id);
    var s := db.View();
    assert multiset(s.b.live)[t.id] <= Protocol.Span(s.w.meta.numPages)[t.id];
  }

  lemma UpdateDenseIf(r: Hist.Root, q: Limits, k: Key, v: Bytes, mode: Upd.Mode)
    requires Hist.RootWf(r, q) && Storable(Entry(k, v), q)
    ensures Hist.RootDense(r) && Hist.UpdateRoot(r, k, v, mode).Ok? ==>
              Hist.RootDense(Hist.UpdateRoot(r, k, v, mode).root)
  {
    hide Hist.RootWf, Hist.UpdateRoot, Hist.RootDense, Storable;
    if Hist.RootDense(r) { Hist.UpdateRootDense(r, q, k, v, mode); }
  }

  lemma UnfoldEmpty(k: Key, v: Bytes, mode: Upd.Mode)
    requires |k| <= MAX_KEY
    ensures Hist.UpdateRoot(Hist.Empty, k, v, mode) == if mode == Upd.Update then Hist.KeyNotFound
            else Hist.Ok(Hist.At(Leaf([Entry(k, v)])))
  {
  }

  lemma UnfoldAt(t: Tree, k: Key, v: Bytes, mode: Upd.Mode)
    requires |k| <= MAX_KEY
    ensures Hist.UpdateRoot(Hist.At(t), k, v, mode) ==
            match Upd.UpdateNode(t, k, v, mode)
            case Same => Hist.Ok(Hist.At(t))
            case KeyExists => Hist.KeyExists
            case KeyNotFound => Hist.KeyNotFound
            case Changed(g) => Hist.Ok(Hist.At(if g.One? then g.t else Node([g.sep], [g.left, g.right])))
  {
    hide Upd.UpdateNode;
  }

  lemma KeyFits(e: Entry, q: Limits)
    requires Storable(e, q)
    ensures |e.key| <= MAX_KEY
  {
  }

  /** The tree is rewritten unless the key already reads so. */
  lemma ChangedReads(t: Tree, q: Limits, k: Key, v: Bytes, mode: Upd.Mode)
    requires Hist.RootWf(Hist.At(t), q) && Storable(Entry(k, v), q)
    ensures Upd.UpdateNode(t, k, v, mode).Changed? ==> !Reads(Hist.Contents(Hist.At(t)), k, v)
    ensures Upd.UpdateNode(t, k, v, mode).Same? ==> Reads(Hist.Contents(Hist.At(t)), k, v)
  {
    Hist.KeyInRange(k);
    Upd.UpdateRefines(t, q, Hist.Height(t), LOWEST, HIGHEST, k, v, mode);
    hide Upd.UpdateNode, Rank, Put, Has, Reads, Trees.Entries, Wf, Upd.GrownOk, Upd.GrownEntries, Storable;
  }

  lemma EmptyContents()
    ensures Hist.Contents(Hist.Empty) == []
  {
  }

  lemma NoRows(c: Store, rest: multiset<PageId>)
    ensures Cells([]) == [] && LeafUpdate.OtherStored(c, [], 0, false)
            && rest + LeafUpdate.OtherPages([], 0, false) == rest
  {
  }

  lemma OneEntry(e: Entry)
    ensures LeafUpdate.NewEntries(RowEntries([]), 0, e, false) == [e]
  {
  }

  lemma RootRange(t: PTree, k: Key, q: Limits)
    requires Hist.RootWf(Hist.At(Shape(t)), q)
    ensures Wf(Shape(t), q, Hist.Height(Shape(t)), LOWEST, HIGHEST) && LOWEST <= Rank(k) < HIGHEST
  {
    Hist.KeyInRange(k);
    hide Rank, Wf;
  }

  lemma NotRewritten(c0: Store, c1: Store, live: multiset<PageId>, rest: multiset<PageId>, spec: Upd.Result,
                     o: LeafUpdate.Outcome, l: PTree, u: PTree)
    requires LeafUpdate.Updated(c0, c1, live, rest, spec, o, l, u) && !LeafUpdate.Rewrote(o)
    ensures (spec.Same? <==> o.Same?) && (spec.KeyExists? <==> o.Exists?) && (spec.KeyNotFound? <==> o.NotFound?)
            && !spec.Changed?
  {
  }

  lemma RootRewritten(c0: Store, c1: Store, live: multiset<PageId>, rest: multiset<PageId>, id: PageId,
                      spec: Upd.Result, o: LeafUpdate.Outcome, l: PTree, u: PTree)
    requires LeafUpdate.Updated(c0, c1, live + multiset{id}, rest + multiset{id}, spec, o, l, u)
             && LeafUpdate.Rewrote(o)
    ensures spec.Changed? && Kept(c0, c1, rest)
    ensures o.One? ==> spec.g == Upd.One(Shape(l)) && l.id == o.id && Stored(c1, l) && live == rest + TreePages(l)
    ensures o.Two? ==>
              spec.g == Upd.Two(Shape(l), o.sep, Shape(u)) && l.id == o.left && u.id == o.right && Stored(c1, l)
              && Stored(c1, u)
                       && live == rest + (TreePages(l) + TreePages(u))
  {
    hide Kept, Stored, Shape, TreePages;
    NodeUpdate.KeptLess(c0, c1, rest + multiset{id}, rest);
    var m := LeafUpdate.NewPages(o, l, u);
    assert rest + multiset{id} + m == rest + m + multiset{id};
    Cancel(live, rest + m, multiset{id});
  }

  lemma TwoKids(c: Store, l: PTree, u: PTree)
    requires Stored(c, l) && Stored(c, u)
    ensures AllStored(c, [l, u]) && RootIds([l, u]) == [l.id, u.id]
            && ForestPages([l, u]) == TreePages(l) + TreePages(u)
  {
    ForestPagesTwo(l, u);
    hide Stored, TreePages, ForestPages;
  }

  lemma TwoShapes(n: PageId, sep: Key, l: PTree, u: PTree)
    ensures Shape(PNode(n, [sep], [l, u])) == Node([sep], [Shape(l), Shape(u)])
  {
    hide Shape;
    assert Shapes([l, u]) == [Shape(l), Shape(u)];
    ShapeNode(PNode(n, [sep], [l, u]));
  }
}
