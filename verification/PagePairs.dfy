/** Two sibling pages as one: moving a cell between them, and merging them. The pages are handled cell by
    cell as the program does; the results are the joined content of both, cut at the right place. */
module PagePairs {
  import opened Keys
  import opened Layout
  import opened Trees
  import Del = TreeDelete
  import opened Pages
  import opened Transactions
  import opened Placed
  import opened PageSearch
  import Seqs

  // ---- pages ----

  function PageCells(p: Page): nat {
    match p
    case LeafPage(cells) => |cells|
    case InternalPage(keys, _) => |keys|
    case _ => 0
  }

  function PageUsed(p: Page): nat {
    match p
    case LeafPage(cells) => CellsUsed(cells)
    case InternalPage(keys, _) => NodeUsed(keys)
    case _ => 0
  }

  function PageLastCost(p: Page): nat {
    match p
    case LeafPage(cells) => if cells == [] then 0 else CellSize(cells[|cells| - 1]) + 2
    case InternalPage(keys, _) => if keys == [] then 0 else SepCost(keys[|keys| - 1])
    case _ => 0
  }

  predicate PageUnderfull(p: Page) { PageCells(p) < MIN_CELLS || PageUsed(p) < PAGE_SIZE / 4 }

  /** siblingCanDonate. */
  predicate PageCanDonate(p: Page) { PageCells(p) > MIN_CELLS && PageUsed(p) - PageLastCost(p) >= PAGE_SIZE / 4 }

  /** Both leaves, or both internal pages with one child more than separators. */
  predicate Alike(l: Page, r: Page) {
    || (l.LeafPage? && r.LeafPage?)
    || (l.InternalPage? && r.InternalPage? && |l.kids| == |l.keys| + 1 && |r.kids| == |r.keys| + 1)
  }

  function JoinPages(l: Page, sep: Key, r: Page): Page
    requires Alike(l, r)
  {
    if l.LeafPage? then LeafPage(l.cells + r.cells) else InternalPage(l.keys + [sep] + r.keys, l.kids + r.kids)
  }

  datatype Halves = Halves(left: Page, sep: Key, right: Page)

  function CutPage(p: Page, s: nat): Halves
    requires s < PageCells(p) && (p.InternalPage? ==> |p.kids| == |p.keys| + 1)
  {
    match p
    case LeafPage(cells) => Halves(LeafPage(cells[..s]), cells[s].key, LeafPage(cells[s..]))
    case InternalPage(keys, kids) =>
      Halves(InternalPage(keys[..s], kids[..s + 1]), keys[s], InternalPage(keys[s + 1..], kids[s + 1..]))
  }

  /** The left sibling's last cell moves to the child; an internal pair rotates it through the parent. */
  method BorrowFromLeft(left: Page, sep: Key, child: Page) returns (r: Halves)
    requires Alike(left, child) && PageCells(left) > 1
    ensures r == CutPage(JoinPages(left, sep, child), PageCells(left) - 1)
  {
    var b := PageCells(left) - 1;
    if child.LeafPage? {
      var cells := [left.cells[b]] + child.cells;
      r := Halves(LeafPage(left.cells[..b] + left.cells[b + 1..]), cells[0].key, LeafPage(cells));
      CutBefore(left.cells, child.cells);
      assert left.cells[b + 1..] == [];
      Seqs.Empty(left.cells[..b]);
    } else {
      var pulledUpKey, pushedDownChild, newLeftRightmost := left.keys[b], left.kids[b + 1], left.kids[b];
      r := Halves(InternalPage(left.keys[..b], left.kids[..b] + [newLeftRightmost]), pulledUpKey,
                  InternalPage([sep] + child.keys, [pushedDownChild] + child.kids));
      CutKeysBefore(left.keys, sep, child.keys);
      CutBefore(left.kids, child.kids);
      Seqs.TakeNext(left.kids, b);
    }
  }

  /** The right sibling's first cell moves to the child. */
  method BorrowFromRight(child: Page, sep: Key, right: Page) returns (r: Halves)
    requires Alike(child, right) && PageCells(right) > 1
    ensures r == CutPage(JoinPages(child, sep, right), PageCells(child) + 1)
  {
    var n := PageCells(child);
    if child.LeafPage? {
      var cells := right.cells[1..];
      r := Halves(LeafPage(child.cells + [right.cells[0]]), cells[0].key, LeafPage(cells));
      CutAfter(child.cells, right.cells);
    } else {
      var pulledUpKey, pushedDownChild, newChildRightmost := right.keys[0], child.kids[n], right.kids[0];
      r := Halves(InternalPage(child.keys + [sep], child.kids[..n] + [pushedDownChild] + [newChildRightmost]),
                  pulledUpKey,
                  InternalPage(right.keys[1..], right.kids[1..]));
      CutKeysAfter(child.keys, sep, right.keys);
      CutAfter(child.kids, right.kids);
      Seqs.TakeNext(child.kids, n);
      Seqs.TakeAll(child.kids);
    }
  }

  // joined lists, cut one element before or after the seam

  lemma CutBefore<T>(a: seq<T>, b: seq<T>)
    requires a != []
    ensures var k := |a| - 1; (a + b)[..k] == a[..k] && (a + b)[k] == a[k] && (a + b)[k..] == [a[k]] + b
  {
  }

  lemma CutAfter<T>(a: seq<T>, b: seq<T>)
    requires b != []
    ensures var k := |a| + 1; (a + b)[..k] == a + [b[0]] && (a + b)[k..] == b[1..] && (|b| > 1 ==> (a + b)[k] == b[1])
  {
  }

  lemma CutKeysBefore(a: seq<Key>, sep: Key, b: seq<Key>)
    requires a != []
    ensures var k, all := |a| - 1, a + [sep] + b; all[..k] == a[..k] && all[k] == a[k] && all[k + 1..] == [sep] + b
  {
  }

  lemma CutKeysAfter(a: seq<Key>, sep: Key, b: seq<Key>)
    requires b != []
    ensures var k, all := |a| + 1, a + [sep] + b; all[..k] == a + [sep] && all[k] == b[0] && all[k + 1..] == b[1..]
  {
  }

  /** Two siblings in one page; an internal pair takes the separator down between them. */
  method MergePages(left: Page, sep: Key, right: Page) returns (p: Page)
    requires Alike(left, right)
    ensures p == JoinPages(left, sep, right)
  {
    if left.LeafPage? {
      p := LeafPage(left.cells + right.cells);
    } else {
      var n := |left.keys|;
      p := InternalPage(left.keys + [sep] + right.keys, left.kids[..n] + [left.kids[n]] + right.kids);
    }
  }

  /** The parent's cells after a borrow across separator i. */
  method RebuildParentForBorrow(keys: seq<Key>, kids: seq<PageId>, i: nat, left: PageId, sep: Key, right: PageId)
    returns (ks: seq<Key>, ts: seq<PageId>)
    requires i < |keys| && |kids| == |keys| + 1
    ensures ks == keys[..i] + ([sep] + keys[i + 1..]) && ts == kids[..i] + ([left, right] + kids[i + 2..])
  {
    var nCells := |keys|;
    ks, ts := keys[..i] + [sep], kids[..i] + [left];
    if i + 1 < nCells {
      ks, ts := ks + [keys[i + 1]] + keys[i + 2..], ts + [right] + kids[i + 2..nCells] + [kids[nCells]];
    } else {
      ts := ts + [right];
    }
  }

  /** The parent's cells after the children around separator i were merged. */
  method RebuildParentForMerge(keys: seq<Key>, kids: seq<PageId>, i: nat, merged: PageId)
    returns (ks: seq<Key>, ts: seq<PageId>)
    requires i < |keys| && |kids| == |keys| + 1
    ensures ks == keys[..i] + ([] + keys[i + 1..]) && ts == kids[..i] + ([merged] + kids[i + 2..])
  {
    var nCells := |keys|;
    ks, ts := keys[..i], kids[..i];
    if i + 1 < nCells {
      ks, ts := ks + [keys[i + 1]] + keys[i + 2..], ts + [merged] + kids[i + 2..nCells] + [kids[nCells]];
    } else {
      ts := ts + [merged];
    }
  }

  // ---- placed trees: their page, and what hangs below it ----

  ghost function PageOf(t: PTree): Page {
    match t
    case PLeaf(_, rows) => LeafPage(Cells(rows))
    case PNode(_, keys, kids) => InternalPage(keys, RootIds(kids))
  }

  ghost function BodyPages(t: PTree): multiset<PageId> {
    match t
    case PLeaf(_, rows) => RowPages(rows)
    case PNode(_, _, kids) => ForestPages(kids)
  }

  ghost predicate BodyStored(c: Store, t: PTree) {
    match t
    case PLeaf(_, rows) => RowsStored(c, rows)
    case PNode(_, _, kids) => AllStored(c, kids)
  }

  lemma StoredParts(c: Store, t: PTree)
    ensures Stored(c, t) <==> t.id in c && c[t.id] == PageOf(t) && BodyStored(c, t)
  {
  }

  lemma PagesParts(t: PTree)
    ensures TreePages(t) == multiset{t.id} + BodyPages(t)
  {
  }

  lemma BodyKept(c0: Store, c1: Store, t: PTree, m: multiset<PageId>)
    requires BodyStored(c0, t) && Kept(c0, c1, m) && BodyPages(t) <= m
    ensures BodyStored(c1, t)
  {
    hide RowsStored, AllStored, RowPages, ForestPages, Kept;
    match t
    case PLeaf(_, rows) => RowsKept(c0, c1, rows, m);
    case PNode(_, _, kids) => AllStoredKept(c0, c1, kids, m);
  }

  lemma BodyElsewhere(c: Store, n: PageId, page: Page, t: PTree)
    requires BodyStored(c, t) && BodyPages(t)[n] == 0
    ensures BodyStored(c[n := page], t)
  {
    hide RowsStored, AllStored, RowPages, ForestPages;
    match t {
      case PLeaf(_, rows) => RowPagesCached(c, rows);
      case PNode(_, _, kids) => ForestPagesCached(c, kids);
    }
    KeptUpdate(c, n, page, BodyPages(t));
    BodyKept(c, c[n := page], t, BodyPages(t));
  }

  /** The measures the program takes of a page are those of its content. */
  lemma Measures(c: Store, t: PTree)
    requires BodyStored(c, t)
    ensures PageCells(PageOf(t)) == Del.Cells(Shape(t)) && PageUsed(PageOf(t)) == Del.Used(Shape(t))
    ensures PageUnderfull(PageOf(t)) == Del.Underfull(Shape(t)) && PageCanDonate(PageOf(t)) == Del.CanDonate(Shape(t))
  {
    hide Sum, EntryCost, CellSize, RowStored;
    match t
    case PLeaf(_, rows) =>
      StoredFit(c, rows);
      RowCosts(rows);
      if rows != [] {
        var last := |rows| - 1;
        assert CellCosts(Cells(rows))[last] == EntryCosts(RowEntries(rows))[last];
      }
    case PNode(_, _, _) => ShapeNode(t);
  }

  ghost predicate AlikeTrees(l: PTree, r: PTree) {
    || (l.PLeaf? && r.PLeaf?)
    || (l.PNode? && r.PNode? && |l.kids| == |l.keys| + 1 && |r.kids| == |r.keys| + 1)
  }

  ghost function JoinTrees(l: PTree, sep: Key, r: PTree): PTree
    requires AlikeTrees(l, r)
  {
    if l.PLeaf? then PLeaf(0, l.rows + r.rows) else PNode(0, l.keys + [sep] + r.keys, l.kids + r.kids)
  }

  lemma JoinTreesIs(c: Store, l: PTree, sep: Key, r: PTree)
    requires AlikeTrees(l, r) && BodyStored(c, l) && BodyStored(c, r)
    ensures var t := JoinTrees(l, sep, r);
      && Alike(PageOf(l), PageOf(r)) && PageOf(t) == JoinPages(PageOf(l), sep, PageOf(r))
      && Del.SameKind(Shape(l), Shape(r)) && Shape(t) == Del.Joined(Shape(l), sep, Shape(r))
      && BodyStored(c, t) && BodyPages(t) == BodyPages(l) + BodyPages(r)
      && (t.PNode? ==> |t.kids| == |t.keys| + 1)
  {
    hide Stored, RowStored, RowPages, ForestPages;
    var t := JoinTrees(l, sep, r);
    if l.PLeaf? {
      RowPagesAppend(l.rows, r.rows);
      assert RowEntries(l.rows + r.rows) == RowEntries(l.rows) + RowEntries(r.rows);
      assert Cells(l.rows + r.rows) == Cells(l.rows) + Cells(r.rows);
    } else {
      JoinNodes(l, sep, r);
      assert RootIds(l.kids + r.kids) == RootIds(l.kids) + RootIds(r.kids);
    }
  }

  lemma JoinNodes(l: PTree, sep: Key, r: PTree)
    requires AlikeTrees(l, r) && l.PNode?
    ensures Del.SameKind(Shape(l), Shape(r)) && Shape(JoinTrees(l, sep, r)) == Del.Joined(Shape(l), sep, Shape(r))
    ensures BodyPages(JoinTrees(l, sep, r)) == BodyPages(l) + BodyPages(r)
  {
    hide Shape, ForestPages;
    ShapeNode(l);
    ShapeNode(r);
    ShapeNode(JoinTrees(l, sep, r));
    ShapesAppend(l.kids, r.kids);
    ForestPagesAppend(l.kids, r.kids);
  }

  ghost function CutLeft(t: PTree, s: nat): PTree
    requires s < PageCells(PageOf(t)) && (t.PNode? ==> |t.kids| == |t.keys| + 1)
  {
    match t
    case PLeaf(_, rows) => PLeaf(0, rows[..s])
    case PNode(_, keys, kids) => PNode(0, keys[..s], kids[..s + 1])
  }

  ghost function CutRight(t: PTree, s: nat): PTree
    requires s < PageCells(PageOf(t)) && (t.PNode? ==> |t.kids| == |t.keys| + 1)
  {
    match t
    case PLeaf(_, rows) => PLeaf(0, rows[s..])
    case PNode(_, keys, kids) => PNode(0, keys[s + 1..], kids[s + 1..])
  }

  lemma CutTreesIs(c: Store, t: PTree, s: nat)
    requires BodyStored(c, t) && s < PageCells(PageOf(t)) && (t.PNode? ==> |t.kids| == |t.keys| + 1)
    ensures s < Del.Cells(Shape(t)) && (Shape(t).Node? ==> |Shape(t).kids| == |Shape(t).keys| + 1)
    ensures var h, p := CutPage(PageOf(t), s), Del.CutAt(Shape(t), s);
      && PageOf(CutLeft(t, s)) == h.left && PageOf(CutRight(t, s)) == h.right && h.sep == p.sep
      && Shape(CutLeft(t, s)) == p.left && Shape(CutRight(t, s)) == p.right
    ensures BodyStored(c, CutLeft(t, s)) && BodyStored(c, CutRight(t, s))
    ensures BodyPages(t) == BodyPages(CutLeft(t, s)) + BodyPages(CutRight(t, s))
  {
    if t.PLeaf? { CutLeafTrees(c, t, s); } else { CutNodeTrees(c, t, s); }
  }

  lemma CutLeafTrees(c: Store, t: PTree, s: nat)
    requires t.PLeaf? && BodyStored(c, t) && s < PageCells(PageOf(t))
    ensures var h, p := CutPage(PageOf(t), s), Del.CutAt(Shape(t), s);
      && PageOf(CutLeft(t, s)) == h.left && PageOf(CutRight(t, s)) == h.right && h.sep == p.sep
      && Shape(CutLeft(t, s)) == p.left && Shape(CutRight(t, s)) == p.right
    ensures BodyStored(c, CutLeft(t, s)) && BodyStored(c, CutRight(t, s))
    ensures BodyPages(t) == BodyPages(CutLeft(t, s)) + BodyPages(CutRight(t, s))
  {
    hide RowStored, RowPages, Sum;
    Seqs.Parts(t.rows, s);
    RowPagesAppend(t.rows[..s], t.rows[s..]);
    StoredFit(c, t.rows);
    RowCosts(t.rows);
    assert RowEntries(t.rows[..s]) == RowEntries(t.rows)[..s] && RowEntries(t.rows[s..]) == RowEntries(t.rows)[s..];
    assert Cells(t.rows[..s]) == Cells(t.rows)[..s] && Cells(t.rows[s..]) == Cells(t.rows)[s..];
  }

  lemma CutNodeTrees(c: Store, t: PTree, s: nat)
    requires t.PNode? && BodyStored(c, t) && s < PageCells(PageOf(t)) && |t.kids| == |t.keys| + 1
    ensures s < Del.Cells(Shape(t)) && (Shape(t).Node? ==> |Shape(t).kids| == |Shape(t).keys| + 1)
    ensures var h, p := CutPage(PageOf(t), s), Del.CutAt(Shape(t), s);
      && PageOf(CutLeft(t, s)) == h.left && PageOf(CutRight(t, s)) == h.right && h.sep == p.sep
      && Shape(CutLeft(t, s)) == p.left && Shape(CutRight(t, s)) == p.right
    ensures BodyStored(c, CutLeft(t, s)) && BodyStored(c, CutRight(t, s))
    ensures BodyPages(t) == BodyPages(CutLeft(t, s)) + BodyPages(CutRight(t, s))
  {
    hide Stored, Shape, ForestPages;
    Seqs.Parts(t.kids, s + 1);
    ForestPagesAppend(t.kids[..s + 1], t.kids[s + 1..]);
    ShapeNode(t);
    ShapeNode(CutLeft(t, s));
    ShapeNode(CutRight(t, s));
    ShapesSlice(t.kids, 0, s + 1);
    ShapesSlice(t.kids, s + 1, |t.kids|);
    assert RootIds(t.kids[..s + 1]) == RootIds(t.kids)[..s + 1] && RootIds(t.kids[s + 1..]) == RootIds(t.kids)[s + 1..];
  }

  lemma Moved(t: PTree, n: PageId)
    ensures PageOf(t.(id := n)) == PageOf(t) && BodyPages(t.(id := n)) == BodyPages(t) && Shape(t.(id := n)) == Shape(t)
    ensures forall c: Store :: BodyStored(c, t.(id := n)) == BodyStored(c, t)
  {
  }
}
