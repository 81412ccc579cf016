/** Cursors: walking a stored tree with an explicit stack, against the in-order list of its entries. */
module Cursors {
  import opened Keys
  import opened OrderedMap
  import opened Layout
  import opened Values
  import opened Trees
  import opened Pages
  import opened Placed
  import opened PageSearch
  import NodeUpdate
  import NodeDelete
  import TreeSound
  import TB = TreeBulk
  import Hist = TreeHistory
  import Seqs

  datatype Frame = Frame(id: PageId, idx: nat)

  datatype Item = End | Item(key: Key, value: Bytes)

  /** An entry as a cursor shows it. */
  function Shown(e: Entry): Item { Item(e.key, AsRead(e.value)) }

  // ---- trees a cursor can walk ----

  /** No leaf is empty, and an internal page has one child more than separators. */
  ghost predicate Leafy(t: PTree)
    decreases t
  {
    match t
    case PLeaf(_, rows) => rows != []
    case PNode(_, keys, kids) => |kids| == |keys| + 1 && forall i :: 0 <= i < |kids| ==> Leafy(kids[i])
  }

  /** The trees that writes and deletes build have no empty leaf. */
  lemma {:induction false} DenseLeafy(t: PTree, q: Limits, h: nat, lo: real, hi: real)
    requires Wf(Shape(t), q, h, lo, hi) && Dense(Shape(t)) && Occupied(Shape(t))
    ensures Leafy(t)
    decreases t
  {
    hide Rank, Wf, Dense;
    NodeDelete.TreeKind(t, q, h, lo, hi);
    if t.PNode? {
      ShapeNode(t);
      forall i | 0 <= i < |t.kids| ensures Leafy(t.kids[i]) {
        WfNode(t.keys, Shapes(t.kids), q, h, lo, hi, i);
        TreeSound.DenseKids(t.keys, Shapes(t.kids), i);
        DenseLeafy(t.kids[i], q, h - 1, Lo(t.keys, i, lo), Hi(t.keys, i, hi));
      }
    }
  }

  /** Nor have the trees the bulk loader builds. */
  lemma {:induction false} FilledLeafy(t: PTree, q: Limits, h: nat, lo: real, hi: real, target: nat)
    requires Wf(Shape(t), q, h, lo, hi) && TB.Filled(Shape(t), target)
    ensures Leafy(t)
    decreases t
  {
    hide Rank, Wf, LeafUsed, NodeUsed;
    NodeDelete.TreeKind(t, q, h, lo, hi);
    if t.PNode? {
      ShapeNode(t);
      forall i | 0 <= i < |t.kids| ensures Leafy(t.kids[i]) {
        WfNode(t.keys, Shapes(t.kids), q, h, lo, hi, i);
        FilledLeafy(t.kids[i], q, h - 1, Lo(t.keys, i, lo), Hi(t.keys, i, hi), target);
      }
    }
  }

  ghost function InOrder(t: PTree): seq<Entry> { Entries(Shape(t)) }

  ghost function InOrderAll(ts: seq<PTree>): seq<Entry> { Flatten(Shapes(ts)) }

  lemma ListNode(t: PTree)
    requires t.PNode?
    ensures InOrder(t) == InOrderAll(t.kids)
  {
    ShapeNode(t);
  }

  lemma ListLeaf(t: PTree)
    requires t.PLeaf?
    ensures InOrder(t) == RowEntries(t.rows)
  {
  }

  lemma ListsAround(ts: seq<PTree>, i: nat)
    requires i < |ts|
    ensures InOrderAll(ts) == InOrderAll(ts[..i]) + InOrder(ts[i]) + InOrderAll(ts[i + 1..])
    ensures InOrderAll(ts[..i + 1]) == InOrderAll(ts[..i]) + InOrder(ts[i])
    ensures InOrderAll(ts[i..]) == InOrder(ts[i]) + InOrderAll(ts[i + 1..])
  {
    hide Flatten, Shape, Entries;
    ListsAppend(ts[..i], [ts[i]]);
    ListsAppend([ts[i]], ts[i + 1..]);
    ListsAppend(ts[..i + 1], ts[i + 1..]);
    Seqs.TakeNext(ts, i);
    Seqs.DropFirst(ts, i);
    Seqs.Parts(ts, i + 1);
    assert Shapes([ts[i]]) == [Shape(ts[i])];
    FlattenOne(Shape(ts[i]));
  }

  lemma ListsAppend(a: seq<PTree>, b: seq<PTree>)
    ensures InOrderAll(a + b) == InOrderAll(a) + InOrderAll(b)
  {
    hide Flatten, Shape;
    ShapesAppend(a, b);
    FlattenAppend(Shapes(a), Shapes(b));
  }

  lemma NoLists(ts: seq<PTree>)
    ensures InOrderAll(ts[..0]) == [] && InOrderAll(ts[|ts|..]) == []
  {
    assert Shapes(ts[..0]) == [] && Shapes(ts[|ts|..]) == [];
  }

  // ---- partial paths: the internal frames of a stack ----

  ghost predicate Path(t: PTree, s: seq<Frame>)
    decreases |s|
  {
    s == [] || (t.PNode? && s[0].id == t.id && s[0].idx < |t.kids| && Path(t.kids[s[0].idx], s[1..]))
  }

  /** The subtree a path leads to. */
  ghost function Under(t: PTree, s: seq<Frame>): PTree
    requires Path(t, s)
    decreases |s|
  {
    if s == [] then t else Under(t.kids[s[0].idx], s[1..])
  }

  /** The entries in front of that subtree, and those behind it. */
  ghost function Before(t: PTree, s: seq<Frame>): seq<Entry>
    requires Path(t, s)
    decreases |s|
  {
    if s == [] then [] else InOrderAll(t.kids[..s[0].idx]) + Before(t.kids[s[0].idx], s[1..])
  }

  ghost function After(t: PTree, s: seq<Frame>): seq<Entry>
    requires Path(t, s)
    decreases |s|
  {
    if s == [] then [] else After(t.kids[s[0].idx], s[1..]) + InOrderAll(t.kids[s[0].idx + 1..])
  }

  lemma {:induction false} PathSplits(t: PTree, s: seq<Frame>)
    requires Path(t, s)
    ensures InOrder(t) == Before(t, s) + InOrder(Under(t, s)) + After(t, s)
    decreases |s|
  {
    hide InOrder, InOrderAll;
    if s != [] {
      var kid := t.kids[s[0].idx];
      PathSplits(kid, s[1..]);
      ListNode(t);
      ListsAround(t.kids, s[0].idx);
      Regroup(InOrderAll(t.kids[..s[0].idx]), Before(kid, s[1..]), InOrder(Under(kid, s[1..])), After(kid, s[1..]),
              InOrderAll(t.kids[s[0].idx + 1..]));
    }
  }

  lemma Regroup<T>(a: seq<T>, b: seq<T>, c: seq<T>, d: seq<T>, e: seq<T>)
    ensures a + (b + c + d) + e == (a + b) + c + (d + e)
  {
  }

  /** A frame pushed on a path. */
  lemma {:induction false} PathPush(t: PTree, s: seq<Frame>, f: Frame)
    requires Path(t, s) && Under(t, s).PNode? && f.id == Under(t, s).id && f.idx < |Under(t, s).kids|
    ensures Path(t, s + [f])
    ensures var u := Under(t, s);
      && Under(t, s + [f]) == u.kids[f.idx]
      && Before(t, s + [f]) == Before(t, s) + InOrderAll(u.kids[..f.idx])
      && After(t, s + [f]) == InOrderAll(u.kids[f.idx + 1..]) + After(t, s)
    decreases |s|
  {
    hide InOrderAll;
    if s == [] {
      assert (s + [f])[1..] == [];
      Seqs.Empty(InOrderAll(t.kids[..f.idx]));
    } else {
      var kid := t.kids[s[0].idx];
      PathPush(kid, s[1..], f);
      assert (s + [f])[1..] == s[1..] + [f];
      Seqs.Assoc(InOrderAll(t.kids[..s[0].idx]), Before(kid, s[1..]), InOrderAll(Under(t, s).kids[..f.idx]));
      Seqs.Assoc(InOrderAll(Under(t, s).kids[f.idx + 1..]), After(kid, s[1..]), InOrderAll(t.kids[s[0].idx + 1..]));
    }
  }

  /** The last frame of a path, taken off. */
  lemma {:induction false} PathPop(t: PTree, s: seq<Frame>)
    requires Path(t, s) && s != []
    ensures var p, f := s[..|s| - 1], s[|s| - 1];
      Path(t, p) && Under(t, p).PNode? && f.id == Under(t, p).id && f.idx < |Under(t, p).kids|
    decreases |s|
  {
    if |s| > 1 {
      PathPop(t.kids[s[0].idx], s[1..]);
      assert s[..|s| - 1][1..] == s[1..][..|s| - 2];
    }
  }

  lemma {:induction false} PathStored(store: Store, t: PTree, s: seq<Frame>)
    requires Path(t, s) && Stored(store, t) && Leafy(t)
    ensures Stored(store, Under(t, s)) && Leafy(Under(t, s))
    decreases |s|
  {
    if s != [] { PathStored(store, t.kids[s[0].idx], s[1..]); }
  }


  // ---- the cursor ----

  class Cursor {
    const store: Store
    const root: PageId
    ghost const tree: PTree
    var stack: seq<Frame>

    /** The cursor's tree is stored under its root. */
    ghost predicate Ready() {
      root != 0 ==> tree.id == root && Stored(store, tree) && Leafy(tree)
    }

    /** Every entry of the tree, in order. */
    ghost function All(): seq<Entry> {
      if root == 0 then [] else InOrder(tree)
    }

    /** The stack leads to a cell of a leaf, or just behind the last one. */
    ghost predicate AtLeaf()
      reads this
    {
      && root != 0 && stack != []
      && var p, f := stack[..|stack| - 1], stack[|stack| - 1];
      && Path(tree, p) && Under(tree, p).PLeaf? && f.id == Under(tree, p).id && f.idx <= |Under(tree, p).rows|
    }

    /** How many entries the cursor has behind it. */
    ghost function Position(): nat
      requires AtLeaf()
      reads this
    {
      |Before(tree, stack[..|stack| - 1])| + stack[|stack| - 1].idx
    }

    ghost predicate OnCell()
      reads this
    {
      AtLeaf() && stack[|stack| - 1].idx < |Under(tree, stack[..|stack| - 1]).rows|
    }

    /** The cursor is on entry p and r shows it; or there is no such entry, and the cursor is closed. */
    ghost predicate Shows(r: Item, p: int)
      reads this
    {
      if 0 <= p < |All()| then OnCell() && Position() == p && r == Shown(All()[p])
      else stack == [] && r == End
    }

    constructor (store: Store, root: PageId, ghost tree: PTree)
      ensures this.store == store && this.root == root && this.tree == tree && stack == []
    {
      this.store, this.root, this.tree, stack := store, root, tree, [];
    }

    /** The key and value under the cursor. */
    method KeyValue() returns (r: Item)
      requires Ready() && OnCell()
      ensures Position() < |All()| && r == Shown(All()[Position()])
    {
      hide Path, Under, Before, After, Stored, Leafy, RowsStored, RowStored, InOrder, CellOf;
      ghost var p := stack[..|stack| - 1];
      var f := stack[|stack| - 1];
      PathStored(store, tree, p);
      ghost var u := Under(tree, p);
      RootStored(store, u);
      StoredLeaf(store, u);
      RowAt(store, u.rows, f.idx);
      StoredFit(store, u.rows);
      RowCosts(u.rows);
      var cell := store[f.id].cells[f.idx];
      var v := LeafValue(store, cell, u.rows[f.idx]);
      PathSplits(tree, p);
      ListLeaf(u);
      r := Item(cell.key, v);
    }

    /** Down to the first cell below a page. */
    method DescendLeftmost(id: PageId)
      requires Ready() && root != 0 && Path(tree, stack) && Under(tree, stack).id == id
      modifies this
      ensures OnCell() && Position() == |Before(tree, old(stack))|
    {
      hide Path, Under, Before, After, Stored, Leafy, InOrderAll;
      var n := id;
      PathStored(store, tree, stack);
      RootStored(store, Under(tree, stack));
      while store[n].InternalPage?
        invariant Path(tree, stack) && Under(tree, stack).id == n && n in store
        invariant Stored(store, Under(tree, stack)) && Leafy(Under(tree, stack))
        invariant store[n].InternalPage? <==> Under(tree, stack).PNode?
        invariant Before(tree, stack) == Before(tree, old(stack))
        decreases Under(tree, stack)
      {
        ghost var u := Under(tree, stack);
        FirstKid(store, u);
        PathPush(tree, stack, Frame(n, 0));
        NoLists(u.kids);
        Seqs.Empty(Before(tree, stack));
        stack := stack + [Frame(n, 0)];
        n := store[n].kids[0];
        RootStored(store, Under(tree, stack));
      }
      LeafHasRows(Under(tree, stack));
      Seqs.Snoc(stack, Frame(n, 0));
      stack := stack + [Frame(n, 0)];
    }

    /** Down to the last cell below a page. */
    method DescendRightmost(id: PageId)
      requires Ready() && root != 0 && Path(tree, stack) && Under(tree, stack).id == id
      modifies this
      ensures OnCell() && Position() + 1 == |Before(tree, old(stack))| + |InOrder(Under(tree, old(stack)))|
    {
      hide Path, Under, Before, After, Stored, Leafy, InOrderAll, InOrder;
      var n := id;
      PathStored(store, tree, stack);
      RootStored(store, Under(tree, stack));
      while store[n].InternalPage?
        invariant Path(tree, stack) && Under(tree, stack).id == n && n in store
        invariant Stored(store, Under(tree, stack)) && Leafy(Under(tree, stack))
        invariant store[n].InternalPage? <==> Under(tree, stack).PNode?
        invariant |Before(tree, stack)| + |InOrder(Under(tree, stack))| ==
                  |Before(tree, old(stack))| + |InOrder(Under(tree, old(stack)))|
        decreases Under(tree, stack)
      {
        ghost var u := Under(tree, stack);
        LastKid(store, u);
        var nCells := |store[n].keys|;
        PathPush(tree, stack, Frame(n, nCells));
        stack := stack + [Frame(n, nCells)];
        n := store[n].kids[nCells];
        RootStored(store, Under(tree, stack));
      }
      LeafHasRows(Under(tree, stack));
      StoredLeaf(store, Under(tree, stack));
      ListLeaf(Under(tree, stack));
      var nCells := |store[n].cells|;
      var idx := if nCells > 0 then nCells - 1 else 0;
      Seqs.Snoc(stack, Frame(n, idx));
      stack := stack + [Frame(n, idx)];
    }

    /** The smallest key. */
    method First() returns (r: Item)
      requires Ready()
      modifies this
      ensures Shows(r, 0)
    {
      hide Path, Under, Before, After, Stored, Leafy, InOrder;
      stack := [];
      if root == 0 {
        return End;
      }
      RootPath(tree);
      DescendLeftmost(root);
      r := KeyValue();
    }

    /** The largest key. */
    method Last() returns (r: Item)
      requires Ready()
      modifies this
      ensures Shows(r, |All()| - 1)
    {
      hide Path, Under, Before, After, Stored, Leafy, InOrder;
      stack := [];
      if root == 0 {
        return End;
      }
      RootPath(tree);
      DescendRightmost(root);
      r := KeyValue();
    }

    /** Up to the first page with another child to the right, and down to that child's first cell. */
    method ClimbRight() returns (r: Item)
      requires Ready() && root != 0 && Path(tree, stack)
      modifies this
      ensures Shows(r, |Before(tree, old(stack))| + |InOrder(Under(tree, old(stack)))|)
    {
      hide Path, Under, Before, After, Stored, Leafy, InOrder, InOrderAll;
      ghost var p := |Before(tree, stack)| + |InOrder(Under(tree, stack))|;
      while |stack| > 0
        invariant Path(tree, stack) && |Before(tree, stack)| + |InOrder(Under(tree, stack))| == p
        decreases |stack|
      {
        var below, top := stack[..|stack| - 1], stack[|stack| - 1];
        LastFrame(store, tree, stack);
        if top.idx < |store[top.id].keys| {
          StepRight(tree, below, top);
          stack := below + [Frame(top.id, top.idx + 1)];
          DescendLeftmost(store[top.id].kids[top.idx + 1]);
          r := KeyValue();
          return;
        }
        RightEnd(tree, below, top);
        stack := below;
      }
      RootPath(tree);
      r := End;
    }

    /** The next key: in the same leaf, or the first of the next leaf. From behind the last cell of a leaf,
        the first of the next leaf. */
    method Next() returns (r: Item)
      requires Ready() && (stack == [] || AtLeaf())
      modifies this
      ensures old(stack) == [] ==> r == End && stack == []
      ensures old(stack) != [] ==> Shows(r, old(Position()) + (if old(OnCell()) then 1 else 0))
    {
      hide Path, Under, Before, After, Stored, Leafy, InOrder;
      if |stack| == 0 {
        return End;
      }
      var below, leaf := stack[..|stack| - 1], stack[|stack| - 1];
      LeafPageOf(store, tree, below);
      if leaf.idx + 1 < |store[leaf.id].cells| {
        Seqs.Snoc(below, Frame(leaf.id, leaf.idx + 1));
        stack := below + [Frame(leaf.id, leaf.idx + 1)];
        r := KeyValue();
        return;
      }
      stack := below;
      r := ClimbRight();
    }

    /** Up to the first page with another child to the left, and down to that child's last cell. */
    method ClimbLeft() returns (r: Item)
      requires Ready() && root != 0 && Path(tree, stack)
      modifies this
      ensures Shows(r, |Before(tree, old(stack))| - 1)
    {
      hide Path, Under, Before, After, Stored, Leafy, InOrder, InOrderAll;
      ghost var p := |Before(tree, stack)|;
      while |stack| > 0
        invariant Path(tree, stack) && |Before(tree, stack)| == p
        decreases |stack|
      {
        var below, top := stack[..|stack| - 1], stack[|stack| - 1];
        LastFrame(store, tree, stack);
        if top.idx > 0 {
          StepLeft(tree, below, top);
          stack := below + [Frame(top.id, top.idx - 1)];
          DescendRightmost(store[top.id].kids[top.idx - 1]);
          r := KeyValue();
          return;
        }
        LeftEnd(tree, below, top);
        stack := below;
      }
      RootPath(tree);
      r := End;
    }

    /** The previous key. */
    method Prev() returns (r: Item)
      requires Ready() && (stack == [] || AtLeaf())
      modifies this
      ensures old(stack) == [] ==> r == End && stack == []
      ensures old(stack) != [] ==> Shows(r, old(Position()) - 1)
    {
      hide Path, Under, Before, After, Stored, Leafy, InOrder;
      if |stack| == 0 {
        return End;
      }
      var below, leaf := stack[..|stack| - 1], stack[|stack| - 1];
      LeafPageOf(store, tree, below);
      if leaf.idx > 0 {
        Seqs.Snoc(below, Frame(leaf.id, leaf.idx - 1));
        stack := below + [Frame(leaf.id, leaf.idx - 1)];
        r := KeyValue();
        return;
      }
      stack := below;
      r := ClimbLeft();
    }

    /** The smallest key at or above the target, even if it is in the next leaf. */
    method Seek(target: Key, ghost q: Limits, ghost h: nat) returns (r: Item)
      requires Ready() && (root != 0 ==> Wf(Shape(tree), q, h, LOWEST, HIGHEST))
      modifies this
      ensures Shows(r, LeafSlot(All(), target))
    {
      hide Path, Under, Before, After, Stored, Leafy, InOrder, Wf, Rank, Shape, ChildSlot, LeafSlot, AllBelow, AllFrom;
      stack := [];
      if root == 0 {
        NoEntry(target);
        return End;
      }
      RootPath(tree);
      var id := root;
      ghost var n, a, b := h, LOWEST, HIGHEST;
      RootStored(store, tree);
      Hist.KeyInRange(target);
      NoneAround(Rank(target));
      while store[id].InternalPage?
        invariant Path(tree, stack) && Under(tree, stack).id == id && id in store
        invariant Stored(store, Under(tree, stack)) && Leafy(Under(tree, stack))
        invariant (store[id].InternalPage? <==> Under(tree, stack).PNode?)
                  && (store[id].LeafPage? <==> Under(tree, stack).PLeaf?)
        invariant Wf(Shape(Under(tree, stack)), q, n, a, b) && a <= Rank(target) < b
        invariant AllBelow(Before(tree, stack), Rank(target)) && AllFrom(After(tree, stack), Rank(target))
        decreases n
      {
        ghost var u := Under(tree, stack);
        SeekDown(store, u, q, n, a, b, target);
        var idx := SearchInternal(store[id].keys, target);
        PathPush(tree, stack, Frame(id, idx));
        BothSides(Before(tree, stack), InOrderAll(u.kids[..idx]), InOrderAll(u.kids[idx + 1..]), After(tree, stack),
                  Rank(target));
        stack := stack + [Frame(id, idx)];
        n, a, b := n - 1, Lo(u.keys, idx, a), Hi(u.keys, idx, b);
        id := store[id].kids[idx];
        RootStored(store, Under(tree, stack));
      }
      r := SeekInLeaf(id, target, q, n, a, b, h);
    }

    method SeekInLeaf(id: PageId, target: Key, ghost q: Limits, ghost n: nat, ghost a: real, ghost b: real,
                      ghost h: nat) returns (r: Item)
      requires Ready() && root != 0 && Path(tree, stack) && Under(tree, stack).PLeaf? && Under(tree, stack).id == id
      requires Wf(Shape(tree), q, h, LOWEST, HIGHEST) && Wf(Shape(Under(tree, stack)), q, n, a, b)
      requires AllBelow(Before(tree, stack), Rank(target)) && AllFrom(After(tree, stack), Rank(target))
      modifies this
      ensures Shows(r, LeafSlot(All(), target))
    {
      hide Path, Under, Before, After, Stored, Leafy, InOrder, Wf, Rank, Shape, LeafSlot, AllBelow, AllFrom, RowsStored;
      ghost var u := Under(tree, stack);
      PathStored(store, tree, stack);
      RootStored(store, u);
      StoredLeaf(store, u);
      StoredFit(store, u.rows);
      RowCosts(u.rows);
      ghost var es := RowEntries(u.rows);
      LeafSorted(es, q, n, a, b);
      var idx, found := SearchLeaf(store[id].cells, target, es);
      SeekPlace(tree, stack, q, h, target);
      Seqs.Snoc(stack, Frame(id, idx));
      stack := stack + [Frame(id, idx)];
      if idx >= |store[id].cells| {
        r := Next();
      } else {
        r := KeyValue();
      }
    }
  }

  lemma RootPath(t: PTree)
    ensures Path(t, []) && Under(t, []) == t && Before(t, []) == [] && After(t, []) == []
  {
  }

  lemma LastFrame(store: Store, t: PTree, s: seq<Frame>)
    requires Path(t, s) && s != [] && Stored(store, t) && Leafy(t)
    ensures var p, f := s[..|s| - 1], s[|s| - 1];
      && Path(t, p) && Under(t, p).PNode? && f.id == Under(t, p).id && |Under(t, p).kids| == |Under(t, p).keys| + 1
         && f.idx < |Under(t, p).kids|
      && f.id in store && store[f.id] == InternalPage(Under(t, p).keys, RootIds(Under(t, p).kids))
      && Before(t, s) == Before(t, p) + InOrderAll(Under(t, p).kids[..f.idx])
      && Under(t, s) == Under(t, p).kids[f.idx]
  {
    hide Path, Under, Before, After, Stored, Leafy, InOrderAll, InOrder;
    PathPop(t, s);
    var p, f := s[..|s| - 1], s[|s| - 1];
    PathStored(store, t, p);
    LastKid(store, Under(t, p));
    PathPush(t, p, f);
    assert p + [f] == s;
    NodeUpdate.NodePages(store, Under(t, p));
    RootStored(store, Under(t, p));
  }

  lemma StepRight(t: PTree, p: seq<Frame>, f: Frame)
    requires Path(t, p) && Under(t, p).PNode? && f.id == Under(t, p).id && f.idx + 1 < |Under(t, p).kids|
    ensures var s := p + [Frame(f.id, f.idx + 1)];
      && Path(t, s) && Under(t, s) == Under(t, p).kids[f.idx + 1]
      && |Before(t, s)| == |Before(t, p) + InOrderAll(Under(t, p).kids[..f.idx])| + |InOrder(Under(t, p).kids[f.idx])|
  {
    hide Path, Under, Before, After, InOrder, InOrderAll;
    PathPush(t, p, Frame(f.id, f.idx + 1));
    ListsAround(Under(t, p).kids, f.idx);
  }

  lemma RightEnd(t: PTree, p: seq<Frame>, f: Frame)
    requires Path(t, p) && Under(t, p).PNode? && f.idx + 1 == |Under(t, p).kids|
    ensures |Before(t, p) + InOrderAll(Under(t, p).kids[..f.idx])| + |InOrder(Under(t, p).kids[f.idx])| ==
            |Before(t, p)| + |InOrder(Under(t, p))|
  {
    hide Path, Under, Before, After, InOrder, InOrderAll;
    var u := Under(t, p);
    ListsAround(u.kids, f.idx);
    NoLists(u.kids);
    ListNode(u);
  }

  lemma StepLeft(t: PTree, p: seq<Frame>, f: Frame)
    requires Path(t, p) && Under(t, p).PNode? && f.id == Under(t, p).id && 0 < f.idx < |Under(t, p).kids|
    ensures var s := p + [Frame(f.id, f.idx - 1)];
      && Path(t, s) && Under(t, s) == Under(t, p).kids[f.idx - 1]
      && |Before(t, s)| + |InOrder(Under(t, s))| == |Before(t, p) + InOrderAll(Under(t, p).kids[..f.idx])|
  {
    hide Path, Under, Before, After, InOrder, InOrderAll;
    PathPush(t, p, Frame(f.id, f.idx - 1));
    ListsAround(Under(t, p).kids, f.idx - 1);
  }

  lemma LeftEnd(t: PTree, p: seq<Frame>, f: Frame)
    requires Path(t, p) && Under(t, p).PNode? && f.idx == 0
    ensures Before(t, p) + InOrderAll(Under(t, p).kids[..f.idx]) == Before(t, p)
  {
    hide Path, Under, Before, After, InOrder, InOrderAll;
    NoLists(Under(t, p).kids);
  }

  lemma LeafPageOf(store: Store, t: PTree, p: seq<Frame>)
    requires Path(t, p) && Under(t, p).PLeaf? && Stored(store, t) && Leafy(t)
    ensures var u := Under(t, p);
      u.id in store && store[u.id] == LeafPage(Cells(u.rows)) && u.rows != [] && |InOrder(u)| == |u.rows|
  {
    hide Path, Under;
    PathStored(store, t, p);
    var u := Under(t, p);
    RootStored(store, u);
    StoredLeaf(store, u);
    LeafHasRows(u);
    ListLeaf(u);
  }

  lemma NoEntry(k: Key)
    ensures LeafSlot([], k) == 0
  {
  }

  lemma NoneAround(r: real)
    ensures AllBelow([], r) && AllFrom([], r)
  {
  }

  /** One level down towards a key: what lies left of the child is below it, what lies right is not. */
  lemma SeekDown(store: Store, u: PTree, q: Limits, n: nat, a: real, b: real, k: Key)
    requires Stored(store, u) && Leafy(u) && u.PNode? && Wf(Shape(u), q, n, a, b) && a <= Rank(k) < b
    ensures n > 0 && |u.kids| == |u.keys| + 1 && store[u.id] == InternalPage(u.keys, RootIds(u.kids))
            && Increasing(u.keys)
    ensures var c := ChildSlot(u.keys, k);
      && Stored(store, u.kids[c]) && Leafy(u.kids[c])
      && Wf(Shape(u.kids[c]), q, n - 1, Lo(u.keys, c, a), Hi(u.keys, c, b))
         && Lo(u.keys, c, a) <= Rank(k) < Hi(u.keys, c, b)
      && AllBelow(InOrderAll(u.kids[..c]), Rank(k)) && AllFrom(InOrderAll(u.kids[c + 1..]), Rank(k))
  {
    hide Stored, Leafy, Wf, Rank, Shape, ChildSlot, InOrder, Forest, Separators, InOrderAll, AllBelow, AllFrom;
    LastKid(store, u);
    var c := ChildSlot(u.keys, k);
    KidLeafy(u, c);
    ShapeNode(u);
    WfNode(u.keys, Shapes(u.kids), q, n, a, b, c);
    NodeUpdate.SeparatorFacts(u.keys, q, a, b);
    ChildSlotRange(u.keys, k, q, a, b);
    SeekSides(u, q, n - 1, a, b, c, Rank(k));
    StoredNode(store, u, c);
  }

  lemma KidLeafy(u: PTree, c: nat)
    requires Leafy(u) && u.PNode? && c < |u.kids|
    ensures Leafy(u.kids[c])
  {
  }

  lemma SeekSides(u: PTree, q: Limits, h: nat, a: real, b: real, c: nat, r: real)
    requires u.PNode? && Forest(u.keys, Shapes(u.kids), q, h, a, b) && c < |u.kids|
             && Lo(u.keys, c, a) <= r < Hi(u.keys, c, b)
    ensures AllBelow(InOrderAll(u.kids[..c]), r) && AllFrom(InOrderAll(u.kids[c + 1..]), r)
  {
    hide Wf, Rank, Shape, Flatten, Forest, Storable;
    EntriesAround(u.keys, Shapes(u.kids), q, h, a, b, c);
    assert Shapes(u.kids[..c]) == Shapes(u.kids)[..c];
    assert Shapes(u.kids[c + 1..]) == Shapes(u.kids)[c + 1..];
  }

  lemma BothSides(a: seq<Entry>, b: seq<Entry>, c: seq<Entry>, d: seq<Entry>, r: real)
    requires AllBelow(a, r) && AllBelow(b, r) && AllFrom(c, r) && AllFrom(d, r)
    ensures AllBelow(a + b, r) && AllFrom(c + d, r)
  {
    hide Rank;
  }

  /** In the whole list, the key's slot is behind everything in front of the leaf, at its slot there. */
  lemma SeekPlace(t: PTree, s: seq<Frame>, q: Limits, h: nat, k: Key)
    requires Path(t, s) && Under(t, s).PLeaf? && Wf(Shape(t), q, h, LOWEST, HIGHEST)
    requires AllBelow(Before(t, s), Rank(k)) && AllFrom(After(t, s), Rank(k))
    ensures LeafSlot(InOrder(t), k) == |Before(t, s)| + LeafSlot(RowEntries(Under(t, s).rows), k)
    ensures |Before(t, s)| + |RowEntries(Under(t, s).rows)| <= |InOrder(t)|
  {
    hide Path, Under, Before, After, Wf, Shape, LeafSlot;
    PathSplits(t, s);
    ListLeaf(Under(t, s));
    WfEntries(Shape(t), q, h, LOWEST, HIGHEST);
    SlotWithin(Before(t, s), RowEntries(Under(t, s).rows), After(t, s), k);
  }

  lemma SlotWithin(a: seq<Entry>, b: seq<Entry>, c: seq<Entry>, k: Key)
    requires Sorted(a + b + c) && AllBelow(a, Rank(k)) && AllFrom(c, Rank(k))
    ensures LeafSlot(a + b + c, k) == |a| + LeafSlot(b, k)
  {
    hide Rank, LeafSlot, Sorted;
    SortedMiddle(a, b, c);
    LeafSlotBounds(b, k);
    var i := |a| + LeafSlot(b, k);
    Below(a, b, c, LeafSlot(b, k), Rank(k));
    LeafSlotIs(a + b + c, k, i);
  }

  lemma SortedMiddle(a: seq<Entry>, b: seq<Entry>, c: seq<Entry>)
    requires Sorted(a + b + c)
    ensures Sorted(b)
  {
    hide Rank;
    var all := a + b + c;
    forall i, j | 0 <= i < j < |b| ensures Rank(b[i].key) < Rank(b[j].key) {
      assert b[i] == all[|a| + i] && b[j] == all[|a| + j];
    }
  }

  lemma Below(a: seq<Entry>, b: seq<Entry>, c: seq<Entry>, s: nat, r: real)
    requires AllBelow(a, r) && AllFrom(c, r) && s <= |b|
    requires (forall j :: 0 <= j < s ==> Rank(b[j].key) < r) && (forall j :: s <= j < |b| ==> r <= Rank(b[j].key))
    ensures forall j :: 0 <= j < |a| + s ==> Rank((a + b + c)[j].key) < r
    ensures forall j :: |a| + s <= j < |a + b + c| ==> r <= Rank((a + b + c)[j].key)
  {
    hide Rank;
    var all := a + b + c;
    forall j | 0 <= j < |a| + s ensures Rank(all[j].key) < r {
      if j < |a| { assert all[j] == a[j]; } else { assert all[j] == b[j - |a|]; }
    }
    forall j | |a| + s <= j < |all| ensures r <= Rank(all[j].key) {
      if j < |a| + |b| { assert all[j] == b[j - |a|]; } else { assert all[j] == c[j - |a| - |b|]; }
    }
  }

  lemma FirstKid(store: Store, u: PTree)
    requires Stored(store, u) && Leafy(u) && u.PNode?
    ensures |store[u.id].kids| > 0 && |u.kids| > 0 && store[u.id].kids[0] == u.kids[0].id && Stored(store, u.kids[0])
            && Leafy(u.kids[0])
  {
  }

  lemma LastKid(store: Store, u: PTree)
    requires Stored(store, u) && Leafy(u) && u.PNode?
    ensures store[u.id] == InternalPage(u.keys, RootIds(u.kids)) && |u.kids| == |u.keys| + 1
    ensures var n := |u.keys|;
      && Stored(store, u.kids[n]) && Leafy(u.kids[n])
      && |InOrder(u)| == |InOrderAll(u.kids[..n])| + |InOrder(u.kids[n])|
  {
    ListNode(u);
    ListsAround(u.kids, |u.keys|);
    NoLists(u.kids);
  }

  lemma LeafHasRows(u: PTree)
    requires u.PLeaf? && Leafy(u)
    ensures u.rows != []
  {
  }

  // ---- whole walks ----

  ghost function Reverse(es: seq<Entry>): (r: seq<Entry>)
    ensures |r| == |es| && forall i :: 0 <= i < |es| ==> r[i] == es[|es| - 1 - i]
  {
    seq(|es|, i requires 0 <= i < |es| => es[|es| - 1 - i])
  }

  /** First, then Next until the end: every entry once, in key order, and the walk ends. */
  method Scan(store: Store, root: PageId, ghost tree: PTree) returns (out: seq<Entry>)
    requires root != 0 ==> tree.id == root && Stored(store, tree) && Leafy(tree)
    ensures out == if root == 0 then [] else AllRead(InOrder(tree))
  {
    hide Stored, Leafy, InOrder, Path, Under, Before, AsRead;
    var c := new Cursor(store, root, tree);
    ghost var all, read := c.All(), AllRead(c.All());
    out := [];
    var item := c.First();
    while item != End
      invariant c.Ready() && c.All() == all && |out| <= |all| && out == read[..|out|] && c.Shows(item, |out|)
      decreases |all| - |out|
    {
      Seqs.TakeNext(read, |out|);
      out := out + [Entry(item.key, item.value)];
      item := c.Next();
    }
    Seqs.TakeAll(read);
  }

  /** Last, then Prev: the same entries in reverse. */
  method ScanBack(store: Store, root: PageId, ghost tree: PTree) returns (out: seq<Entry>)
    requires root != 0 ==> tree.id == root && Stored(store, tree) && Leafy(tree)
    ensures out == if root == 0 then [] else Reverse(AllRead(InOrder(tree)))
  {
    hide Stored, Leafy, InOrder, Path, Under, Before, Reverse, AsRead;
    var c := new Cursor(store, root, tree);
    ghost var all, read := c.All(), AllRead(c.All());
    out := [];
    var item := c.Last();
    while item != End
      invariant c.Ready() && c.All() == all && |out| <= |all| && out == Reverse(read)[..|out|]
                && c.Shows(item, |all| - 1 - |out|)
      decreases |all| - |out|
    {
      Seqs.TakeNext(Reverse(read), |out|);
      out := out + [Entry(item.key, item.value)];
      item := c.Prev();
    }
    Seqs.TakeAll(Reverse(read));
    Seqs.Empty(read);
  }

  /** Seek, then Next: the entries at or above the target. */
  method ScanFrom(store: Store, root: PageId, target: Key, ghost tree: PTree, ghost q: Limits, ghost h: nat)
    returns (out: seq<Entry>)
    requires root != 0 ==> tree.id == root && Stored(store, tree) && Leafy(tree)
    requires root != 0 ==> Wf(Shape(tree), q, h, LOWEST, HIGHEST)
    ensures root == 0 ==> out == []
    ensures root != 0 ==>
      var all := InOrder(tree);
      var i := |all| - |out|;
      && i >= 0 && out == AllRead(all)[i..]
      && (forall j :: 0 <= j < i ==> Rank(all[j].key) < Rank(target))
      && (forall j :: i <= j < |all| ==> Rank(target) <= Rank(all[j].key))
  {
    hide Stored, Leafy, InOrder, Path, Under, Before, LeafSlot, Rank, Wf, Shape, AsRead;
    var c := new Cursor(store, root, tree);
    ghost var all, read := c.All(), AllRead(c.All());
    ghost var i := LeafSlot(all, target);
    if root != 0 { SlotBounds(tree, q, h, target); } else { NoEntry(target); }
    out := [];
    var item := c.Seek(target, q, h);
    while item != End
      invariant c.Ready() && c.All() == all && i + |out| <= |all| && out == read[i..i + |out|]
                && c.Shows(item, i + |out|)
      decreases |all| - |out|
    {
      out := out + [Entry(item.key, item.value)];
      item := c.Next();
    }
  }

  lemma SlotBounds(t: PTree, q: Limits, h: nat, k: Key)
    requires Wf(Shape(t), q, h, LOWEST, HIGHEST)
    ensures var all, i := InOrder(t), LeafSlot(InOrder(t), k);
      && (forall j :: 0 <= j < i ==> Rank(all[j].key) < Rank(k))
      && (forall j :: i <= j < |all| ==> Rank(k) <= Rank(all[j].key))
  {
    WfEntries(Shape(t), q, h, LOWEST, HIGHEST);
    LeafSlotBounds(InOrder(t), k);
    hide Rank, LeafSlot, Wf;
    var all, i := InOrder(t), LeafSlot(InOrder(t), k);
    if i < |all| { assert forall j :: i < j < |all| ==> Rank(all[i].key) < Rank(all[j].key); }
  }

  /** Prev undoes Next between existing entries. */
  method ThereAndBack(c: Cursor) returns (forth: Item, back: Item)
    requires c.Ready() && c.OnCell() && c.Position() + 1 < |c.All()|
    modifies c
    ensures forth == Shown(c.All()[old(c.Position()) + 1])
    ensures c.Shows(back, old(c.Position()))
  {
    hide Path, Under, Before, After, Stored, Leafy, InOrder;
    forth := c.Next();
    back := c.Prev();
  }
}
