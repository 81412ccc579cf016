/** Reading pages: binary search in a page, the size of a page, the value of a cell, and lookup. */
module PageSearch {
  import opened Keys
  import opened OrderedMap
  import opened Layout
  import opened Values
  import opened Trees
  import opened Pages
  import opened Placed
  import opened Overflow
  import Upd = TreeUpdate

  lemma LeafSlotIs(es: seq<Entry>, k: Key, i: nat)
    requires Sorted(es) && i <= |es|
    requires forall j :: 0 <= j < i ==> Rank(es[j].key) < Rank(k)
    requires forall j :: i <= j < |es| ==> Rank(k) <= Rank(es[j].key)
    ensures i == LeafSlot(es, k)
  {
    LeafSlotBounds(es, k);
    hide Rank, LeafSlot;
    var s := LeafSlot(es, k);
    assert i < |es| ==> Rank(k) <= Rank(es[i].key);
    assert s < |es| ==> Rank(k) <= Rank(es[s].key);
  }

  lemma ChildSlotIs(keys: seq<Key>, k: Key, i: nat)
    requires Increasing(keys) && i <= |keys|
    requires forall j :: 0 <= j < i ==> Rank(keys[j]) <= Rank(k)
    requires forall j :: i <= j < |keys| ==> Rank(k) < Rank(keys[j])
    ensures i == ChildSlot(keys, k)
  {
    ChildSlotBounds(keys, k);
    hide Rank, ChildSlot;
    var s := ChildSlot(keys, k);
    assert i < |keys| ==> Rank(k) < Rank(keys[i]);
    assert s < |keys| ==> Rank(k) < Rank(keys[s]);
  }

  /** Binary search in a leaf: the slot of the key, and whether it is there. */
  method SearchLeaf(cells: seq<LeafCell>, key: Key, ghost es: seq<Entry>) returns (idx: nat, found: bool)
    requires |cells| == |es| && (forall i :: 0 <= i < |es| ==> cells[i].key == es[i].key) && Sorted(es)
    ensures idx == LeafSlot(es, key)
    ensures found <==> idx < |es| && es[idx].key == key
    ensures found <==> Has(es, key)
  {
    hide Rank, LeafSlot, Compare;
    LeafSlotFinds(es, key);
    var lo, hi := 0, |cells|;
    while lo < hi
      invariant 0 <= lo <= hi <= |cells|
      invariant forall j :: 0 <= j < lo ==> Rank(es[j].key) < Rank(key)
      invariant forall j :: hi <= j < |es| ==> Rank(key) < Rank(es[j].key)
    {
      var mid := lo + (hi - lo) / 2;
      var cmp := Compare(key, cells[mid].key);
      RankOrder(key, cells[mid].key);
      if cmp == 0 {
        LeafSlotIs(es, key, mid);
        return mid, true;
      } else if cmp < 0 {
        hi := mid;
      } else {
        lo := mid + 1;
      }
    }
    LeafSlotIs(es, key, lo);
    if lo < |es| { RankOrder(key, es[lo].key); }
    return lo, false;
  }

  /** Binary search among separators: the child the key belongs to. */
  method SearchInternal(keys: seq<Key>, key: Key) returns (idx: nat)
    requires Increasing(keys)
    ensures idx == ChildSlot(keys, key)
  {
    hide Rank, ChildSlot, Compare;
    var lo, hi := 0, |keys|;
    while lo < hi
      invariant 0 <= lo <= hi <= |keys|
      invariant forall j :: 0 <= j < lo ==> Rank(keys[j]) <= Rank(key)
      invariant forall j :: hi <= j < |keys| ==> Rank(key) < Rank(keys[j])
    {
      var mid := lo + (hi - lo) / 2;
      RankOrder(key, keys[mid]);
      if Compare(key, keys[mid]) < 0 {
        hi := mid;
      } else {
        lo := mid + 1;
      }
    }
    ChildSlotIs(keys, key, lo);
    return lo;
  }

  // ---- sizes, from the cells alone ----

  function CellSize(c: LeafCell): nat {
    match c
    case Inlined(key, value) => LEAF_CELL_HEADER + |key| + |value|
    case Spilled(key, _, _) => LEAF_CELL_HEADER + |key| + 8
  }

  function CellCosts(cells: seq<LeafCell>): (cs: seq<nat>)
    ensures |cs| == |cells| && forall i :: 0 <= i < |cells| ==> cs[i] == CellSize(cells[i]) + 2
  {
    seq(|cells|, i requires 0 <= i < |cells| => CellSize(cells[i]) + 2)
  }

  function CellsUsed(cells: seq<LeafCell>): nat { LEAF_HEADER + Sum(CellCosts(cells)) }

  /** The cell of a row has the size its entry says. */
  lemma RowCost(r: Row)
    requires RowFits(r)
    ensures CellSize(CellOf(r)) == LeafCellSize(r.key, r.value) && CellOf(r).key == r.key
  {
  }

  lemma RowCosts(rows: seq<Row>)
    requires RowsFit(rows)
    ensures CellCosts(Cells(rows)) == EntryCosts(RowEntries(rows))
    ensures CellsUsed(Cells(rows)) == LeafUsed(RowEntries(rows))
    ensures forall i :: 0 <= i < |rows| ==> Cells(rows)[i].key == RowEntries(rows)[i].key
  {
    hide Sum;
    forall i | 0 <= i < |rows| ensures CellCosts(Cells(rows))[i] == EntryCosts(RowEntries(rows))[i] {
      RowCost(rows[i]);
    }
  }

  /** The value of a cell, from the cell or from its chain. */
  method LeafValue(store: Store, cell: LeafCell, ghost r: Row) returns (v: Bytes)
    requires RowStored(store, r) && cell == CellOf(r)
    ensures v == AsRead(r.value)
  {
    match cell
    case Inlined(_, value) =>
      Short(value);
      v := value;
    case Spilled(_, vallen, first) =>
      v := ReadOverflowPages(store, first, vallen, r.chain, r.value);
  }

  // ---- lookup ----

  datatype Found = None | Some(value: Bytes)

  lemma StoredNode(store: Store, t: PTree, c: nat)
    requires Stored(store, t) && t.PNode? && c < |t.kids|
    ensures store[t.id] == InternalPage(t.keys, RootIds(t.kids)) && Stored(store, t.kids[c])
    ensures RootIds(t.kids)[c] == t.kids[c].id
  {
  }

  lemma StoredLeaf(store: Store, t: PTree)
    requires Stored(store, t) && t.PLeaf?
    ensures store[t.id] == LeafPage(Cells(t.rows)) && RowsStored(store, t.rows)
    ensures Shape(t) == Leaf(RowEntries(t.rows))
  {
  }

  /** Search walks from the root to the leaf the key belongs to, and finds the key exactly when the
      tree has it, with its value. */
  method Search(store: Store, root: PageId, key: Key, ghost t: PTree, ghost q: Limits, ghost h: nat, ghost lo: real,
                ghost hi: real)
    returns (r: Found)
    requires Stored(store, t) && t.id == root && Wf(Shape(t), q, h, lo, hi) && lo <= Rank(key) < hi
    ensures r.Some? <==> Has(Entries(Shape(t)), key)
    ensures r.Some? ==> Reads(Entries(Shape(t)), key, r.value)
  {
    hide Rank, Wf, Stored, Forest, Has, Shape, Entries, ChildSlot, LeafSlot, Flatten, RowsStored, Reads, AsRead;
    var id := root;
    ghost var u, n, a, b := t, h, lo, hi;
    RootStored(store, u);
    while store[id].InternalPage?
      invariant Stored(store, u) && u.id == id && id in store && Wf(Shape(u), q, n, a, b) && a <= Rank(key) < b
      invariant store[id].InternalPage? <==> u.PNode?
      invariant Has(Entries(Shape(t)), key) <==> Has(Entries(Shape(u)), key)
      invariant forall v :: Reads(Entries(Shape(u)), key, v) ==> Reads(Entries(Shape(t)), key, v)
      decreases n
    {
      ShapeNode(u);
      ghost var keys, kids := u.keys, Shapes(u.kids);
      WfNode(keys, kids, q, n, a, b, 0);
      StoredNode(store, u, 0);
      var c := SearchInternal(store[id].keys, key);
      WfNode(keys, kids, q, n, a, b, c);
      StoredNode(store, u, c);
      ChildSlotRange(keys, key, q, a, b);
      HasInNodeEntries(keys, kids, q, n - 1, a, b, key);
      id := store[id].kids[c];
      u, n, a, b := u.kids[c], n - 1, Lo(keys, c, a), Hi(keys, c, b);
      RootStored(store, u);
    }
    StoredLeaf(store, u);
    StoredFit(store, u.rows);
    RowCosts(u.rows);
    ghost var es := RowEntries(u.rows);
    LeafSorted(es, q, n, a, b);
    var i, found := SearchLeaf(store[id].cells, key, es);
    if found {
      RowAt(store, u.rows, i);
      var v := LeafValue(store, store[id].cells[i], u.rows[i]);
      ReadsAt(es, i);
      r := Some(v);
    } else {
      r := None;
    }
  }

  lemma RowAt(store: Store, rows: seq<Row>, i: nat)
    requires RowsStored(store, rows) && i < |rows|
    ensures RowStored(store, rows[i]) && Cells(rows)[i] == CellOf(rows[i])
  {
  }

  lemma RootStored(store: Store, t: PTree)
    requires Stored(store, t)
    ensures t.id in store && (store[t.id].InternalPage? <==> t.PNode?) && (store[t.id].LeafPage? <==> t.PLeaf?)
  {
  }

  lemma LeafSorted(es: seq<Entry>, q: Limits, h: nat, lo: real, hi: real)
    requires Wf(Leaf(es), q, h, lo, hi)
    ensures Sorted(es) && Entries(Leaf(es)) == es && LeafOk(es, q, lo, hi) && LeafUsed(es) <= PAGE_SIZE && h == 0
  {
    hide Rank, LeafUsed;
  }

  lemma HasInNodeEntries(keys: seq<Key>, kids: seq<Tree>, q: Limits, h: nat, lo: real, hi: real, k: Key)
    requires Forest(keys, kids, q, h, lo, hi) && lo <= Rank(k) < hi
    ensures Has(Entries(Node(keys, kids)), k) <==> Has(Entries(kids[ChildSlot(keys, k)]), k)
    ensures forall v :: Reads(Entries(kids[ChildSlot(keys, k)]), k, v) ==> Reads(Entries(Node(keys, kids)), k, v)
  {
    hide Has, Rank, Flatten, Wf, Reads, ChildSlot;
    HasInChild(keys, kids, q, h, lo, hi, k);
    forall v | Reads(Entries(kids[ChildSlot(keys, k)]), k, v) ensures Reads(Entries(Node(keys, kids)), k, v) {
      Upd.ReadsInChild(keys, kids, q, h, lo, hi, k, v);
    }
  }

  lemma ReadsAt(es: seq<Entry>, i: nat)
    requires i < |es|
    ensures Reads(es, es[i].key, AsRead(es[i].value))
  {
  }
}
