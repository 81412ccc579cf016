/** Trees on pages: which page each node and each overflow chain occupies, and what the store holds. */
module Placed {
  import opened Keys
  import opened OrderedMap
  import opened Layout
  import opened Trees
  import opened Pages
  import Transactions

  const CHUNK := PAGE_SIZE - 9

  /** An entry with the pages of its overflow chain, none if the value is inline. */
  datatype Row = Row(key: Key, value: Bytes, chain: seq<PageId>)

  datatype PTree = PLeaf(id: PageId, rows: seq<Row>) | PNode(id: PageId, keys: seq<Key>, kids: seq<PTree>)

  // ---- from placed trees to trees ----

  ghost function RowEntries(rows: seq<Row>): (es: seq<Entry>)
    ensures |es| == |rows| && forall i :: 0 <= i < |rows| ==> es[i] == Entry(rows[i].key, rows[i].value)
  {
    seq(|rows|, i requires 0 <= i < |rows| => Entry(rows[i].key, rows[i].value))
  }

  ghost function Shape(t: PTree): Tree {
    match t
    case PLeaf(_, rows) => Leaf(RowEntries(rows))
    case PNode(_, keys, kids) => Node(keys, seq(|kids|, i requires 0 <= i < |kids| => Shape(kids[i])))
  }

  ghost function Shapes(ts: seq<PTree>): (s: seq<Tree>)
    ensures |s| == |ts| && forall i :: 0 <= i < |ts| ==> s[i] == Shape(ts[i])
  {
    seq(|ts|, i requires 0 <= i < |ts| => Shape(ts[i]))
  }

  lemma ShapeNode(t: PTree)
    requires t.PNode?
    ensures Shape(t) == Node(t.keys, Shapes(t.kids))
  {
    assert Shape(t).kids == Shapes(t.kids);
  }

  lemma ShapesAppend(a: seq<PTree>, b: seq<PTree>)
    ensures Shapes(a + b) == Shapes(a) + Shapes(b)
  {
  }

  lemma ShapesSlice(a: seq<PTree>, i: nat, j: nat)
    requires i <= j <= |a|
    ensures Shapes(a[i..j]) == Shapes(a)[i..j]
  {
  }

  // ---- the pages of a placed tree, each counted as often as it is referenced ----

  ghost function RowPages(rows: seq<Row>): multiset<PageId> {
    if rows == [] then multiset{} else multiset(rows[0].chain) + RowPages(rows[1..])
  }

  ghost function TreePages(t: PTree): multiset<PageId>
    decreases t, 1
  {
    match t
    case PLeaf(id, rows) => multiset{id} + RowPages(rows)
    case PNode(id, _, kids) => multiset{id} + ForestPages(kids)
  }

  ghost function ForestPages(ts: seq<PTree>): multiset<PageId>
    decreases ts, 0
  {
    if ts == [] then multiset{} else TreePages(ts[0]) + ForestPages(ts[1..])
  }

  lemma {:induction false} RowPagesAppend(a: seq<Row>, b: seq<Row>)
    ensures RowPages(a + b) == RowPages(a) + RowPages(b)
  {
    if a == [] {
      assert a + b == b;
    } else {
      assert (a + b)[1..] == a[1..] + b;
      RowPagesAppend(a[1..], b);
    }
  }

  lemma RowPagesOne(r: Row)
    ensures RowPages([r]) == multiset(r.chain)
  {
    assert [r][1..] == [];
  }

  lemma {:induction false} ForestPagesAppend(a: seq<PTree>, b: seq<PTree>)
    ensures ForestPages(a + b) == ForestPages(a) + ForestPages(b)
  {
    if a == [] {
      assert a + b == b;
    } else {
      assert (a + b)[1..] == a[1..] + b;
      ForestPagesAppend(a[1..], b);
    }
  }

  lemma ForestPagesOne(t: PTree)
    ensures ForestPages([t]) == TreePages(t)
  {
    assert [t][1..] == [];
  }

  lemma ForestPagesTwo(t: PTree, u: PTree)
    ensures ForestPages([t, u]) == TreePages(t) + TreePages(u)
  {
    assert [t, u] == [t] + [u];
    ForestPagesAppend([t], [u]);
    ForestPagesOne(t);
    ForestPagesOne(u);
  }

  // ---- what the store holds ----

  /** A value spread over a chain of overflow pages. */
  ghost predicate ChainStored(store: Store, chain: seq<PageId>, value: Bytes)
    decreases |chain|
  {
    if chain == [] then value == []
    else
      var n := if |value| <= CHUNK then |value| else CHUNK;
      && value != [] && chain[0] != 0 && chain[0] in store
      && store[chain[0]] == OverflowPage(Head(chain[1..]), value[..n])
      && ChainStored(store, chain[1..], value[n..])
  }

  /** How many overflow pages a value takes. */
  function ValuePages(value: Bytes): nat { (|value| + 4086) / 4087 }

  lemma {:induction false} ChainLength(store: Store, chain: seq<PageId>, value: Bytes)
    requires ChainStored(store, chain, value)
    ensures |chain| == ValuePages(value)
    decreases |chain|
  {
    if chain != [] {
      var n := if |value| <= CHUNK then |value| else CHUNK;
      ChainLength(store, chain[1..], value[n..]);
    }
  }

  ghost function CellOf(r: Row): LeafCell {
    if r.chain == [] then Inlined(r.key, r.value) else Spilled(r.key, |r.value| % 0x1_0000, r.chain[0])
  }

  ghost function Cells(rows: seq<Row>): (cs: seq<LeafCell>)
    ensures |cs| == |rows| && forall i :: 0 <= i < |rows| ==> cs[i] == CellOf(rows[i])
  {
    seq(|rows|, i requires 0 <= i < |rows| => CellOf(rows[i]))
  }

  /** A row has a chain exactly when its value is too long for the cell. */
  ghost predicate RowFits(r: Row) { r.chain == [] <==> Inline(r.key, r.value) }

  ghost predicate RowsFit(rows: seq<Row>) { forall i :: 0 <= i < |rows| ==> RowFits(rows[i]) }

  ghost predicate RowStored(store: Store, r: Row) {
    if Inline(r.key, r.value) then r.chain == [] else r.chain != [] && ChainStored(store, r.chain, r.value)
  }

  ghost predicate RowsStored(store: Store, rows: seq<Row>) {
    forall i :: 0 <= i < |rows| ==> RowStored(store, rows[i])
  }

  lemma StoredFit(store: Store, rows: seq<Row>)
    requires RowsStored(store, rows)
    ensures RowsFit(rows)
  {
  }

  ghost function RootIds(ts: seq<PTree>): (ids: seq<PageId>)
    ensures |ids| == |ts| && forall i :: 0 <= i < |ts| ==> ids[i] == ts[i].id
  {
    seq(|ts|, i requires 0 <= i < |ts| => ts[i].id)
  }

  /** The store holds the tree: every node on its page, every long value on its chain. */
  ghost predicate Stored(store: Store, t: PTree)
    decreases t
  {
    && t.id in store
    && match t
       case PLeaf(id, rows) => store[id] == LeafPage(Cells(rows)) && RowsStored(store, rows)
       case PNode(id, keys, kids) =>
         && store[id] == InternalPage(keys, RootIds(kids))
         && forall i :: 0 <= i < |kids| ==> Stored(store, kids[i])
  }

  ghost predicate AllStored(store: Store, ts: seq<PTree>) {
    forall i :: 0 <= i < |ts| ==> Stored(store, ts[i])
  }

  // ---- frames: a tree depends on its own pages only ----

  lemma {:induction false} ChainKept(c0: Store, c1: Store, chain: seq<PageId>, value: Bytes)
    requires ChainStored(c0, chain, value)
    requires forall p :: p in chain ==> p in c1 && (p in c0 ==> c1[p] == c0[p])
    ensures ChainStored(c1, chain, value)
    decreases |chain|
  {
    if chain != [] {
      var n := if |value| <= CHUNK then |value| else CHUNK;
      ChainKept(c0, c1, chain[1..], value[n..]);
    }
  }

  lemma {:induction false} RowPagesAt(rows: seq<Row>, i: nat)
    requires i < |rows|
    ensures multiset(rows[i].chain) <= RowPages(rows)
  {
    if i > 0 { RowPagesAt(rows[1..], i - 1); }
  }

  lemma {:induction false} ForestPagesAt(ts: seq<PTree>, i: nat)
    requires i < |ts|
    ensures TreePages(ts[i]) <= ForestPages(ts)
  {
    hide TreePages;
    if i > 0 { ForestPagesAt(ts[1..], i - 1); }
  }

  lemma RowsKept(c0: Store, c1: Store, rows: seq<Row>, m: multiset<PageId>)
    requires RowsStored(c0, rows) && Transactions.Kept(c0, c1, m) && RowPages(rows) <= m
    ensures RowsStored(c1, rows)
  {
    hide RowPages;
    forall i | 0 <= i < |rows| ensures RowStored(c1, rows[i]) {
      RowPagesAt(rows, i);
      var r := rows[i];
      if !Inline(r.key, r.value) {
        forall p | p in r.chain ensures p in m { assert p in multiset(r.chain); }
        ChainKept(c0, c1, r.chain, r.value);
      }
    }
  }

  lemma {:induction false} StoredKept(c0: Store, c1: Store, t: PTree, m: multiset<PageId>)
    requires Stored(c0, t) && Transactions.Kept(c0, c1, m) && TreePages(t) <= m
    ensures Stored(c1, t)
    decreases t
  {
    assert t.id in TreePages(t);
    match t
    case PLeaf(id, rows) => RowsKept(c0, c1, rows, m);
    case PNode(id, keys, kids) =>
      forall i | 0 <= i < |kids| ensures Stored(c1, kids[i]) {
        ForestPagesAt(kids, i);
        StoredKept(c0, c1, kids[i], m);
      }
  }

  lemma AllStoredKept(c0: Store, c1: Store, ts: seq<PTree>, m: multiset<PageId>)
    requires AllStored(c0, ts) && Transactions.Kept(c0, c1, m) && ForestPages(ts) <= m
    ensures AllStored(c1, ts)
  {
    hide Stored, TreePages, ForestPages;
    forall i | 0 <= i < |ts| ensures Stored(c1, ts[i]) {
      ForestPagesAt(ts, i);
      StoredKept(c0, c1, ts[i], m);
    }
  }

  lemma {:induction false} ChainCached(c: Store, chain: seq<PageId>, value: Bytes)
    requires ChainStored(c, chain, value)
    ensures forall p :: p in multiset(chain) ==> p in c
    decreases |chain|
  {
    if chain != [] {
      var n := if |value| <= CHUNK then |value| else CHUNK;
      ChainCached(c, chain[1..], value[n..]);
      assert chain == [chain[0]] + chain[1..];
    }
  }

  lemma {:induction false} RowPagesCached(c: Store, rows: seq<Row>)
    requires RowsStored(c, rows)
    ensures forall p :: p in RowPages(rows) ==> p in c
  {
    if rows != [] {
      RowPagesCached(c, rows[1..]);
      if rows[0].chain != [] { ChainCached(c, rows[0].chain, rows[0].value); }
    }
  }

  lemma {:induction false} TreePagesCached(c: Store, t: PTree)
    requires Stored(c, t)
    ensures forall p :: p in TreePages(t) ==> p in c
    decreases t, 1
  {
    match t
    case PLeaf(_, rows) => RowPagesCached(c, rows);
    case PNode(_, _, kids) => ForestPagesCached(c, kids);
  }

  lemma {:induction false} ForestPagesCached(c: Store, ts: seq<PTree>)
    requires AllStored(c, ts)
    ensures forall p :: p in ForestPages(ts) ==> p in c
    decreases ts, 0
  {
    if ts != [] {
      TreePagesCached(c, ts[0]);
      ForestPagesCached(c, ts[1..]);
    }
  }
}
