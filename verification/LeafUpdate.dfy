/** Update at a leaf: replacing or adding a cell in a fresh copy of the page, or splitting it in two. */
module LeafUpdate {
  import opened Keys
  import opened OrderedMap
  import opened Layout
  import opened Trees
  import Upd = TreeUpdate
  import opened Pages
  import opened Protocol
  import opened Transactions
  import opened Placed
  import opened Overflow
  import opened PageSearch
  import Seqs

  /** What a rewritten subtree hands to its parent. */
  datatype Outcome = Same | Exists | NotFound | One(id: PageId) | Two(left: PageId, sep: Key, right: PageId)

  /** The pages named by r hold what the subtree grew into. */
  ghost predicate Grew(store: Store, r: Outcome, g: Upd.Grown, l: PTree, u: PTree) {
    match r
    case One(id) => l.id == id && Stored(store, l) && g == Upd.One(Shape(l))
    case Two(a, sep, b) =>
      l.id == a && u.id == b && Stored(store, l) && Stored(store, u) && g == Upd.Two(Shape(l), sep, Shape(u))
    case _ => false
  }

  ghost function NewPages(r: Outcome, l: PTree, u: PTree): multiset<PageId> {
    match r
    case One(_) => TreePages(l)
    case Two(_, _, _) => TreePages(l) + TreePages(u)
    case _ => multiset{}
  }

  /** The loop of leafSplitIndex, over the sizes the page will have once the new cell is in. */
  method LeafSplitIndex(cells: seq<LeafCell>, insertIdx: nat, totalCells: nat, newCellSize: nat, target: nat,
                        replacing: bool, ghost cs: seq<nat>)
    returns (splitIdx: nat)
    requires |cs| == totalCells > 0 && insertIdx < totalCells && target == Sum(cs) / 2 && Sum(cs) < 0x1_0000
    requires totalCells == if replacing then |cells| else |cells| + 1
    requires cs[insertIdx] == newCellSize + 2
    requires forall i :: 0 <= i < totalCells && i != insertIdx ==>
               cs[i] == CellSize(cells[if !replacing && i > insertIdx then i - 1 else i]) + 2
    ensures splitIdx == LeafSplit(cs)
  {
    hide Sum, FirstOver;
    var running: uint16 := 0;
    splitIdx := 1;
    var idx := 0;
    FirstOverStart(cs, target);
    while idx < totalCells
      invariant 0 <= idx <= totalCells && splitIdx == 1
      invariant running == Sum(cs[..idx]) && running <= target
      invariant FirstOver(cs, target, 0) == idx + FirstOver(cs[idx..], target, running)
    {
      var size: nat;
      if idx == insertIdx {
        size := newCellSize;
      } else {
        var src := if !replacing && idx > insertIdx then idx - 1 else idx;
        size := CellSize(cells[src]);
      }
      SumStep(cs, idx);
      SumSplit(cs, idx + 1);
      FirstOverStep(cs, target, running, idx);
      running := running + size + 2;
      if running > target {
        splitIdx := idx + 1;
        break;
      }
      idx := idx + 1;
    }
    if idx == totalCells { FirstOverEnd(cs, target, running); }
    if splitIdx >= totalCells {
      splitIdx := totalCells - 1;
    }
  }

  lemma FirstOverStart(cs: seq<nat>, target: nat)
    ensures Sum(cs[..0]) == 0 && FirstOver(cs, target, 0) == FirstOver(cs[0..], target, 0)
  {
    assert cs[0..] == cs;
  }

  lemma FirstOverStep(cs: seq<nat>, target: nat, running: nat, i: nat)
    requires i < |cs|
    ensures FirstOver(cs[i..], target, running) ==
            if running + cs[i] > target then 0 else 1 + FirstOver(cs[i + 1..], target, running + cs[i])
  {
    assert cs[i..][1..] == cs[i + 1..];
  }

  lemma FirstOverEnd(cs: seq<nat>, target: nat, running: nat)
    ensures FirstOver(cs[|cs|..], target, running) == 0
  {
  }

  // ---- storing new leaves ----

  lemma NewLeafStored(c: Store, n: PageId, rows: seq<Row>)
    requires RowsStored(c, rows) && RowPages(rows)[n] == 0
    ensures Stored(c[n := LeafPage(Cells(rows))], PLeaf(n, rows))
  {
    var c' := c[n := LeafPage(Cells(rows))];
    forall i | 0 <= i < |rows| ensures RowStored(c', rows[i]) {
      RowPagesAt(rows, i);
      var r := rows[i];
      if !Inline(r.key, r.value) {
        ChainPages(c, r.chain, r.value);
        forall p | p in r.chain ensures p in c' && c'[p] == c[p] { assert p in multiset(r.chain); }
        ChainKept(c, c', r.chain, r.value);
      }
    }
  }

  function NewCell(key: Key, value: Bytes, first: PageId): LeafCell {
    if first == 0 then Inlined(key, value) else Spilled(key, |value| % 0x1_0000, first)
  }

  lemma NewCellIs(store: Store, key: Key, value: Bytes, chain: seq<PageId>)
    requires RowStored(store, Row(key, value, chain))
    ensures NewCell(key, value, Head(chain)) == CellOf(Row(key, value, chain))
  {
  }

  /** The rows of a leaf once the new row is in its slot. */
  ghost function NewRows(rows: seq<Row>, i: nat, row: Row, replacing: bool): seq<Row>
    requires i <= |rows| && (replacing ==> i < |rows|)
  {
    rows[..i] + [row] + rows[if replacing then i + 1 else i..]
  }

  ghost function NewEntries(es: seq<Entry>, i: nat, e: Entry, replacing: bool): seq<Entry>
    requires i <= |es| && (replacing ==> i < |es|)
  {
    es[..i] + [e] + es[if replacing then i + 1 else i..]
  }

  lemma NewRowsAre(rows: seq<Row>, i: nat, row: Row, replacing: bool)
    requires i <= |rows| && (replacing ==> i < |rows|)
    ensures RowEntries(NewRows(rows, i, row, replacing)) ==
            NewEntries(RowEntries(rows), i, Entry(row.key, row.value), replacing)
    ensures Cells(NewRows(rows, i, row, replacing)) ==
            Cells(rows)[..i] + [CellOf(row)] + Cells(rows)[if replacing then i + 1 else i..]
    ensures RowPages(NewRows(rows, i, row, replacing)) ==
            RowPages(rows[..i]) + multiset(row.chain) + RowPages(rows[if replacing then i + 1 else i..])
  {
    hide RowPages;
    RowPagesAppend(rows[..i] + [row], rows[if replacing then i + 1 else i..]);
    RowPagesAppend(rows[..i], [row]);
    RowPagesOne(row);
  }

  lemma NewRowsStored(store: Store, rows: seq<Row>, i: nat, row: Row, replacing: bool)
    requires i <= |rows| && (replacing ==> i < |rows|)
    requires RowsStored(store, rows[..i]) && RowsStored(store, rows[if replacing then i + 1 else i..])
             && RowStored(store, row)
    ensures RowsStored(store, NewRows(rows, i, row, replacing))
  {
    hide RowStored;
  }

  /** Pages of the rows that stay. */
  ghost function OtherPages(rows: seq<Row>, i: nat, replacing: bool): multiset<PageId>
    requires i <= |rows| && (replacing ==> i < |rows|)
  {
    RowPages(rows[..i]) + RowPages(rows[if replacing then i + 1 else i..])
  }

  ghost predicate OtherStored(store: Store, rows: seq<Row>, i: nat, replacing: bool)
    requires i <= |rows| && (replacing ==> i < |rows|)
  {
    RowsStored(store, rows[..i]) && RowsStored(store, rows[if replacing then i + 1 else i..])
  }

  lemma OthersKept(c0: Store, c1: Store, rows: seq<Row>, i: nat, replacing: bool, m: multiset<PageId>)
    requires i <= |rows| && (replacing ==> i < |rows|)
    requires OtherStored(c0, rows, i, replacing) && Kept(c0, c1, m) && OtherPages(rows, i, replacing) <= m
    ensures OtherStored(c1, rows, i, replacing)
  {
    hide RowsStored, RowPages, Kept;
    RowsKept(c0, c1, rows[..i], m);
    RowsKept(c0, c1, rows[if replacing then i + 1 else i..], m);
  }

  /** A leaf rewritten into one fresh page. */
  method CopyLeaf(db: DB, cells: seq<LeafCell>, idx: nat, key: Key, value: Bytes, replacing: bool,
                  ghost rows: seq<Row>, ghost rest: multiset<PageId>)
    returns (r: Outcome, ghost l: PTree)
    requires db.Open() && Storable(Entry(key, value), ANY)
    requires cells == Cells(rows) && idx <= |rows| && (replacing ==> idx < |rows|)
    requires OtherStored(db.cache, rows, idx, replacing)
    requires db.Live() == rest + OtherPages(rows, idx, replacing)
    modifies db
    ensures db.meta.numPages <= old(db.meta.numPages) + ValuePages(value) + 1
    ensures db.Past() == old(db.Past()) && db.Still() <= old(db.Still())
    ensures db.Open() && db.Live() == rest + TreePages(l) && r == One(l.id)
    ensures Stored(db.cache, l) && Shape(l) == Leaf(NewEntries(RowEntries(rows), idx, Entry(key, value), replacing))
    ensures Kept(old(db.cache), db.cache, rest) && l.id in db.books.mine
  {
    hide Inv, DB.View, DB.Past, DB.Still, DB.Live, Kept, OtherStored, OtherPages, RowsStored, AllocatedFrom,
         WriteStep, Stored, Shape, TreePages, NewEntries, RowStored, ValuePages;
    ghost var c0 := db.cache;
    var n := db.AllocatePage();
    ghost var c1 := db.cache;
    var first, chain := LeafCellOverflow(db, key, value);
    ghost var c2 := db.cache;
    LiveCached(db);
    var cell := NewCell(key, value, first);
    var page := if replacing then LeafPage(cells[..idx] + [cell] + cells[idx + 1..])
        else LeafPage(cells[..idx] + [cell] + cells[idx..]);
    db.Write(n, page);
    l := PLeaf(n, NewRows(rows, idx, Row(key, value, chain), replacing));
    CopiedLeaf(c0, c1, c2, rows, idx, Row(key, value, chain), replacing, n, rest);
    r := One(n);
  }

  /** The ghost side of CopyLeaf: the stores before, after the page, and after the chain were allocated. */
  lemma CopiedLeaf(c0: Store, c1: Store, c2: Store, rows: seq<Row>, i: nat, row: Row, replacing: bool, n: PageId,
                   rest: multiset<PageId>)
    requires i <= |rows| && (replacing ==> i < |rows|)
    requires OtherStored(c0, rows, i, replacing) && RowStored(c2, row)
    requires Kept(c0, c1, rest + OtherPages(rows, i, replacing))
    requires Kept(c1, c2, rest + OtherPages(rows, i, replacing) + multiset{n})
    requires forall p :: (rest + OtherPages(rows, i, replacing) + multiset{n} + multiset(row.chain))[p] <= 1
    ensures var cs := Cells(rows);
      var l := PLeaf(n, NewRows(rows, i, row, replacing));
      var page := LeafPage(cs[..i] + [NewCell(row.key, row.value, Head(row.chain))]
                           + cs[if replacing then i + 1 else i..]);
      && Stored(c2[n := page], l) && Kept(c0, c2[n := page], rest)
      && Shape(l) == Leaf(NewEntries(RowEntries(rows), i, Entry(row.key, row.value), replacing))
      && rest + OtherPages(rows, i, replacing) + multiset{n} + multiset(row.chain) == rest + TreePages(l)
  {
    hide Stored, Kept, RowStored, RowsStored, RowPages, NewEntries, NewRows, OtherStored, OtherPages, Shape,
         TreePages, CellOf, NewCell;
    var others := OtherPages(rows, i, replacing);
    var rows' := NewRows(rows, i, row, replacing);
    OthersKept(c0, c1, rows, i, replacing, rest + others);
    OthersKept(c1, c2, rows, i, replacing, rest + others + multiset{n});
    RowsAround(c2, rows, i, replacing);
    NewRowsStored(c2, rows, i, row, replacing);
    NewCellIs(c2, row.key, row.value, row.chain);
    NewRowsAre(rows, i, row, replacing);
    NewRowPages(rows, i, row, replacing, n, rest);
    FreshOnce(rest, others, n, row.chain);
    NewLeafStored(c2, n, rows');
    ShapeLeaf(PLeaf(n, rows'));
    CopyKept(c0, c1, c2, c2[n := LeafPage(Cells(rows'))], rest, others, n, row.chain);
  }

  lemma NewRowPages(rows: seq<Row>, i: nat, row: Row, replacing: bool, n: PageId, rest: multiset<PageId>)
    requires i <= |rows| && (replacing ==> i < |rows|)
    ensures var ps := RowPages(NewRows(rows, i, row, replacing));
      && ps == OtherPages(rows, i, replacing) + multiset(row.chain)
      && rest + OtherPages(rows, i, replacing) + multiset{n} + multiset(row.chain) == rest + (multiset{n} + ps)
  {
    NewRowsAre(rows, i, row, replacing);
    hide RowPages, NewRows;
  }

  lemma FreshOnce(rest: multiset<PageId>, others: multiset<PageId>, n: PageId, chain: seq<PageId>)
    requires forall p :: (rest + others + multiset{n} + multiset(chain))[p] <= 1
    ensures (rest + others + multiset(chain))[n] == 0
    ensures others[n] == 0 && multiset(chain)[n] == 0
  {
    var m := rest + others + multiset{n} + multiset(chain);
    assert m[n] == rest[n] + others[n] + 1 + multiset(chain)[n];
  }

  lemma ShapeLeaf(l: PTree)
    requires l.PLeaf?
    ensures Shape(l) == Leaf(RowEntries(l.rows)) && TreePages(l) == multiset{l.id} + RowPages(l.rows)
  {
  }

  lemma RowsAround(store: Store, rows: seq<Row>, i: nat, replacing: bool)
    requires i <= |rows| && (replacing ==> i < |rows|)
    requires OtherStored(store, rows, i, replacing)
    ensures RowsStored(store, rows[..i]) && RowsStored(store, rows[if replacing then i + 1 else i..])
  {
  }

  lemma CopyKept(c0: Store, c1: Store, c2: Store, c3: Store, rest: multiset<PageId>, others: multiset<PageId>,
                 n: PageId, chain: seq<PageId>)
    requires Kept(c0, c1, rest + others) && Kept(c1, c2, rest + others + multiset{n})
    requires (rest + others + multiset(chain))[n] == 0
    requires n in c3 && c3 == c2[n := c3[n]]
    ensures Kept(c0, c3, rest)
  {
  }

  // ---- splitting ----

  /** The pieces a split copies, in each of its four cases, are the two halves of the new cell list. */
  lemma SplitPieces<T>(cs: seq<T>, i: nat, x: T, s: nat, replacing: bool)
    requires i <= |cs| && (replacing ==> i < |cs|) && s <= |cs| + (if replacing then 0 else 1)
    ensures var all := cs[..i] + [x] + cs[if replacing then i + 1 else i..];
      if i < s then
        if replacing then all[..s] == cs[..i] + [x] + cs[i + 1..s] && all[s..] == cs[s..]
        else all[..s] == cs[..i] + [x] + cs[i..s - 1] && all[s..] == cs[s - 1..]
      else
        && all[..s] == cs[..s]
        && all[s..] == cs[s..i] + [x] + cs[if replacing then i + 1 else i..]
  {
  }

  lemma SplitSum(es: seq<Entry>, i: nat, e: Entry, replacing: bool)
    requires i <= |es| && (replacing ==> i < |es|)
    ensures Sum(EntryCosts(NewEntries(es, i, e, replacing))) ==
            Sum(EntryCosts(es)) + EntryCost(e) - (if replacing then EntryCost(es[i]) else 0)
  {
    hide Sum, EntryCost;
    var rest := es[if replacing then i + 1 else i..];
    EntryCostsAppend(es[..i] + [e], rest);
    EntryCostsAppend(es[..i], [e]);
    OneCost(e);
    if replacing {
      Seqs.Around(es, i);
      EntryCostsAppend(es[..i] + [es[i]], rest);
      EntryCostsAppend(es[..i], [es[i]]);
      OneCost(es[i]);
    } else {
      Seqs.Parts(es, i);
      EntryCostsAppend(es[..i], rest);
    }
  }

  lemma OneCost(e: Entry)
    ensures Sum(EntryCosts([e])) == EntryCost(e)
  {
    assert EntryCosts([e]) == [EntryCost(e)];
    SumOne(EntryCost(e));
  }

  lemma SplitCosts(rows: seq<Row>, i: nat, e: Entry, replacing: bool)
    requires RowsFit(rows) && i <= |rows| && (replacing ==> i < |rows|)
    ensures var cs, cells := EntryCosts(NewEntries(RowEntries(rows), i, e, replacing)), Cells(rows);
      && |cs| == |rows| + (if replacing then 0 else 1)
      && cs[i] == EntryCost(e)
      && (forall j :: 0 <= j < |cs| && j != i ==>
          cs[j] == CellSize(cells[if !replacing && j > i then j - 1 else j]) + 2)
  {
    hide Sum, CellSize, EntryCost;
    RowCosts(rows);
    var es := RowEntries(rows);
    var es' := NewEntries(es, i, e, replacing);
    forall j | 0 <= j < |es'| && j != i
      ensures EntryCosts(es')[j] == CellSize(Cells(rows)[if !replacing && j > i then j - 1 else j]) + 2
    {
      var k := if !replacing && j > i then j - 1 else j;
      assert es'[j] == es[k];
      assert CellCosts(Cells(rows))[k] == EntryCosts(es)[k];
    }
  }

  /** Where the split goes: half of the bytes the page would hold with the new cell. */
  method ChooseSplit(cells: seq<LeafCell>, idx: nat, key: Key, value: Bytes, replacing: bool, ghost rows: seq<Row>)
    returns (s: nat)
    requires RowsFit(rows) && cells == Cells(rows) && idx <= |rows| && (replacing ==> idx < |rows|)
    requires LeafUsed(NewEntries(RowEntries(rows), idx, Entry(key, value), replacing)) <= PAGE_SIZE + 1023
    ensures s == LeafSplit(EntryCosts(NewEntries(RowEntries(rows), idx, Entry(key, value), replacing)))
  {
    hide Sum, LeafSplit, EntryCost, RowsFit, CellSize, NewEntries;
    ghost var e := Entry(key, value);
    ghost var cs := EntryCosts(NewEntries(RowEntries(rows), idx, e, replacing));
    SplitCosts(rows, idx, e, replacing);
    SplitSum(RowEntries(rows), idx, e, replacing);
    RowCosts(rows);
    CostOf(key, value);
    var nCells := |cells|;
    var newCellSize := LeafCellSize(key, value);
    var totalCells := nCells + 1;
    var contentDelta := 2 + newCellSize;
    if replacing {
      assert CellCosts(cells)[idx] == EntryCosts(RowEntries(rows))[idx];
      totalCells := nCells;
      contentDelta := newCellSize - CellSize(cells[idx]);
    }
    var totalSize: uint16 := Sum(CellCosts(cells)) - nCells * 2 + contentDelta + nCells * 2;
    s := LeafSplitIndex(cells, idx, totalCells, newCellSize, totalSize / 2, replacing, cs);
  }

  lemma CostOf(key: Key, value: Bytes)
    ensures EntryCost(Entry(key, value)) == LeafCellSize(key, value) + 2
  {
  }

  /** A leaf rewritten into two fresh pages, cut where leafSplitIndex says. */
  method SplitLeaf(db: DB, cells: seq<LeafCell>, idx: nat, key: Key, value: Bytes, replacing: bool,
                   ghost rows: seq<Row>, ghost rest: multiset<PageId>)
    returns (r: Outcome, ghost l: PTree, ghost u: PTree)
    requires db.Open() && Storable(Entry(key, value), ANY) && RowsFit(rows)
    requires cells == Cells(rows) && idx <= |rows| && (replacing ==> idx < |rows|)
    requires OtherStored(db.cache, rows, idx, replacing)
    requires db.Live() == rest + OtherPages(rows, idx, replacing)
    requires var es := NewEntries(RowEntries(rows), idx, Entry(key, value), replacing);
      (forall i :: 0 <= i < |es| ==> EntryCosts(es)[i] <= 1023) && PAGE_SIZE < LeafUsed(es) <= PAGE_SIZE + 1023
    modifies db
    ensures db.meta.numPages <= old(db.meta.numPages) + ValuePages(value) + 2
    ensures db.Past() == old(db.Past()) && db.Still() <= old(db.Still())
    ensures db.Open() && db.Live() == rest + (TreePages(l) + TreePages(u)) && r.Two?
    ensures Grew(db.cache, r, Upd.GrowLeaf(NewEntries(RowEntries(rows), idx, Entry(key, value), replacing)), l, u)
    ensures Kept(old(db.cache), db.cache, rest)
  {
    hide Inv, DB.View, DB.Past, DB.Still, DB.Live, Kept, OtherStored, OtherPages, RowsStored, AllocatedFrom,
         WriteStep, Stored, Shape, TreePages, NewEntries, RowStored, Sum, LeafSplit, RowsFit, Grew, Upd.GrowLeaf,
         EntryCost, NewRows, NewCell, CellOf, ValuePages;
    ghost var es := NewEntries(RowEntries(rows), idx, Entry(key, value), replacing);
    LeafSplitFits(EntryCosts(es));
    NewEntriesLength(RowEntries(rows), idx, Entry(key, value), replacing);
    var s := ChooseSplit(cells, idx, key, value, replacing, rows);
    ghost var c0 := db.cache;
    var first, chain := LeafCellOverflow(db, key, value);
    ghost var c1 := db.cache;
    var n1 := db.AllocatePage();
    ghost var c2 := db.cache;
    var n2 := db.AllocatePage();
    ghost var c3 := db.cache;
    LiveCached(db);
    var left, right := Halves(cells, idx, NewCell(key, value, first), s, replacing);
    db.Write(n1, LeafPage(left));
    db.Write(n2, LeafPage(right));
    ghost var row := Row(key, value, chain);
    l, u := SplitDone(c0, c1, c2, c3, rows, idx, row, replacing, n1, n2, s, rest);
    r := Two(n1, right[0].key, n2);
    SplitGrew(db.cache, es, l, u, n1, n2, right[0].key);
  }

  lemma NewEntriesLength(es: seq<Entry>, i: nat, e: Entry, replacing: bool)
    requires i <= |es| && (replacing ==> i < |es|)
    ensures |NewEntries(es, i, e, replacing)| == |es| + (if replacing then 0 else 1)
  {
  }

  /** The cells each half receives, copied range by range. */
  method Halves(cells: seq<LeafCell>, idx: nat, cell: LeafCell, s: nat, replacing: bool)
    returns (left: seq<LeafCell>, right: seq<LeafCell>)
    requires idx <= |cells| && (replacing ==> idx < |cells|) && s <= |cells| + (if replacing then 0 else 1)
    ensures var all := cells[..idx] + [cell] + cells[if replacing then idx + 1 else idx..];
      left == all[..s] && right == all[s..]
  {
    SplitPieces(cells, idx, cell, s, replacing);
    if idx < s {
      left := cells[..idx] + [cell];
      if replacing {
        left := left + cells[idx + 1..s];
        right := cells[s..];
      } else {
        left := left + cells[idx..s - 1];
        right := cells[s - 1..];
      }
    } else {
      left := cells[..s];
      right := cells[s..idx] + [cell] + (if replacing then cells[idx + 1..] else cells[idx..]);
    }
  }

  lemma SplitGrew(store: Store, es: seq<Entry>, l: PTree, u: PTree, n1: PageId, n2: PageId, sep: Key)
    requires LeafUsed(es) > PAGE_SIZE && l.id == n1 && u.id == n2 && Stored(store, l) && Stored(store, u)
    requires var s := LeafSplit(EntryCosts(es));
      s < |es| && Shape(l) == Leaf(es[..s]) && Shape(u) == Leaf(es[s..]) && sep == es[s].key
    ensures Grew(store, Two(n1, sep, n2), Upd.GrowLeaf(es), l, u)
  {
    hide Stored, Shape, LeafSplit;
  }

  ghost function SplitStore(c: Store, n1: PageId, n2: PageId, cells: seq<LeafCell>, s: nat): Store
    requires s <= |cells|
  {
    c[n1 := LeafPage(cells[..s])][n2 := LeafPage(cells[s..])]
  }

  /** The ghost side of SplitLeaf. */
  lemma SplitDone(c0: Store, c1: Store, c2: Store, c3: Store, rows: seq<Row>, i: nat, row: Row, replacing: bool,
                  n1: PageId, n2: PageId, s: nat, rest: multiset<PageId>) returns (l: PTree, u: PTree)
    requires i <= |rows| && (replacing ==> i < |rows|) && s < |rows| + (if replacing then 0 else 1)
    requires OtherStored(c0, rows, i, replacing) && RowStored(c1, row)
    requires var m := rest + OtherPages(rows, i, replacing);
      && Kept(c0, c1, m) && Kept(c1, c2, m + multiset(row.chain))
         && Kept(c2, c3, m + multiset(row.chain) + multiset{n1})
      && forall p :: (m + multiset(row.chain) + multiset{n1} + multiset{n2})[p] <= 1
    ensures var cs := Cells(rows);
      var all := cs[..i] + [NewCell(row.key, row.value, Head(row.chain))] + cs[if replacing then i + 1 else i..];
      var es := NewEntries(RowEntries(rows), i, Entry(row.key, row.value), replacing);
      var c4 := SplitStore(c3, n1, n2, all, s);
      && l.id == n1 && u.id == n2 && Stored(c4, l) && Stored(c4, u) && Kept(c0, c4, rest)
      && |es| == |all| && Shape(l) == Leaf(es[..s]) && Shape(u) == Leaf(es[s..]) && all[s].key == es[s].key
      && rest + OtherPages(rows, i, replacing) + multiset(row.chain) + multiset{n1} + multiset{n2} ==
         rest + (TreePages(l) + TreePages(u))
  {
    hide Stored, Kept, RowStored, RowsStored, RowPages, NewEntries, NewRows, OtherStored, OtherPages, Shape,
         TreePages, CellOf, NewCell, SplitStore;
    var others := OtherPages(rows, i, replacing);
    var chain := multiset(row.chain);
    var rows' := NewRows(rows, i, row, replacing);
    OthersKept(c0, c1, rows, i, replacing, rest + others);
    RowsAround(c1, rows, i, replacing);
    NewRowsStored(c1, rows, i, row, replacing);
    NewCellIs(c1, row.key, row.value, row.chain);
    NewRowsAre(rows, i, row, replacing);
    NewRowPages(rows, i, row, replacing, n1, rest);
    NewEntriesLength(RowEntries(rows), i, Entry(row.key, row.value), replacing);
    var m := rest + others + chain;
    RowsKept(c1, c2, rows', m);
    RowsKept(c2, c3, rows', m + multiset{n1});
    l, u := PLeaf(n1, rows'[..s]), PLeaf(n2, rows'[s..]);
    assert rest + RowPages(rows') == rest + others + chain;
    HalvesStored(c3, rows', s, n1, n2, rest);
    HalvesShape(rows', s, n1, n2);
    SplitKept(c0, c1, c2, c3, rest, others, chain, n1, n2, Cells(rows'), s);
    CellKey(rows', s);
    assert rest + others + chain + multiset{n1} + multiset{n2} == rest + (TreePages(l) + TreePages(u)) by {
      assert RowPages(rows') == others + chain;
    }
  }

  lemma CellKey(rows: seq<Row>, s: nat)
    requires s < |rows|
    ensures Cells(rows)[s].key == RowEntries(rows)[s].key
  {
  }

  lemma SplitKept(c0: Store, c1: Store, c2: Store, c3: Store, rest: multiset<PageId>, others: multiset<PageId>,
                  chain: multiset<PageId>,
                  n1: PageId, n2: PageId, cells: seq<LeafCell>, s: nat)
    requires Kept(c0, c1, rest + others) && Kept(c1, c2, rest + others + chain)
             && Kept(c2, c3, rest + others + chain + multiset{n1})
    requires forall p :: (rest + others + chain + multiset{n1} + multiset{n2})[p] <= 1
    requires s <= |cells|
    ensures Kept(c0, SplitStore(c3, n1, n2, cells, s), rest)
  {
    var c4 := SplitStore(c3, n1, n2, cells, s);
    forall p | p in rest ensures p in c0 && p in c4 && c4[p] == c0[p] {
      assert (rest + others + chain + multiset{n1} + multiset{n2})[p] ==
             rest[p] + others[p] + chain[p] + multiset{n1}[p] + multiset{n2}[p];
    }
  }

  lemma HalvesStored(c: Store, rows: seq<Row>, s: nat, n1: PageId, n2: PageId, rest: multiset<PageId>)
    requires RowsStored(c, rows) && s <= |rows|
    requires forall p :: (rest + RowPages(rows) + multiset{n1} + multiset{n2})[p] <= 1
    ensures Stored(SplitStore(c, n1, n2, Cells(rows), s), PLeaf(n1, rows[..s]))
    ensures Stored(SplitStore(c, n1, n2, Cells(rows), s), PLeaf(n2, rows[s..]))
  {
    hide Stored, RowStored, Kept, RowPages, CellOf;
    var a, b := rows[..s], rows[s..];
    Seqs.Parts(rows, s);
    RowPagesAppend(a, b);
    assert RowsStored(c, a) && RowsStored(c, b);
    assert Cells(a) == Cells(rows)[..s] && Cells(b) == Cells(rows)[s..];
    hide RowsStored;
    TwoOnce(rest, RowPages(a), RowPages(b), n1, n2);
    NewLeafStored(c, n1, a);
    var c1 := c[n1 := LeafPage(Cells(a))];
    ShapeLeaf(PLeaf(n1, a));
    LeafElsewhere(c1, n2, LeafPage(Cells(b)), PLeaf(n1, a));
    RowsElsewhere(c, n1, LeafPage(Cells(a)), b);
    NewLeafStored(c1, n2, b);
  }

  lemma HalvesShape(rows: seq<Row>, s: nat, n1: PageId, n2: PageId)
    requires s <= |rows|
    ensures var l, u := PLeaf(n1, rows[..s]), PLeaf(n2, rows[s..]);
      && Shape(l) == Leaf(RowEntries(rows)[..s]) && Shape(u) == Leaf(RowEntries(rows)[s..])
      && TreePages(l) + TreePages(u) == multiset{n1} + multiset{n2} + RowPages(rows)
  {
    hide RowPages;
    Seqs.Parts(rows, s);
    RowPagesAppend(rows[..s], rows[s..]);
    assert RowEntries(rows[..s]) == RowEntries(rows)[..s] && RowEntries(rows[s..]) == RowEntries(rows)[s..];
  }

  lemma TwoOnce(rest: multiset<PageId>, a: multiset<PageId>, b: multiset<PageId>, n1: PageId, n2: PageId)
    requires forall p :: (rest + (a + b) + multiset{n1} + multiset{n2})[p] <= 1
    ensures a[n1] == 0 && a[n2] == 0 && b[n1] == 0 && b[n2] == 0 && n1 != n2
  {
    var m := rest + (a + b) + multiset{n1} + multiset{n2};
    assert m[n1] == rest[n1] + a[n1] + b[n1] + 1 + multiset{n2}[n1];
    assert m[n2] == rest[n2] + a[n2] + b[n2] + 1 + multiset{n1}[n2];
  }

  /** A write elsewhere leaves a stored leaf, and stored rows, as they are. */
  lemma LeafElsewhere(c: Store, n: PageId, page: Page, l: PTree)
    requires Stored(c, l) && TreePages(l)[n] == 0
    ensures Stored(c[n := page], l)
  {
    TreePagesCached(c, l);
    KeptUpdate(c, n, page, TreePages(l));
    StoredKept(c, c[n := page], l, TreePages(l));
  }

  lemma RowsElsewhere(c: Store, n: PageId, page: Page, rows: seq<Row>)
    requires RowsStored(c, rows) && RowPages(rows)[n] == 0
    ensures RowsStored(c[n := page], rows)
  {
    RowPagesCached(c, rows);
    KeptUpdate(c, n, page, RowPages(rows));
    RowsKept(c, c[n := page], rows, RowPages(rows));
  }

  // ---- the leaf case of Update ----

  /** What a call on a subtree promises: the outcome the tree function gives, the new pages stored, and
      the pages in use changed by exactly the pages of the old and the new subtree. */
  ghost predicate Updated(c0: Store, c1: Store, live: multiset<PageId>, rest: multiset<PageId>, spec: Upd.Result,
                          r: Outcome, l: PTree, u: PTree) {
    match r
    case Same => spec.Same?
    case Exists => spec.KeyExists?
    case NotFound => spec.KeyNotFound?
    case _ => spec.Changed? && Grew(c1, r, spec.g, l, u) && live == rest + NewPages(r, l, u) && Kept(c0, c1, rest)
  }

  predicate Rewrote(r: Outcome) { r.One? || r.Two? }

  lemma PagesAround(rows: seq<Row>, i: nat, replacing: bool)
    requires i <= |rows| && (replacing ==> i < |rows|)
    ensures RowPages(rows) == OtherPages(rows, i, replacing)
            + (if replacing then multiset(rows[i].chain) else multiset{})
  {
    hide RowPages;
    if replacing {
      Seqs.Around(rows, i);
      RowPagesAppend(rows[..i] + [rows[i]], rows[i + 1..]);
      RowPagesAppend(rows[..i], [rows[i]]);
      RowPagesOne(rows[i]);
    } else {
      Seqs.Parts(rows, i);
      RowPagesAppend(rows[..i], rows[i..]);
    }
  }

  lemma OthersStored(store: Store, rows: seq<Row>, i: nat, replacing: bool)
    requires RowsStored(store, rows) && i <= |rows| && (replacing ==> i < |rows|)
    ensures OtherStored(store, rows, i, replacing)
  {
    hide RowStored;
  }

  /** The size test before a leaf is rewritten is exact, and a page that fails it can be split. */
  lemma LeafGuard(rows: seq<Row>, i: nat, key: Key, value: Bytes, replacing: bool, q: Limits, lo: real, hi: real)
    requires RowsFit(rows) && Wf(Leaf(RowEntries(rows)), q, 0, lo, hi) && lo <= Rank(key) < hi
             && Storable(Entry(key, value), q)
    requires i == LeafSlot(RowEntries(rows), key) && (replacing <==> i < |rows| && rows[i].key == key)
    ensures var es := NewEntries(RowEntries(rows), i, Entry(key, value), replacing);
      var free := PAGE_SIZE - CellsUsed(Cells(rows));
      var size := LeafCellSize(key, value);
      && free >= 0
      && (replacing ==> (size - CellSize(Cells(rows)[i]) > free <==> LeafUsed(es) > PAGE_SIZE))
      && (!replacing ==> (size + 2 > free <==> LeafUsed(es) > PAGE_SIZE))
      && (forall j :: 0 <= j < |es| ==> EntryCosts(es)[j] <= 1023) && LeafUsed(es) <= PAGE_SIZE + 1023
  {
    var before := RowEntries(rows);
    var e := Entry(key, value);
    LeafSorted(before, q, 0, lo, hi);
    Upd.LeafPut(before, key, value);
    Upd.LeafPutOk(before, key, value, q, lo, hi);
    Upd.LeafPutGrowth(before, key, value, q);
    hide Rank, LeafSlot, Put, Sum, EntryCost, Wf, LeafOk, CellSize, Sorted, RowsFit;
    var es := NewEntries(before, i, e, replacing);
    assert es == Put(before, key, value);
    Upd.CostBounds(es, q, lo, hi);
    RowCosts(rows);
    SplitSum(before, i, e, replacing);
    CostOf(key, value);
    if replacing { assert CellCosts(Cells(rows))[i] == EntryCosts(before)[i]; }
  }

  lemma StorableAny(e: Entry, q: Limits)
    requires Storable(e, q)
    ensures Storable(e, ANY)
  {
    CellBounds(e, q);
  }

  method ReplaceLeafValue(db: DB, cells: seq<LeafCell>, idx: nat, key: Key, value: Bytes, mode: Upd.Mode,
                          ghost rows: seq<Row>, ghost rest: multiset<PageId>, ghost q: Limits, ghost lo: real,
                              ghost hi: real)
    returns (r: Outcome, ghost l: PTree, ghost u: PTree)
    requires db.Open() && RowsStored(db.cache, rows) && cells == Cells(rows) && db.Live() == rest + RowPages(rows)
    requires Wf(Leaf(RowEntries(rows)), q, 0, lo, hi) && lo <= Rank(key) < hi && Storable(Entry(key, value), q)
    requires idx == LeafSlot(RowEntries(rows), key) && idx < |rows| && rows[idx].key == key
    modifies db
    ensures db.meta.numPages <= old(db.meta.numPages) + ValuePages(value) + 2
    ensures db.Past() == old(db.Past()) && db.Still() <= old(db.Still())
    ensures db.Open()
    ensures Updated(old(db.cache), db.cache, db.Live(), rest, Upd.UpdateLeaf(RowEntries(rows), key, value, mode), r,
                    l, u)
    ensures !Rewrote(r) ==> unchanged(db)
  {
    hide Inv, DB.View, DB.Past, DB.Still, DB.Live, Kept, RowsStored, Stored, Shape, TreePages, RowStored, Sum,
         RowsFit, Grew, Upd.GrowLeaf, Rank, LeafSlot, Wf, OtherStored, OtherPages, RowPages, CellOf, CellSize,
         FreeStep, NewEntries, ValuePages;
    l, u := PLeaf(0, []), PLeaf(0, []);
    NewEntriesAre(RowEntries(rows), idx, Entry(key, value), true);
    if mode == Upd.Insert {
      return Exists, l, u;
    }
    RowAt(db.cache, rows, idx);
    var existing := LeafValue(db.cache, cells[idx], rows[idx]);
    if existing == value {
      return Same, l, u;
    }
    StoredFit(db.cache, rows);
    LeafGuard(rows, idx, key, value, true, q, lo, hi);
    StorableAny(Entry(key, value), q);
    OthersStored(db.cache, rows, idx, true);
    PagesAround(rows, idx, true);
    ghost var c0 := db.cache;
    ReleaseChain(db, cells[idx], rows[idx], rest + OtherPages(rows, idx, true));
    var newCellSize := LeafCellSize(key, value);
    var oldCellSize := CellSize(cells[idx]);
    var needed := if newCellSize > oldCellSize then newCellSize - oldCellSize else 0;
    if needed > PAGE_SIZE - CellsUsed(cells) {
      r, l, u := SplitLeaf(db, cells, idx, key, value, true, rows, rest);
    } else {
      r, l := CopyLeaf(db, cells, idx, key, value, true, rows, rest);
      CopyGrew(db.cache, r, l, u, NewEntries(RowEntries(rows), idx, Entry(key, value), true));
    }
    assert db.Live() == rest + NewPages(r, l, u);
  }

  lemma NewEntriesAre(es: seq<Entry>, i: nat, e: Entry, replacing: bool)
    requires i <= |es| && (replacing ==> i < |es|)
    ensures NewEntries(es, i, e, replacing) == es[..i] + [e] + es[if replacing then i + 1 else i..]
  {
  }

  lemma CopyGrew(store: Store, r: Outcome, l: PTree, u: PTree, es: seq<Entry>)
    requires r == One(l.id) && Stored(store, l) && Shape(l) == Leaf(es) && LeafUsed(es) <= PAGE_SIZE
    ensures Grew(store, r, Upd.GrowLeaf(es), l, u)
  {
  }

  /** The overflow chain of a cell that goes away is released. */
  method ReleaseChain(db: DB, cell: LeafCell, ghost row: Row, ghost rest: multiset<PageId>)
    requires db.Open() && RowStored(db.cache, row) && cell == CellOf(row) && db.Live() == rest + multiset(row.chain)
    modifies db`allocs, db`reusable, db`freed, db`books
    ensures db.Past() == old(db.Past()) && db.Still() <= old(db.Still())
    ensures db.Open() && db.Live() == rest
  {
    hide Inv, DB.View, DB.Past, DB.Still, DB.Live;
    if cell.Spilled? {
      FreeOverflowPages(db, cell.first, row.chain, row.value, rest);
    }
  }

  method AddLeafValue(db: DB, cells: seq<LeafCell>, idx: nat, key: Key, value: Bytes, mode: Upd.Mode,
                      ghost rows: seq<Row>, ghost rest: multiset<PageId>, ghost q: Limits, ghost lo: real,
                          ghost hi: real)
    returns (r: Outcome, ghost l: PTree, ghost u: PTree)
    requires db.Open() && RowsStored(db.cache, rows) && cells == Cells(rows) && db.Live() == rest + RowPages(rows)
    requires Wf(Leaf(RowEntries(rows)), q, 0, lo, hi) && lo <= Rank(key) < hi && Storable(Entry(key, value), q)
    requires idx == LeafSlot(RowEntries(rows), key) && !(idx < |rows| && rows[idx].key == key)
    modifies db
    ensures db.meta.numPages <= old(db.meta.numPages) + ValuePages(value) + 2
    ensures db.Past() == old(db.Past()) && db.Still() <= old(db.Still())
    ensures db.Open()
    ensures Updated(old(db.cache), db.cache, db.Live(), rest, Upd.UpdateLeaf(RowEntries(rows), key, value, mode), r,
                    l, u)
    ensures !Rewrote(r) ==> unchanged(db)
  {
    hide Inv, DB.View, DB.Past, DB.Still, DB.Live, Kept, RowsStored, Stored, Shape, TreePages, RowStored, Sum,
         RowsFit, Grew, Upd.GrowLeaf, Rank, LeafSlot, Wf, OtherStored, OtherPages, RowPages, CellOf, CellSize,
         NewEntries, ValuePages;
    l, u := PLeaf(0, []), PLeaf(0, []);
    NewEntriesAre(RowEntries(rows), idx, Entry(key, value), false);
    if mode == Upd.Update {
      return NotFound, l, u;
    }
    StoredFit(db.cache, rows);
    LeafGuard(rows, idx, key, value, false, q, lo, hi);
    StorableAny(Entry(key, value), q);
    OthersStored(db.cache, rows, idx, false);
    PagesAround(rows, idx, false);
    assert rest + RowPages(rows) == rest + OtherPages(rows, idx, false);
    var newCellSize := LeafCellSize(key, value);
    if newCellSize + 2 > PAGE_SIZE - CellsUsed(cells) {
      r, l, u := SplitLeaf(db, cells, idx, key, value, false, rows, rest);
    } else {
      r, l := CopyLeaf(db, cells, idx, key, value, false, rows, rest);
      CopyGrew(db.cache, r, l, u, NewEntries(RowEntries(rows), idx, Entry(key, value), false));
    }
    assert db.Live() == rest + NewPages(r, l, u);
  }

  method UpdateLeaf(db: DB, id: PageId, key: Key, value: Bytes, mode: Upd.Mode,
                    ghost t: PTree, ghost rest: multiset<PageId>, ghost q: Limits, ghost lo: real, ghost hi: real)
    returns (r: Outcome, ghost l: PTree, ghost u: PTree)
    requires db.Open() && Stored(db.cache, t) && t.PLeaf? && t.id == id && db.Live() == rest + RowPages(t.rows)
    requires Wf(Shape(t), q, 0, lo, hi) && lo <= Rank(key) < hi && Storable(Entry(key, value), q)
    modifies db
    ensures db.meta.numPages <= old(db.meta.numPages) + ValuePages(value) + 2
    ensures db.Past() == old(db.Past()) && db.Still() <= old(db.Still())
    ensures db.Open()
    ensures Updated(old(db.cache), db.cache, db.Live(), rest, Upd.UpdateNode(Shape(t), key, value, mode), r, l, u)
    ensures !Rewrote(r) ==> unchanged(db)
  {
    hide Inv, DB.View, DB.Past, DB.Still, DB.Live, Kept, RowsStored, Stored, Shape, TreePages, Rank, LeafSlot, Wf,
         RowPages, Updated, Upd.UpdateLeaf, RowsFit, ValuePages;
    StoredLeaf(db.cache, t);
    RootStored(db.cache, t);
    StoredFit(db.cache, t.rows);
    RowCosts(t.rows);
    LeafSorted(RowEntries(t.rows), q, 0, lo, hi);
    var cells := db.cache[id].cells;
    var idx, found := SearchLeaf(cells, key, RowEntries(t.rows));
    if found {
      r, l, u := ReplaceLeafValue(db, cells, idx, key, value, mode, t.rows, rest, q, lo, hi);
    } else {
      r, l, u := AddLeafValue(db, cells, idx, key, value, mode, t.rows, rest, q, lo, hi);
    }
  }
}
