/** The work on tree pages done on their bytes: searching, rewriting and merging pages, each proved to leave exactly
    the bytes of the cell page that the same work on cells gives. */
module PageBytes {
  import opened Keys
  import opened OrderedMap
  import opened Layout
  import opened Trees
  import opened Pages
  import opened Encoding
  import opened SlottedPages
  import opened PageSearch
  import opened Codecs
  import LeafUpdate
  import Protocol
  import Seqs

  // ---- searching ----

  /** The key of a leaf cell, from the page's bytes. */
  method LeafKey(d: array<byte>, idx: nat, ghost cells: seq<LeafCell>, ghost offs: seq<nat>) returns (key: Key)
    requires HoldsLeaf(d[..], cells, offs) && idx < |cells|
    ensures key == cells[idx].key
  {
    hide EncodeLeaf, Slotted, Digits;
    var c := ReadCell(d, LeafKind, idx, EncodeLeaves(cells), offs);
    LeafRoundTrip(cells[idx]);
    key := c[LEAF_CELL_HEADER..LEAF_CELL_HEADER + Value(c[0..2])];
  }

  /** searchLeaf on the bytes of a page. */
  method SearchLeafBytes(d: array<byte>, key: Key, ghost cells: seq<LeafCell>, ghost offs: seq<nat>,
                         ghost es: seq<Entry>)
    returns (idx: nat, found: bool)
    requires HoldsLeaf(d[..], cells, offs)
    requires |cells| == |es| && (forall i :: 0 <= i < |es| ==> cells[i].key == es[i].key) && Sorted(es)
    ensures idx == LeafSlot(es, key)
    ensures found <==> idx < |es| && es[idx].key == key
    ensures found <==> Has(es, key)
  {
    hide Rank, LeafSlot, Compare, HoldsLeaf;
    LeafSlotFinds(es, key);
    var hi := LeafCount(d, cells, offs);
    var lo := 0;
    while lo < hi
      invariant 0 <= lo <= hi <= |cells|
      invariant forall j :: 0 <= j < lo ==> Rank(es[j].key) < Rank(key)
      invariant forall j :: hi <= j < |es| ==> Rank(key) < Rank(es[j].key)
    {
      var mid := lo + (hi - lo) / 2;
      var k := LeafKey(d, mid, cells, offs);
      var cmp := Compare(key, k);
      RankOrder(key, k);
      if cmp == 0 {
        LeafSlotIs(es, key, mid);
        return mid, true;
      } else if cmp < 0 {
        hi := mid;
      } else {
        lo := mid + 1;
      }
    }
    LeafSlotIs(es, key, lo);
    if lo < |es| { RankOrder(key, es[lo].key); }
    return lo, false;
  }

  method LeafCount(d: array<byte>, ghost cells: seq<LeafCell>, ghost offs: seq<nat>) returns (n: nat)
    requires HoldsLeaf(d[..], cells, offs)
    ensures n == |cells|
  {
    hide Slotted, Encodable;
    n := Count(d, LeafKind, EncodeLeaves(cells), offs);
  }

  method InternalKey(d: array<byte>, idx: nat, ghost keys: seq<Key>, ghost kids: seq<PageId>, ghost offs: seq<nat>)
    returns (key: Key)
    requires HoldsInternal(d[..], keys, kids, offs) && idx < |keys|
    ensures key == keys[idx]
  {
    hide EncodeInternal, Slotted, Digits, Value;
    var c := ReadCell(d, InternalKind, idx, EncodeInternals(keys, kids), offs);
    InternalRoundTrip(kids[idx], keys[idx]);
    key := c[INTERNAL_CELL_HEADER..];
  }

  /** child: the page id in the cell, or in the header for the rightmost one. */
  method Child(d: array<byte>, idx: nat, ghost keys: seq<Key>, ghost kids: seq<PageId>, ghost offs: seq<nat>)
    returns (id: PageId)
    requires HoldsInternal(d[..], keys, kids, offs) && idx <= |keys|
    ensures id == kids[idx]
  {
    hide EncodeInternal, Slotted, Digits, Value, Pow;
    var n := Count(d, InternalKind, EncodeInternals(keys, kids), offs);
    if idx == n {
      Widths();
      ValueOfDigits(kids[|keys|], 8);
      assert d.Length == PAGE_SIZE by { Unfold(d[..], InternalKind, EncodeInternals(keys, kids), offs); }
      assert d[5..13] == d[..][5..13];
      return Value(d[5..13]);
    }
    var c := ReadCell(d, InternalKind, idx, EncodeInternals(keys, kids), offs);
    InternalRoundTrip(kids[idx], keys[idx]);
    id := Value(c[0..8]);
  }

  /** searchInternal on the bytes of a page. */
  method SearchInternalBytes(d: array<byte>, key: Key, ghost keys: seq<Key>, ghost kids: seq<PageId>,
                             ghost offs: seq<nat>)
    returns (idx: nat)
    requires HoldsInternal(d[..], keys, kids, offs) && Increasing(keys)
    ensures idx == ChildSlot(keys, key)
  {
    hide Rank, ChildSlot, Compare, HoldsInternal;
    var hi := InternalCount(d, keys, kids, offs);
    var lo := 0;
    while lo < hi
      invariant 0 <= lo <= hi <= |keys|
      invariant forall j :: 0 <= j < lo ==> Rank(keys[j]) <= Rank(key)
      invariant forall j :: hi <= j < |keys| ==> Rank(key) < Rank(keys[j])
    {
      var mid := lo + (hi - lo) / 2;
      var k := InternalKey(d, mid, keys, kids, offs);
      RankOrder(key, k);
      if Compare(key, k) < 0 {
        hi := mid;
      } else {
        lo := mid + 1;
      }
    }
    ChildSlotIs(keys, key, lo);
    return lo;
  }

  method InternalCount(d: array<byte>, ghost keys: seq<Key>, ghost kids: seq<PageId>, ghost offs: seq<nat>)
    returns (n: nat)
    requires HoldsInternal(d[..], keys, kids, offs)
    ensures n == |keys|
  {
    hide Slotted, EncodeInternal;
    n := Count(d, InternalKind, EncodeInternals(keys, kids), offs);
  }

  // ---- writing leaves ----

  lemma LeavesAppend(a: seq<LeafCell>, b: seq<LeafCell>)
    ensures EncodeLeaves(a + b) == EncodeLeaves(a) + EncodeLeaves(b)
  {
    hide EncodeLeaf;
  }

  lemma LeavesSlice(cells: seq<LeafCell>, i: nat, j: nat)
    requires i <= j <= |cells|
    ensures EncodeLeaves(cells)[i..j] == EncodeLeaves(cells[i..j])
  {
    hide EncodeLeaf;
  }

  /** Room for the cells of a and b in one page. */
  lemma RoomFor(a: seq<LeafCell>, b: seq<LeafCell>)
    requires (forall i :: 0 <= i < |a + b| ==> Encodable((a + b)[i])) && CellsUsed(a + b) <= PAGE_SIZE
    ensures Header(LeafKind) + 2 * (|a| + |b|) + Total(EncodeLeaves(a)) + Total(EncodeLeaves(b)) <= PAGE_SIZE
  {
    hide EncodeLeaf, Encodable, Total, Sum;
    LeafTotals(a + b);
    LeavesAppend(a, b);
    TotalAppend(EncodeLeaves(a), EncodeLeaves(b));
  }

  /** A range of a leaf's cells, appended to another leaf. */
  method AppendRange(dst: array<byte>, src: array<byte>, start: nat, count: nat, ghost cells: seq<LeafCell>,
                     ghost offs: seq<nat>,
                     ghost from: seq<LeafCell>, ghost fromOffs: seq<nat>)
    returns (ghost offs': seq<nat>)
    requires dst != src && HoldsLeaf(dst[..], cells, offs) && HoldsLeaf(src[..], from, fromOffs)
             && start + count <= |from|
    requires CellsUsed(cells + from[start..start + count]) <= PAGE_SIZE
    modifies dst
    ensures HoldsLeaf(dst[..], cells + from[start..start + count], offs')
  {
    hide Slotted, EncodeLeaf, Encodable, Total, CellsUsed;
    ghost var part := from[start..start + count];
    LeavesSlice(from, start, start + count);
    LeavesAppend(cells, part);
    RoomFor(cells, part);
    offs' := CopyRange(dst, src, LeafKind, start, count, EncodeLeaves(cells), offs, EncodeLeaves(from), fromOffs);
  }

  lemma NewEncodable(key: Key, value: Bytes, overflowID: PageId)
    requires |key| <= MAX_KEY && overflowID < Protocol.WORD && (overflowID == 0 ==> Inline(key, value))
    ensures Encodable(LeafUpdate.NewCell(key, value, overflowID))
  {
  }

  /** appendLeafCell: one more cell at the end. */
  method AppendCell(dst: array<byte>, key: Key, value: Bytes, overflowID: PageId, ghost cells: seq<LeafCell>,
                    ghost offs: seq<nat>)
    returns (ghost offs': seq<nat>)
    requires HoldsLeaf(dst[..], cells, offs)
    requires |key| <= MAX_KEY && overflowID < Protocol.WORD && (overflowID == 0 ==> Inline(key, value))
    requires CellsUsed(cells + [LeafUpdate.NewCell(key, value, overflowID)]) <= PAGE_SIZE
    modifies dst
    ensures HoldsLeaf(dst[..], cells + [LeafUpdate.NewCell(key, value, overflowID)], offs')
  {
    hide Slotted, EncodeLeaf, Encodable, Total, CellsUsed, LeafUpdate.NewCell, IsCell;
    var cell := LeafUpdate.NewCell(key, value, overflowID);
    NewEncodable(key, value, overflowID);
    LeafRoundTrip(cell);
    LeavesAppend(cells, [cell]);
    RoomFor(cells, [cell]);
    ghost var es := EncodeLeaves(cells);
    assert EncodeLeaves([cell]) == [EncodeLeaf(cell)];
    TotalOne(EncodeLeaf(cell));
    var n := LeafCount(dst, cells, offs);
    assert InsertAt(es, n, EncodeLeaf(cell)) == es + [EncodeLeaf(cell)];
    offs' := InsertCell(dst, LeafKind, n, EncodeLeaf(cell), es, offs);
  }

  method EmptyLeaf(dst: array<byte>)
    requires dst.Length == PAGE_SIZE
    modifies dst
    ensures HoldsLeaf(dst[..], [], [])
  {
    hide Slotted;
    InitPage(dst, LeafKind);
    assert EncodeLeaves([]) == [];
  }

  lemma UsedLess(a: seq<LeafCell>, b: seq<LeafCell>)
    ensures CellsUsed(a) <= CellsUsed(a + b) && CellsUsed(b) <= CellsUsed(a + b)
  {
    hide CellSize;
    assert CellCosts(a + b) == CellCosts(a) + CellCosts(b);
    SumAppend(CellCosts(a), CellCosts(b));
  }

  /** Two runs of a leaf's cells in a fresh page, with a new cell between them. */
  method Weave(dst: array<byte>, src: array<byte>, start: nat, idx: nat, next: nat, end: nat,
               key: Key, value: Bytes, overflowID: PageId, ghost cells: seq<LeafCell>, ghost offs: seq<nat>)
    returns (ghost offs': seq<nat>)
    requires dst != src && dst.Length == PAGE_SIZE && HoldsLeaf(src[..], cells, offs)
             && start <= idx <= next <= end <= |cells|
    requires |key| <= MAX_KEY && overflowID < Protocol.WORD && (overflowID == 0 ==> Inline(key, value))
    requires CellsUsed(cells[start..idx] + [LeafUpdate.NewCell(key, value, overflowID)] + cells[next..end]) <= PAGE_SIZE
    modifies dst
    ensures HoldsLeaf(dst[..], cells[start..idx] + [LeafUpdate.NewCell(key, value, overflowID)] + cells[next..end],
                      offs')
  {
    hide HoldsLeaf, CellsUsed, LeafUpdate.NewCell;
    ghost var cell := LeafUpdate.NewCell(key, value, overflowID);
    ghost var a, b := cells[start..idx], cells[next..end];
    UsedLess(a + [cell], b);
    UsedLess(a, [cell]);
    EmptyLeaf(dst);
    Seqs.Empty(a);
    assert cells[start..start + (idx - start)] == a && cells[next..next + (end - next)] == b;
    offs' := AppendRange(dst, src, start, idx - start, [], [], cells, offs);
    offs' := AppendCell(dst, key, value, overflowID, a, offs');
    offs' := AppendRange(dst, src, next, end - next, a + [cell], offs', cells, offs);
  }

  /** A leaf's cells with a new one in its slot, in place of the old one or before it. */
  ghost function WithCell(cells: seq<LeafCell>, idx: nat, cell: LeafCell, replacing: bool): seq<LeafCell>
    requires idx <= |cells| && (replacing ==> idx < |cells|)
  {
    cells[..idx] + [cell] + cells[if replacing then idx + 1 else idx..]
  }

  /** A leaf rewritten into a fresh page with a new cell: the bytes hold exactly the cells that the rewrite on cells
      gives. */
  method CopyLeafBytes(dst: array<byte>, src: array<byte>, idx: nat, key: Key, value: Bytes, overflowID: PageId,
                       replacing: bool,
                       ghost cells: seq<LeafCell>, ghost offs: seq<nat>)
    returns (ghost offs': seq<nat>)
    requires dst != src && dst.Length == PAGE_SIZE && HoldsLeaf(src[..], cells, offs)
    requires idx <= |cells| && (replacing ==> idx < |cells|)
    requires |key| <= MAX_KEY && overflowID < Protocol.WORD && (overflowID == 0 ==> Inline(key, value))
    requires CellsUsed(WithCell(cells, idx, LeafUpdate.NewCell(key, value, overflowID), replacing)) <= PAGE_SIZE
    modifies dst
    ensures HoldsLeaf(dst[..], WithCell(cells, idx, LeafUpdate.NewCell(key, value, overflowID), replacing), offs')
  {
    hide HoldsLeaf, CellsUsed, LeafUpdate.NewCell;
    var n := LeafCount(src, cells, offs);
    var next: nat := if replacing then idx + 1 else idx;
    assert cells[0..idx] == cells[..idx] && cells[next..n] == cells[next..];
    offs' := Weave(dst, src, 0, idx, next, n, key, value, overflowID, cells, offs);
  }

  /** A leaf cut at s into two fresh pages, with a new cell: each holds the cells of its side. */
  method SplitLeafBytes(left: array<byte>, right: array<byte>, src: array<byte>, idx: nat, key: Key, value: Bytes,
                        overflowID: PageId,
                        s: nat, replacing: bool, ghost cells: seq<LeafCell>, ghost offs: seq<nat>)
    returns (ghost ol: seq<nat>, ghost or: seq<nat>)
    requires left != src && right != src && left != right && left.Length == PAGE_SIZE && right.Length == PAGE_SIZE
    requires HoldsLeaf(src[..], cells, offs) && idx <= |cells| && (replacing ==> idx < |cells|)
    requires |key| <= MAX_KEY && overflowID < Protocol.WORD && (overflowID == 0 ==> Inline(key, value))
    requires var all := WithCell(cells, idx, LeafUpdate.NewCell(key, value, overflowID), replacing);
      s <= |all| && CellsUsed(all[..s]) <= PAGE_SIZE && CellsUsed(all[s..]) <= PAGE_SIZE
    modifies left, right
    ensures var all := WithCell(cells, idx, LeafUpdate.NewCell(key, value, overflowID), replacing);
      HoldsLeaf(left[..], all[..s], ol) && HoldsLeaf(right[..], all[s..], or)
  {
    hide HoldsLeaf, CellsUsed, LeafUpdate.NewCell;
    var n := LeafCount(src, cells, offs);
    var next: nat := if replacing then idx + 1 else idx;
    ghost var cell := LeafUpdate.NewCell(key, value, overflowID);
    CutCells(cells, idx, cell, s, replacing);
    if idx < s {
      var mid: nat := next + (s - idx - 1);
      ol := Weave(left, src, 0, idx, next, mid, key, value, overflowID, cells, offs);
      or := KeepLeafBytes(right, src, mid, n - mid, cells, offs);
    } else {
      ol := KeepLeafBytes(left, src, 0, s, cells, offs);
      or := Weave(right, src, s, idx, next, n, key, value, overflowID, cells, offs);
    }
  }

  lemma CutCells(cells: seq<LeafCell>, idx: nat, cell: LeafCell, s: nat, replacing: bool)
    requires idx <= |cells| && (replacing ==> idx < |cells|) && s <= |WithCell(cells, idx, cell, replacing)|
    ensures var all, next := WithCell(cells, idx, cell, replacing), if replacing then idx + 1 else idx;
      && (idx < s ==>
            var mid := next + (s - idx - 1);
            mid <= |cells| && all[..s] == cells[0..idx] + [cell] + cells[next..mid]
                && all[s..] == cells[mid..mid + (|cells| - mid)])
      && (s <= idx ==> all[..s] == cells[0..0 + s] && all[s..] == cells[s..idx] + [cell] + cells[next..|cells|])
  {
  }

  /** A leaf rewritten into a fresh page without one of its cells. */
  method DeleteLeafBytes(dst: array<byte>, src: array<byte>, idx: nat, ghost cells: seq<LeafCell>, ghost offs: seq<nat>)
    returns (ghost offs': seq<nat>)
    requires dst != src && dst.Length == PAGE_SIZE && HoldsLeaf(src[..], cells, offs) && idx < |cells|
    modifies dst
    ensures HoldsLeaf(dst[..], cells[..idx] + cells[idx + 1..], offs')
  {
    hide Slotted, EncodeLeaf, Encodable;
    ghost var es := EncodeLeaves(cells);
    InitPage(dst, LeafKind);
    offs' := CopyWithout(dst, src, LeafKind, idx, es, offs);
    LeavesSlice(cells, 0, idx);
    LeavesSlice(cells, idx + 1, |cells|);
    LeavesAppend(cells[..idx], cells[idx + 1..]);
    assert es[..idx] == es[0..idx] && es[idx + 1..] == es[idx + 1..|cells|];
    assert cells[..idx] == cells[0..idx] && cells[idx + 1..] == cells[idx + 1..|cells|];
  }

  /** Two leaves merged into a fresh page. */
  method MergeLeafBytes(dst: array<byte>, left: array<byte>, right: array<byte>, ghost cl: seq<LeafCell>,
                        ghost ol: seq<nat>,
                        ghost cr: seq<LeafCell>, ghost or: seq<nat>)
    returns (ghost offs': seq<nat>)
    requires dst != left && dst != right && dst.Length == PAGE_SIZE
    requires HoldsLeaf(left[..], cl, ol) && HoldsLeaf(right[..], cr, or) && CellsUsed(cl + cr) <= PAGE_SIZE
    modifies dst
    ensures HoldsLeaf(dst[..], cl + cr, offs')
  {
    hide HoldsLeaf, CellsUsed;
    var n := LeafCount(left, cl, ol);
    var m := LeafCount(right, cr, or);
    UsedLess(cl, cr);
    EmptyLeaf(dst);
    assert [] + cl[0..0 + n] == cl && cr[0..0 + m] == cr;
    offs' := AppendRange(dst, left, 0, n, [], [], cl, ol);
    offs' := AppendRange(dst, right, 0, m, cl, offs', cr, or);
  }

  /** A run of a leaf's cells in a fresh page, as a donor keeps it after a borrow. It always fits. */
  method KeepLeafBytes(dst: array<byte>, src: array<byte>, start: nat, count: nat, ghost cells: seq<LeafCell>,
                       ghost offs: seq<nat>)
    returns (ghost offs': seq<nat>)
    requires dst != src && dst.Length == PAGE_SIZE && HoldsLeaf(src[..], cells, offs) && start + count <= |cells|
    modifies dst
    ensures HoldsLeaf(dst[..], cells[start..start + count], offs')
  {
    hide HoldsLeaf, CellsUsed;
    EmptyLeaf(dst);
    Seqs.Empty(cells[start..start + count]);
    SliceFits(src[..], cells, offs, start, count);
    offs' := AppendRange(dst, src, start, count, [], [], cells, offs);
  }

  lemma SliceFits(d: Bytes, cells: seq<LeafCell>, offs: seq<nat>, start: nat, count: nat)
    requires HoldsLeaf(d, cells, offs) && start + count <= |cells|
    ensures CellsUsed(cells[start..start + count]) <= PAGE_SIZE
  {
    hide HoldsLeaf, CellsUsed;
    LeafFreeSpace(d, cells, offs);
    Seqs.Parts(cells, start + count);
    UsedLess(cells[..start + count], cells[start + count..]);
    Seqs.TakeMore(cells, start, start + count);
    UsedLess(cells[..start], cells[start..start + count]);
  }
}
