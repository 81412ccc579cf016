/** Pages as bytes: a header, an array of two-byte cell offsets growing up, and cells growing down from the
    end of the page. Each operation acts on the list of cells as the matching list operation. */
module SlottedPages {
  import opened Keys
  import opened Layout
  import opened Encoding
  import Seqs

  datatype Kind = LeafKind | InternalKind

  function Header(k: Kind): nat { if k == LeafKind then LEAF_HEADER else INTERNAL_HEADER }

  function TypeByte(k: Kind): byte { if k == LeafKind then 2 else 1 }

  /** The length of a cell, from its own bytes. */
  function CellLen(k: Kind, c: Bytes): nat {
    if k == InternalKind then
      if |c| < INTERNAL_CELL_HEADER then 0 else INTERNAL_CELL_HEADER + Value(c[8..10])
    else if |c| < LEAF_CELL_HEADER then 0
    else LEAF_CELL_HEADER + Value(c[0..2]) + (if c[4] == 1 then 8 else Value(c[2..4]))
  }

  /** A cell that says its own length. */
  ghost predicate IsCell(k: Kind, c: Bytes) {
    (if k == LeafKind then |c| >= LEAF_CELL_HEADER else |c| >= INTERNAL_CELL_HEADER) && CellLen(k, c) == |c|
  }

  ghost function Total(cells: seq<Bytes>): nat {
    if cells == [] then 0 else |cells[0]| + Total(cells[1..])
  }

  /** The offset array as bytes. */
  ghost function Codes(offs: seq<nat>): (b: Bytes)
    ensures |b| == 2 * |offs|
  {
    if offs == [] then [] else Digits(offs[0], 2) + Codes(offs[1..])
  }

  /** Cell i lies at offs[i], inside the cell area. */
  ghost predicate CellsAt(d: Bytes, cells: seq<Bytes>, offs: seq<nat>, first: nat) {
    |offs| == |cells| && forall i :: 0 <= i < |cells| ==>
      first <= offs[i] && offs[i] + |cells[i]| <= |d| && d[offs[i]..offs[i] + |cells[i]|] == cells[i]
  }

  /** No two cells overlap. */
  ghost predicate Apart(cells: seq<Bytes>, offs: seq<nat>) {
    |offs| == |cells| && forall i, j :: 0 <= i < j < |cells| ==>
        offs[i] + |cells[i]| <= offs[j] || offs[j] + |cells[j]| <= offs[i]
  }

  ghost predicate AllCells(k: Kind, cells: seq<Bytes>) {
    forall i :: 0 <= i < |cells| ==> IsCell(k, cells[i])
  }

  /** The page holds these cells at these offsets, packed against its end without gaps. */
  ghost predicate Slotted(d: Bytes, k: Kind, cells: seq<Bytes>, offs: seq<nat>) {
    && |d| == PAGE_SIZE && |offs| == |cells| && d[0] == TypeByte(k)
    && Header(k) + 2 * |cells| + Total(cells) <= PAGE_SIZE
    && d[1..3] == Digits(|cells|, 2) && d[3..5] == Digits(PAGE_SIZE - Total(cells), 2)
    && d[Header(k)..Header(k) + 2 * |cells|] == Codes(offs)
    && CellsAt(d, cells, offs, PAGE_SIZE - Total(cells)) && Apart(cells, offs)
    && AllCells(k, cells)
  }

  // ---- the offset array ----

  lemma {:induction false} CodesAppend(a: seq<nat>, b: seq<nat>)
    ensures Codes(a + b) == Codes(a) + Codes(b)
  {
    hide Digits;
    if a == [] {
      assert a + b == b;
    } else {
      CodesAppend(a[1..], b);
      CodesCons(a);
      CodesCons(a + b);
      assert (a + b)[1..] == a[1..] + b;
      hide Codes;
      Seqs.Assoc(Digits(a[0], 2), Codes(a[1..]), Codes(b));
    }
  }

  lemma CodesCons(a: seq<nat>)
    requires a != []
    ensures Codes(a) == Digits(a[0], 2) + Codes(a[1..])
  {
  }

  lemma CodesOne(x: nat)
    ensures Codes([x]) == Digits(x, 2)
  {
    assert [x][1..] == [];
  }

  lemma CodesAround(offs: seq<nat>, i: nat)
    requires i <= |offs|
    ensures Codes(offs)[..2 * i] == Codes(offs[..i]) && Codes(offs)[2 * i..] == Codes(offs[i..])
  {
    Seqs.Parts(offs, i);
    CodesAppend(offs[..i], offs[i..]);
  }

  lemma CodesAt(offs: seq<nat>, i: nat)
    requires i < |offs|
    ensures Codes(offs)[2 * i..2 * i + 2] == Digits(offs[i], 2)
  {
    hide Codes;
    CodesAround(offs, i);
    Seqs.DropFirst(offs, i);
    CodesAppend([offs[i]], offs[i + 1..]);
    CodesOne(offs[i]);
    Prefix(Digits(offs[i], 2), Codes(offs[i + 1..]));
    SliceOf(Codes(offs), 2 * i, 2 * i + 2);
  }

  lemma Prefix<T>(a: seq<T>, b: seq<T>)
    ensures (a + b)[..|a|] == a
  {
  }

  lemma SliceOf<T>(s: seq<T>, i: nat, j: nat)
    requires i <= j <= |s|
    ensures s[i..j] == s[i..][..j - i]
  {
  }

  lemma {:induction false} TotalAppend(a: seq<Bytes>, b: seq<Bytes>)
    ensures Total(a + b) == Total(a) + Total(b)
  {
    if a == [] {
      assert a + b == b;
    } else {
      TotalAppend(a[1..], b);
      assert (a + b)[1..] == a[1..] + b;
    }
  }

  lemma TotalOne(c: Bytes)
    ensures Total([c]) == |c|
  {
    assert [c][1..] == [];
  }

  lemma TotalInsert(cells: seq<Bytes>, i: nat, c: Bytes)
    requires i <= |cells|
    ensures Total(cells[..i] + [c] + cells[i..]) == Total(cells) + |c|
  {
    hide Total;
    Seqs.Parts(cells, i);
    TotalAppend(cells[..i], cells[i..]);
    TotalAppend(cells[..i] + [c], cells[i..]);
    TotalAppend(cells[..i], [c]);
    TotalOne(c);
  }

  // ---- reading ----

  lemma Fits(n: nat)
    requires n < 0x1_0000
    ensures Value(Digits(n, 2)) == n
  {
    Widths();
    ValueOfDigits(n, 2);
  }

  lemma SlottedBounds(d: Bytes, k: Kind, cells: seq<Bytes>, offs: seq<nat>)
    requires Slotted(d, k, cells, offs)
    ensures Value(d[1..3]) == |cells| && Value(d[3..5]) == PAGE_SIZE - Total(cells)
    ensures forall i :: 0 <= i < |offs| ==> offs[i] < 0x1_0000
  {
    hide Total, Codes, Apart, IsCell;
    Fits(|cells|);
    Fits(PAGE_SIZE - Total(cells));
  }

  /** cellOffset. */
  method CellOffset(d: array<byte>, k: Kind, idx: nat, ghost cells: seq<Bytes>, ghost offs: seq<nat>) returns (off: nat)
    requires Slotted(d[..], k, cells, offs) && idx < |cells|
    ensures off == offs[idx]
  {
    hide Total, Codes, Slotted, Digits, Value;
    var pos := Header(k) + 2 * idx;
    Unfold(d[..], k, cells, offs);
    off := Value(d[pos..pos + 2]);
    CodesAt(offs, idx);
    SlottedBounds(d[..], k, cells, offs);
    Fits(offs[idx]);
    Inside(d[..], Header(k), Codes(offs), 2 * idx, 2 * idx + 2);
    assert d[pos..pos + 2] == d[..][pos..pos + 2];
  }

  /** cellSize, and the cell's bytes. */
  method ReadCell(d: array<byte>, k: Kind, idx: nat, ghost cells: seq<Bytes>, ghost offs: seq<nat>) returns (c: Bytes)
    requires Slotted(d[..], k, cells, offs) && idx < |cells|
    ensures c == cells[idx]
  {
    hide Total, Codes, Apart;
    var pos := CellOffset(d, k, idx, cells, offs);
    ghost var cell := cells[idx];
    assert d[..][pos..pos + |cell|] == cell;
    assert IsCell(k, cell);
    var size: nat;
    if k == LeafKind {
      Inside(d[..], pos, cell, 0, 2);
      Inside(d[..], pos, cell, 2, 4);
      Inside(d[..], pos, cell, 4, 5);
      assert d[pos + 4] == d[..][pos + 4..pos + 5][0] && cell[4] == cell[4..5][0];
      var keylen, vallen := Value(d[pos..pos + 2]), Value(d[pos + 2..pos + 4]);
      size := LEAF_CELL_HEADER + keylen + (if d[pos + 4] == 1 then 8 else vallen);
    } else {
      Inside(d[..], pos, cell, 8, 10);
      size := INTERNAL_CELL_HEADER + Value(d[pos + 8..pos + 10]);
    }
    c := d[pos..pos + size];
  }

  lemma Inside(d: Bytes, pos: nat, c: Bytes, a: nat, b: nat)
    requires pos + |c| <= |d| && d[pos..pos + |c|] == c && a <= b <= |c|
    ensures d[pos + a..pos + b] == c[a..b]
  {
    forall x | a <= x < b ensures d[pos + x] == c[x] { assert d[pos..pos + |c|][x] == d[pos + x]; }
  }

  /** freeSpace is exactly the page less its header, its cells and their slots. */
  method FreeSpace(d: array<byte>, k: Kind, ghost cells: seq<Bytes>, ghost offs: seq<nat>) returns (free: nat)
    requires Slotted(d[..], k, cells, offs)
    ensures free == PAGE_SIZE - Header(k) - Total(cells) - 2 * |cells|
  {
    hide Total, Codes, Apart, IsCell, CellsAt;
    SlottedBounds(d[..], k, cells, offs);
    assert d[1..3] == d[..][1..3] && d[3..5] == d[..][3..5];
    var offsetArrayEnd := Header(k) + Value(d[1..3]) * 2;
    free := Value(d[3..5]) - offsetArrayEnd;
  }

  // ---- writing ----

  function InsertAt<T>(s: seq<T>, i: nat, x: T): seq<T>
    requires i <= |s|
  {
    s[..i] + [x] + s[i..]
  }

  /** The bytes after a cell has been inserted at slot i: the cell below the others, its offset in the
      array with the later offsets moved up, the new first offset, the new count. */
  function Inserted(d: Bytes, k: Kind, n: nat, first: nat, i: nat, c: Bytes): Bytes
    requires |d| == PAGE_SIZE && i <= n && |c| <= first <= PAGE_SIZE && Header(k) + 2 * n + 2 <= first - |c|
  {
    var f, pos := first - |c|, Header(k) + 2 * i;
    var d1 := Splice(d, f, c);
    var d2 := Splice(d1, pos, Digits(f, 2) + d1[pos..Header(k) + 2 * n]);
    Splice(Splice(d2, 3, Digits(f, 2)), 1, Digits(n + 1, 2))
  }

  /** What matters of those bytes. */
  lemma InsertedParts(d: Bytes, k: Kind, n: nat, first: nat, i: nat, c: Bytes)
    requires |d| == PAGE_SIZE && i <= n && |c| <= first <= PAGE_SIZE && Header(k) + 2 * n + 2 <= first - |c|
    ensures var r, f, h := Inserted(d, k, n, first, i, c), first - |c|, Header(k);
      && |r| == PAGE_SIZE && r[0] == d[0] && r[1..3] == Digits(n + 1, 2) && r[3..5] == Digits(f, 2)
      && r[5..h] == d[5..h]
      && r[h..h + 2 * (n + 1)] == d[h..h + 2 * i] + (Digits(f, 2) + d[h + 2 * i..h + 2 * n])
      && r[f..first] == c && r[first..] == d[first..]
  {
    hide Splice, Digits;
    var f, h, pos := first - |c|, Header(k), Header(k) + 2 * i;
    var d1 := Splice(d, f, c);
    var mid := Digits(f, 2) + d1[pos..h + 2 * n];
    var d2 := Splice(d1, pos, mid);
    var d3 := Splice(d2, 3, Digits(f, 2));
    var r := Splice(d3, 1, Digits(n + 1, 2));
    // the cell area
    SpliceIn(d, f, c);
    SpliceOut(d1, pos, mid, f, first);
    SpliceOut(d2, 3, Digits(f, 2), f, first);
    SpliceOut(d3, 1, Digits(n + 1, 2), f, first);
    Above(d, d1, d2, d3, r, k, n, first, i, c);
    // the offset array
    SpliceOut(d, f, c, pos, h + 2 * n);
    Middle(d, d1, d2, d3, r, k, n, first, i, c);
    // the header
    SpliceIn(d3, 1, Digits(n + 1, 2));
    SpliceOut(d3, 1, Digits(n + 1, 2), 3, 5);
    SpliceIn(d2, 3, Digits(f, 2));
    Front(d, d1, d2, d3, r, k, n, first, i, c);
  }

  ghost predicate Steps(d: Bytes, d1: Bytes, d2: Bytes, d3: Bytes, r: Bytes, k: Kind, n: nat, first: nat, i: nat,
                        c: Bytes) {
    && |d| == PAGE_SIZE && i <= n && |c| <= first <= PAGE_SIZE && Header(k) + 2 * n + 2 <= first - |c|
    && d1 == Splice(d, first - |c|, c)
    && d2 == Splice(d1, Header(k) + 2 * i, Digits(first - |c|, 2) + d1[Header(k) + 2 * i..Header(k) + 2 * n])
    && d3 == Splice(d2, 3, Digits(first - |c|, 2)) && r == Splice(d3, 1, Digits(n + 1, 2))
  }

  lemma Above(d: Bytes, d1: Bytes, d2: Bytes, d3: Bytes, r: Bytes, k: Kind, n: nat, first: nat, i: nat, c: Bytes)
    requires Steps(d, d1, d2, d3, r, k, n, first, i, c)
    ensures r[first..] == d[first..]
  {
    hide Splice, Digits;
    var f := first - |c|;
    SpliceOut(d, f, c, first, PAGE_SIZE);
    SpliceOut(d1, Header(k) + 2 * i, Digits(f, 2) + d1[Header(k) + 2 * i..Header(k) + 2 * n], first, PAGE_SIZE);
    SpliceOut(d2, 3, Digits(f, 2), first, PAGE_SIZE);
    SpliceOut(d3, 1, Digits(n + 1, 2), first, PAGE_SIZE);
    ToEnd(r, first);
    ToEnd(d, first);
  }

  lemma ToEnd<T>(s: seq<T>, i: nat)
    requires i <= |s|
    ensures s[i..] == s[i..|s|]
  {
  }

  lemma Middle(d: Bytes, d1: Bytes, d2: Bytes, d3: Bytes, r: Bytes, k: Kind, n: nat, first: nat, i: nat, c: Bytes)
    requires Steps(d, d1, d2, d3, r, k, n, first, i, c)
    ensures var f, h := first - |c|, Header(k);
      r[h..h + 2 * (n + 1)] == d[h..h + 2 * i] + (Digits(f, 2) + d[h + 2 * i..h + 2 * n])
  {
    hide Splice, Digits;
    var f, h, pos := first - |c|, Header(k), Header(k) + 2 * i;
    var mid := Digits(f, 2) + d1[pos..h + 2 * n];
    SpliceOut(d3, 1, Digits(n + 1, 2), h, h + 2 * n + 2);
    SpliceOut(d2, 3, Digits(f, 2), h, h + 2 * n + 2);
    SpliceOut(d1, pos, mid, h, pos);
    SpliceOut(d, f, c, h, pos);
    SpliceOut(d, f, c, pos, h + 2 * n);
    SpliceIn(d1, pos, mid);
    TwoSlices(d2, h, pos, h + 2 * n + 2);
  }

  lemma TwoSlices<T>(s: seq<T>, a: nat, b: nat, c: nat)
    requires a <= b <= c <= |s|
    ensures s[a..c] == s[a..b] + s[b..c]
  {
  }

  lemma Front(d: Bytes, d1: Bytes, d2: Bytes, d3: Bytes, r: Bytes, k: Kind, n: nat, first: nat, i: nat, c: Bytes)
    requires Steps(d, d1, d2, d3, r, k, n, first, i, c)
    ensures r[0] == d[0] && r[5..Header(k)] == d[5..Header(k)]
  {
    hide Splice, Digits;
    var f, h, pos := first - |c|, Header(k), Header(k) + 2 * i;
    var mid := Digits(f, 2) + d1[pos..h + 2 * n];
    SpliceOut(d3, 1, Digits(n + 1, 2), 5, h);
    SpliceOut(d2, 3, Digits(f, 2), 5, h);
    SpliceOut(d1, pos, mid, 5, h);
    SpliceOut(d, f, c, 5, h);
    SpliceOut(d3, 1, Digits(n + 1, 2), 0, 1);
    SpliceOut(d2, 3, Digits(f, 2), 0, 1);
    SpliceOut(d1, pos, mid, 0, 1);
    SpliceOut(d, f, c, 0, 1);
    assert r[0] == r[0..1][0] && d[0] == d[0..1][0];
  }

  /** Inserting a cell's bytes inserts the cell into the list. */
  lemma InsertedOk(d: Bytes, k: Kind, cells: seq<Bytes>, offs: seq<nat>, i: nat, c: Bytes)
    requires Slotted(d, k, cells, offs) && i <= |cells| && IsCell(k, c)
             && Header(k) + 2 * |cells| + Total(cells) + 2 + |c| <= PAGE_SIZE
    ensures var first := PAGE_SIZE - Total(cells);
      var r := Inserted(d, k, |cells|, first, i, c);
      && Slotted(r, k, InsertAt(cells, i, c), InsertAt<nat>(offs, i, first - |c|))
      && r[5..Header(k)] == d[5..Header(k)]
  {
    hide Inserted, Codes, Total, IsCell, Digits, CellsAt, Apart, InsertAt, Slotted, AllCells, Header;
    Unfold(d, k, cells, offs);
    var n, first := |cells|, PAGE_SIZE - Total(cells);
    var f: nat := first - |c|;
    TotalAfter(cells, offs, i, c, f);
    InsertedArray(d, k, offs, first, i, c);
    InsertedFront(d, k, n, first, i, c);
    InsertedCells(d, k, cells, offs, first, i, c);
    ApartInsert(d, cells, offs, first, i, c);
    CellsAll(k, cells, i, c);
    Fold(Inserted(d, k, n, first, i, c), k, InsertAt(cells, i, c), InsertAt<nat>(offs, i, f), n + 1, f);
  }

  lemma InsertedArray(d: Bytes, k: Kind, offs: seq<nat>, first: nat, i: nat, c: Bytes)
    requires |d| == PAGE_SIZE && i <= |offs| && |c| <= first <= PAGE_SIZE && Header(k) + 2 * |offs| + 2 <= first - |c|
    requires d[Header(k)..Header(k) + 2 * |offs|] == Codes(offs)
    ensures Inserted(d, k, |offs|, first, i, c)[Header(k)..Header(k) + 2 * (|offs| + 1)] ==
            Codes(InsertAt<nat>(offs, i, first - |c|))
  {
    hide Inserted, Codes, Digits, InsertAt, Header;
    InsertedParts(d, k, |offs|, first, i, c);
    ArrayInsert(d, k, offs, i, first - |c|);
  }

  lemma InsertedFront(d: Bytes, k: Kind, n: nat, first: nat, i: nat, c: Bytes)
    requires |d| == PAGE_SIZE && i <= n && |c| <= first <= PAGE_SIZE && Header(k) + 2 * n + 2 <= first - |c|
    ensures var r := Inserted(d, k, n, first, i, c);
      && |r| == PAGE_SIZE && r[0] == d[0] && r[1..3] == Digits(n + 1, 2) && r[3..5] == Digits(first - |c|, 2)
      && r[5..Header(k)] == d[5..Header(k)]
  {
    hide Inserted, Digits;
    InsertedParts(d, k, n, first, i, c);
  }

  lemma InsertedCells(d: Bytes, k: Kind, cells: seq<Bytes>, offs: seq<nat>, first: nat, i: nat, c: Bytes)
    requires |d| == PAGE_SIZE && i <= |cells| && |c| <= first <= PAGE_SIZE && Header(k) + 2 * |cells| + 2 <= first - |c|
    requires CellsAt(d, cells, offs, first)
    ensures CellsAt(Inserted(d, k, |cells|, first, i, c), InsertAt(cells, i, c), InsertAt<nat>(offs, i, first - |c|),
                    first - |c|)
  {
    hide Inserted, Digits, CellsAt, InsertAt;
    InsertedParts(d, k, |cells|, first, i, c);
    SizeOf(d, cells, offs, first);
    CellsInsert(d, Inserted(d, k, |cells|, first, i, c), cells, offs, first, i, c);
  }

  lemma SizeOf(d: Bytes, cells: seq<Bytes>, offs: seq<nat>, first: nat)
    requires CellsAt(d, cells, offs, first)
    ensures |cells| == |offs|
  {
  }

  lemma Unfold(d: Bytes, k: Kind, cells: seq<Bytes>, offs: seq<nat>)
    requires Slotted(d, k, cells, offs)
    ensures |d| == PAGE_SIZE && |offs| == |cells| && d[0] == TypeByte(k)
            && Header(k) + 2 * |cells| + Total(cells) <= PAGE_SIZE
    ensures d[Header(k)..Header(k) + 2 * |offs|] == Codes(offs)
    ensures CellsAt(d, cells, offs, PAGE_SIZE - Total(cells)) && Apart(cells, offs) && AllCells(k, cells)
  {
  }

  lemma Fold(d: Bytes, k: Kind, cells: seq<Bytes>, offs: seq<nat>, n: nat, first: nat)
    requires |d| == PAGE_SIZE && |offs| == |cells| == n && d[0] == TypeByte(k) && first + Total(cells) == PAGE_SIZE
             && Header(k) + 2 * n <= first
    requires d[1..3] == Digits(n, 2) && d[3..5] == Digits(first, 2) && d[Header(k)..Header(k) + 2 * n] == Codes(offs)
    requires CellsAt(d, cells, offs, first) && Apart(cells, offs) && AllCells(k, cells)
    ensures Slotted(d, k, cells, offs)
  {
    hide Total, Codes, CellsAt, Apart, AllCells, Digits;
  }

  lemma TotalAfter(cells: seq<Bytes>, offs: seq<nat>, i: nat, c: Bytes, f: nat)
    requires i <= |cells| == |offs|
    ensures Total(InsertAt(cells, i, c)) == Total(cells) + |c| && |InsertAt(cells, i, c)| == |cells| + 1
            && |InsertAt<nat>(offs, i, f)| == |offs| + 1
  {
    TotalInsert(cells, i, c);
  }

  lemma ArrayInsert(d: Bytes, k: Kind, offs: seq<nat>, i: nat, f: nat)
    requires i <= |offs| && |d| == PAGE_SIZE && Header(k) + 2 * |offs| <= PAGE_SIZE
             && d[Header(k)..Header(k) + 2 * |offs|] == Codes(offs)
    ensures var h, n := Header(k), |offs|;
      Codes(InsertAt<nat>(offs, i, f)) == d[h..h + 2 * i] + (Digits(f, 2) + d[h + 2 * i..h + 2 * n])
  {
    hide Codes, Digits, InsertAt;
    CodesInsert(offs, i, f);
    CodesAround(offs, i);
    SliceOfSlice(d, Header(k), Header(k) + 2 * |offs|, 2 * i);
  }

  lemma SliceOfSlice<T>(s: seq<T>, a: nat, b: nat, m: nat)
    requires a + m <= b <= |s|
    ensures s[a..b][..m] == s[a..a + m] && s[a..b][m..] == s[a + m..b]
  {
  }

  lemma CodesInsert(offs: seq<nat>, i: nat, x: nat)
    requires i <= |offs|
    ensures Codes(InsertAt<nat>(offs, i, x)) == Codes(offs[..i]) + (Digits(x, 2) + Codes(offs[i..]))
  {
    hide Codes;
    CodesAppend(offs[..i] + [x], offs[i..]);
    CodesAppend(offs[..i], [x]);
    CodesOne(x);
    Seqs.Assoc(Codes(offs[..i]), Digits(x, 2), Codes(offs[i..]));
  }

  lemma CellsInsert(d: Bytes, r: Bytes, cells: seq<Bytes>, offs: seq<nat>, first: nat, i: nat, c: Bytes)
    requires CellsAt(d, cells, offs, first) && i <= |cells| && |c| <= first <= |d| == |r| && r[first..] == d[first..]
             && r[first - |c|..first] == c
    ensures CellsAt(r, InsertAt(cells, i, c), InsertAt<nat>(offs, i, first - |c|), first - |c|)
  {
    forall j | 0 <= j < |cells| ensures r[offs[j]..offs[j] + |cells[j]|] == cells[j] {
      SameSlice(d, r, first, offs[j], offs[j] + |cells[j]|);
    }
    var cells', offs' := InsertAt(cells, i, c), InsertAt<nat>(offs, i, first - |c|);
    forall j | 0 <= j < |cells'|
      ensures first - |c| <= offs'[j] && offs'[j] + |cells'[j]| <= |r|
              && r[offs'[j]..offs'[j] + |cells'[j]|] == cells'[j]
    {
      if j < i {
        assert cells'[j] == cells[j] && offs'[j] == offs[j];
      } else if j > i {
        assert cells'[j] == cells[j - 1] && offs'[j] == offs[j - 1];
      }
    }
  }

  lemma SameSlice(d: Bytes, r: Bytes, first: nat, a: nat, b: nat)
    requires first <= a <= b <= |d| == |r| && r[first..] == d[first..]
    ensures r[a..b] == d[a..b]
  {
    forall x | a <= x < b ensures r[x] == d[x] {
      assert r[x] == r[first..][x - first] && d[x] == d[first..][x - first];
    }
  }

  lemma ApartInsert(d: Bytes, cells: seq<Bytes>, offs: seq<nat>, first: nat, i: nat, c: Bytes)
    requires CellsAt(d, cells, offs, first) && Apart(cells, offs) && i <= |cells| && |c| <= first
    ensures Apart(InsertAt(cells, i, c), InsertAt<nat>(offs, i, first - |c|))
  {
    var cells', offs' := InsertAt(cells, i, c), InsertAt<nat>(offs, i, first - |c|);
    forall x, y | 0 <= x < y < |cells'| ensures offs'[x] + |cells'[x]| <= offs'[y]
        || offs'[y] + |cells'[y]| <= offs'[x] {
      var x', y' := if x < i then x else x - 1, if y < i then y else y - 1;
      if x != i { assert cells'[x] == cells[x'] && offs'[x] == offs[x'] && first <= offs[x']; }
      if y != i { assert cells'[y] == cells[y'] && offs'[y] == offs[y'] && first <= offs[y']; }
    }
  }

  lemma CellsAll(k: Kind, cells: seq<Bytes>, i: nat, c: Bytes)
    requires i <= |cells| && IsCell(k, c) && AllCells(k, cells)
    ensures AllCells(k, InsertAt(cells, i, c))
  {
    hide IsCell;
  }

  /** An empty page. */
  method InitPage(d: array<byte>, k: Kind)
    requires d.Length == PAGE_SIZE
    modifies d
    ensures Slotted(d[..], k, [], [])
  {
    hide Splice, Digits;
    d[0] := TypeByte(k);
    ghost var d0 := d[..];
    PutUint(d, 1, 2, 0);
    ghost var d1 := d[..];
    PutUint(d, 3, 2, PAGE_SIZE);
    SpliceIn(d0, 1, Digits(0, 2));
    SpliceOut(d1, 3, Digits(PAGE_SIZE, 2), 1, 3);
    SpliceIn(d1, 3, Digits(PAGE_SIZE, 2));
    SpliceOut(d0, 1, Digits(0, 2), 0, 1);
    SpliceOut(d1, 3, Digits(PAGE_SIZE, 2), 0, 1);
    assert d[0] == d[..][0..1][0] && d0[0] == d0[0..1][0];
    NoCells(d[..], k);
  }

  lemma NoCells(d: Bytes, k: Kind)
    requires |d| == PAGE_SIZE && d[0] == TypeByte(k) && d[1..3] == Digits(0, 2) && d[3..5] == Digits(PAGE_SIZE, 2)
    ensures Slotted(d, k, [], [])
  {
    assert d[Header(k)..Header(k)] == [];
  }

  lemma Shifted(d: Bytes, pos: nat, b: Bytes, tail: Bytes)
    requires pos + |b| + |tail| <= |d|
    ensures Splice(Splice(d, pos + |b|, tail), pos, b) == Splice(d, pos, b + tail)
  {
  }

  /** copyCellAt and insertInternalCellAt; at the last slot, appendCell and its relatives. The caller must
      have checked that there is room. */
  method InsertCell(d: array<byte>, k: Kind, idx: nat, c: Bytes, ghost cells: seq<Bytes>, ghost offs: seq<nat>)
    returns (ghost offs': seq<nat>)
    requires Slotted(d[..], k, cells, offs) && idx <= |cells| && IsCell(k, c)
    requires PAGE_SIZE - Header(k) - Total(cells) - 2 * |cells| >= 2 + |c|
    modifies d
    ensures Slotted(d[..], k, InsertAt(cells, idx, c), offs') && d[5..Header(k)] == old(d[5..Header(k)])
  {
    hide Slotted, Splice, Digits, Value, Total, IsCell, InsertAt, Codes, CellsAt, Apart;
    ghost var d0 := d[..];
    Unfold(d0, k, cells, offs);
    SlottedBounds(d0, k, cells, offs);
    assert d[1..3] == d0[1..3] && d[3..5] == d0[3..5];
    var nCells, first := Value(d[1..3]), Value(d[3..5]);
    InsertedOk(d0, k, cells, offs, idx, c);
    var newCellPos: nat := first - |c|;
    Copy(d, newCellPos, c);
    ghost var d1 := d[..];
    var offsetPos := Header(k) + idx * 2;
    var tail := d[offsetPos..Header(k) + nCells * 2];
    if idx < nCells {
      Copy(d, offsetPos + 2, tail);
    } else {
      NoTail(d1, offsetPos + 2);
    }
    PutUint(d, offsetPos, 2, newCellPos);
    Shifted(d1, offsetPos, Digits(newCellPos, 2), tail);
    assert tail == d1[offsetPos..Header(k) + 2 * nCells];
    PutUint(d, 3, 2, newCellPos);
    PutUint(d, 1, 2, nCells + 1);
    offs' := InsertAt<nat>(offs, idx, newCellPos);
    assert d[..] == Inserted(d0, k, nCells, first, idx, c);
    assert d[5..Header(k)] == d[..][5..Header(k)];
  }

  lemma NoTail(d: Bytes, pos: nat)
    requires pos <= |d|
    ensures Splice(d, pos, []) == d
  {
  }

  // ---- copying ranges ----

  /** The page with its count and first offset written. */
  function Headed(d: Bytes, n: nat, first: nat): (r: Bytes)
    requires |d| == PAGE_SIZE
    ensures |r| == PAGE_SIZE
  {
    Splice(Splice(d, 3, Digits(first, 2)), 1, Digits(n, 2))
  }

  lemma HeadedPast(d: Bytes, n: nat, first: nat, off: nat, b: Bytes)
    requires |d| == PAGE_SIZE && 5 <= off && off + |b| <= PAGE_SIZE
    ensures Splice(Headed(d, n, first), off, b) == Headed(Splice(d, off, b), n, first)
  {
    hide Splice, Digits;
    SpliceSwap(Splice(d, 3, Digits(first, 2)), 1, Digits(n, 2), off, b);
    SpliceSwap(d, 3, Digits(first, 2), off, b);
  }

  lemma HeadedAgain(d: Bytes, n: nat, first: nat, n': nat, first': nat)
    requires |d| == PAGE_SIZE
    ensures Headed(Headed(d, n, first), n', first') == Headed(d, n', first')
  {
    hide Splice, Digits;
    var d3 := Splice(d, 3, Digits(first, 2));
    SpliceSwap(d3, 1, Digits(n, 2), 3, Digits(first', 2));
    SpliceAgain(d, 3, Digits(first, 2), Digits(first', 2));
    SpliceAgain(Splice(d, 3, Digits(first', 2)), 1, Digits(n, 2), Digits(n', 2));
  }

  /** A page already carries its own count and first offset. */
  lemma HeadedSelf(d: Bytes, k: Kind, cells: seq<Bytes>, offs: seq<nat>)
    requires Slotted(d, k, cells, offs)
    ensures Total(cells) <= PAGE_SIZE && |d| == PAGE_SIZE && Headed(d, |cells|, PAGE_SIZE - Total(cells)) == d
  {
    hide Slotted, Total, Digits, Splice;
    HeaderBytes(d, k, cells, offs);
    Rewrite(d, 3, 5);
    Rewrite(d, 1, 3);
  }

  lemma HeaderBytes(d: Bytes, k: Kind, cells: seq<Bytes>, offs: seq<nat>)
    requires Slotted(d, k, cells, offs)
    ensures |d| == PAGE_SIZE && Total(cells) <= PAGE_SIZE && d[1..3] == Digits(|cells|, 2)
            && d[3..5] == Digits(PAGE_SIZE - Total(cells), 2)
  {
    hide Total, Codes, CellsAt, Apart, AllCells, Digits;
  }

  lemma Rewrite(d: Bytes, a: nat, b: nat)
    requires a <= b <= |d|
    ensures Splice(d, a, d[a..b]) == d
  {
  }

  /** Adding a cell before the header is brought up to date, and bringing it up to date afterwards. */
  lemma AppendedLate(d: Bytes, k: Kind, n: nat, first: nat, c: Bytes)
    requires |d| == PAGE_SIZE && |c| <= first <= PAGE_SIZE && Header(k) + 2 * n + 2 <= first - |c|
    ensures var f: nat := first - |c|;
      Headed(Splice(Splice(d, f, c), Header(k) + 2 * n, Digits(f, 2)), n + 1, f) ==
          Inserted(Headed(d, n, first), k, n, first, n, c)
  {
    hide Splice, Digits, Headed;
    var f: nat, pos := first - |c|, Header(k) + 2 * n;
    var p := Headed(d, n, first);
    HeadedPast(d, n, first, f, c);
    HeadedPast(Splice(d, f, c), n, first, pos, Digits(f, 2));
    HeadedAgain(Splice(Splice(d, f, c), pos, Digits(f, 2)), n, first, n + 1, f);
    var d1 := Splice(p, f, c);
    NoMore(d1, pos, Digits(f, 2));
    HeadedIs(Splice(d1, pos, Digits(f, 2)), n + 1, f);
  }

  lemma NoMore(d: Bytes, pos: nat, b: Bytes)
    requires pos <= |d|
    ensures b + d[pos..pos] == b
  {
  }

  lemma HeadedIs(d: Bytes, n: nat, first: nat)
    requires |d| == PAGE_SIZE
    ensures Headed(d, n, first) == Splice(Splice(d, 3, Digits(first, 2)), 1, Digits(n, 2))
    ensures Headed(d, n, first) == Splice(Splice(d, 1, Digits(n, 2)), 3, Digits(first, 2))
  {
    hide Splice, Digits;
    SpliceSwap(d, 1, Digits(n, 2), 3, Digits(first, 2));
  }

  /** copyRange: count and first offset are kept in variables and written once at the end. It has no test
      for room; with room, it appends the range. */
  method CopyRange(dst: array<byte>, src: array<byte>, k: Kind, start: nat, count: nat,
                   ghost cells: seq<Bytes>, ghost offs: seq<nat>, ghost from: seq<Bytes>, ghost fromOffs: seq<nat>)
    returns (ghost offs': seq<nat>)
    requires dst != src && Slotted(dst[..], k, cells, offs) && Slotted(src[..], k, from, fromOffs)
             && start + count <= |from|
    requires Header(k) + 2 * (|cells| + count) + Total(cells) + Total(from[start..start + count]) <= PAGE_SIZE
    modifies dst
    ensures Slotted(dst[..], k, cells + from[start..start + count], offs')
            && dst[5..Header(k)] == old(dst[5..Header(k)])
  {
    hide Slotted, Splice, Digits, Value, Total, IsCell, Headed, InsertAt, Codes, CellsAt, Apart, AllCells;
    ghost var d0 := dst[..];
    Unfold(d0, k, cells, offs);
    SlottedBounds(d0, k, cells, offs);
    assert dst[1..3] == d0[1..3] && dst[3..5] == d0[3..5];
    var dstN: nat, dstFirst: nat := Value(dst[1..3]), Value(dst[3..5]);
    HeadedSelf(d0, k, cells, offs);
    offs' := offs;
    Seqs.Empty(cells);
    assert from[start..start + 0] == [];
    for i := 0 to count
      invariant |dst[..]| == PAGE_SIZE && dstFirst <= PAGE_SIZE
      invariant Slotted(Headed(dst[..], dstN, dstFirst), k, cells + from[start..start + i], offs')
      invariant dstN == |cells| + i && dstFirst == PAGE_SIZE - Total(cells + from[start..start + i])
      invariant Headed(dst[..], dstN, dstFirst)[5..Header(k)] == d0[5..Header(k)]
    {
      ghost var sofar := cells + from[start..start + i];
      var cell := ReadCell(src, k, start + i, from, fromOffs);
      RoomFor(cells, from, start, count, i);
      CellOk(src[..], k, from, fromOffs, start + i);
      var newCellPos: nat := dstFirst - |cell|;
      CopyStep(dst[..], k, dstN, dstFirst, sofar, offs', cell);
      AtEnd(cells, from, start, i);
      Copy(dst, newCellPos, cell);
      PutUint(dst, Header(k) + dstN * 2, 2, newCellPos);
      offs' := InsertAt<nat>(offs', dstN, newCellPos);
      dstFirst, dstN := newCellPos, dstN + 1;
    }
    ghost var d := dst[..];
    PutUint(dst, 1, 2, dstN);
    PutUint(dst, 3, 2, dstFirst);
    HeadedIs(d, dstN, dstFirst);
    assert dst[5..Header(k)] == dst[..][5..Header(k)];
  }

  /** One cell of a range, with the header still out of date. */
  lemma CopyStep(d: Bytes, k: Kind, n: nat, first: nat, cells: seq<Bytes>, offs: seq<nat>, c: Bytes)
    requires |d| == PAGE_SIZE && Slotted(Headed(d, n, first), k, cells, offs) && n == |cells|
             && first == PAGE_SIZE - Total(cells) && IsCell(k, c)
    requires Header(k) + 2 * n + 2 + Total(cells) + |c| <= PAGE_SIZE
    ensures |offs| == n
    ensures var f: nat := first - |c|;
      var r := Headed(Splice(Splice(d, f, c), Header(k) + 2 * n, Digits(f, 2)), n + 1, f);
      Slotted(r, k, InsertAt(cells, n, c), InsertAt<nat>(offs, n, f))
          && r[5..Header(k)] == Headed(d, n, first)[5..Header(k)]
  {
    hide Slotted, Splice, Digits, Total, IsCell, Headed, InsertAt, Inserted;
    Unfold(Headed(d, n, first), k, cells, offs);
    AppendedLate(d, k, n, first, c);
    InsertedOk(Headed(d, n, first), k, cells, offs, n, c);
  }

  lemma RoomFor(cells: seq<Bytes>, from: seq<Bytes>, start: nat, count: nat, i: nat)
    requires i < count && start + count <= |from|
    ensures Total(cells + from[start..start + i]) + |from[start + i]| <= Total(cells)
            + Total(from[start..start + count])
    ensures Total(cells + from[start..start + i + 1]) == Total(cells + from[start..start + i]) + |from[start + i]|
  {
    hide Total;
    TotalAppend(cells, from[start..start + i]);
    TotalAppend(cells, from[start..start + i + 1]);
    TotalAppend(from[start..start + i], [from[start + i]]);
    TotalOne(from[start + i]);
    assert from[start..start + i + 1] == from[start..start + i] + [from[start + i]];
    TotalAppend(from[start..start + i + 1], from[start + i + 1..start + count]);
    TwoSlices(from, start, start + i + 1, start + count);
  }

  lemma CellOk(d: Bytes, k: Kind, cells: seq<Bytes>, offs: seq<nat>, i: nat)
    requires Slotted(d, k, cells, offs) && i < |cells|
    ensures IsCell(k, cells[i])
  {
    hide Total, Codes, CellsAt, Apart, IsCell, Digits;
  }

  lemma AtEnd(cells: seq<Bytes>, from: seq<Bytes>, start: nat, i: nat)
    requires start + i < |from|
    ensures InsertAt(cells + from[start..start + i], |cells| + i, from[start + i]) == cells + from[start..start + i + 1]
  {
  }

  /** copyWithoutCell, for a fresh page. */
  method CopyWithout(dst: array<byte>, src: array<byte>, k: Kind, idx: nat, ghost from: seq<Bytes>,
                     ghost fromOffs: seq<nat>)
    returns (ghost offs': seq<nat>)
    requires dst != src && Slotted(dst[..], k, [], []) && Slotted(src[..], k, from, fromOffs) && idx < |from|
    modifies dst
    ensures Slotted(dst[..], k, from[..idx] + from[idx + 1..], offs')
    ensures k == InternalKind ==> dst[5..13] == src[5..13]
  {
    hide Slotted, Splice, Digits, Value, Total, Header;
    Unfold(src[..], k, from, fromOffs);
    Remaining(from, idx, k);
    var nCells := Count(src, k, from, fromOffs);
    offs' := CopyRange(dst, src, k, 0, idx, [], [], from, fromOffs);
    Seqs.Empty(from[..idx]);
    offs' := CopyRange(dst, src, k, idx + 1, nCells - idx - 1, from[..idx], offs', from, fromOffs);
    if k == InternalKind {
      ghost var d := dst[..];
      HeaderBytes(d, k, from[..idx] + from[idx + 1..], offs');
      Copy(dst, 5, src[5..13]);
      RightmostOnly(d, dst[..], from[..idx] + from[idx + 1..], offs', src[5..13]);
    }
  }

  method Count(d: array<byte>, k: Kind, ghost cells: seq<Bytes>, ghost offs: seq<nat>) returns (n: nat)
    requires Slotted(d[..], k, cells, offs)
    ensures n == |cells|
  {
    hide Slotted, Value;
    SlottedBounds(d[..], k, cells, offs);
    Unfold(d[..], k, cells, offs);
    assert d[1..3] == d[..][1..3];
    n := Value(d[1..3]);
  }

  lemma Remaining(from: seq<Bytes>, i: nat, k: Kind)
    requires i < |from|
    ensures Total([]) == 0 && from[0..0 + i] == from[..i] && from[i + 1..i + 1 + (|from| - i - 1)] == from[i + 1..]
    ensures Total(from) == Total(from[..i]) + |from[i]| + Total(from[i + 1..])
  {
    hide Total;
    Seqs.Around(from, i);
    TotalAppend(from[..i] + [from[i]], from[i + 1..]);
    TotalAppend(from[..i], [from[i]]);
    TotalOne(from[i]);
    NoTotal();
  }

  lemma NoTotal()
    ensures Total([]) == 0
  {
  }

  /** Writing the rightmost child of an internal page leaves its cells alone. */
  lemma RightmostOnly(d: Bytes, r: Bytes, cells: seq<Bytes>, offs: seq<nat>, child: Bytes)
    requires Slotted(d, InternalKind, cells, offs) && |child| == 8 && r == Splice(d, 5, child)
    ensures Slotted(r, InternalKind, cells, offs) && r[5..13] == child
  {
    hide Splice, Total, Codes, Digits, Apart, AllCells;
    SpliceIn(d, 5, child);
    SpliceOut(d, 5, child, 0, 1);
    SpliceOut(d, 5, child, 1, 3);
    SpliceOut(d, 5, child, 3, 5);
    SpliceOut(d, 5, child, 13, 13 + 2 * |cells|);
    assert r[0] == r[0..1][0] && d[0] == d[0..1][0];
    forall i | 0 <= i < |cells| ensures r[offs[i]..offs[i] + |cells[i]|] == cells[i] {
      SpliceOut(d, 5, child, offs[i], offs[i] + |cells[i]|);
    }
  }

  // ---- a page determines its cells ----

  lemma {:induction false} CodesInjective(a: seq<nat>, b: seq<nat>)
    requires Codes(a) == Codes(b)
    requires (forall i :: 0 <= i < |a| ==> a[i] < 0x1_0000) && (forall i :: 0 <= i < |b| ==> b[i] < 0x1_0000)
    ensures a == b
  {
    hide Codes, Digits, Value;
    assert |Codes(a)| == 2 * |a| && |Codes(b)| == 2 * |b|;
    forall i | 0 <= i < |a| ensures a[i] == b[i] {
      CodesAt(a, i);
      CodesAt(b, i);
      Fits(a[i]);
      Fits(b[i]);
    }
  }

  lemma CellAgrees(d: Bytes, k: Kind, pos: nat, a: Bytes, b: Bytes)
    requires IsCell(k, a) && IsCell(k, b) && pos + |a| <= |d| && pos + |b| <= |d|
    requires d[pos..pos + |a|] == a && d[pos..pos + |b|] == b
    ensures a == b
  {
    hide Value;
    if k == LeafKind {
      Inside(d, pos, a, 0, 2);
      Inside(d, pos, a, 2, 4);
      Inside(d, pos, a, 4, 5);
      Inside(d, pos, b, 0, 2);
      Inside(d, pos, b, 2, 4);
      Inside(d, pos, b, 4, 5);
      assert a[4] == a[4..5][0] && b[4] == b[4..5][0];
    } else {
      Inside(d, pos, a, 8, 10);
      Inside(d, pos, b, 8, 10);
    }
  }

  /** The bytes of a page allow one list of cells only. */
  lemma Determined(d: Bytes, k: Kind, cells: seq<Bytes>, offs: seq<nat>, cells': seq<Bytes>, offs': seq<nat>)
    requires Slotted(d, k, cells, offs) && Slotted(d, k, cells', offs')
    ensures cells == cells' && offs == offs'
  {
    hide Codes, Digits, Value, Total, Slotted, IsCell, Apart;
    SlottedBounds(d, k, cells, offs);
    SlottedBounds(d, k, cells', offs');
    Unfold(d, k, cells, offs);
    Unfold(d, k, cells', offs');
    CodesInjective(offs, offs');
    forall i | 0 <= i < |cells| ensures cells[i] == cells'[i] {
      CellAgrees(d, k, offs[i], cells[i], cells'[i]);
    }
  }
}
