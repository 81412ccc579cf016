/** Cells, freelist pages and metas as bytes: what is written is what is read back. */
module Codecs {
  import opened Keys
  import opened Layout
  import opened Values
  import opened Pages
  import opened Encoding
  import opened SlottedPages
  import opened PageSearch
  import LeafUpdate
  import Overflow
  import Arith
  import opened Placed
  import FreelistChain
  import Protocol
  import Seqs

  // ---- fields: little-endian integers one after the other ----

  datatype Field = Field(width: nat, value: nat)

  function Pack(fs: seq<Field>): Bytes {
    if fs == [] then [] else Digits(fs[0].value, fs[0].width) + Pack(fs[1..])
  }

  function Width(fs: seq<Field>): nat {
    if fs == [] then 0 else fs[0].width + Width(fs[1..])
  }

  lemma {:induction false} PackWidth(fs: seq<Field>)
    ensures |Pack(fs)| == Width(fs)
  {
    if fs != [] { PackWidth(fs[1..]); }
  }

  lemma {:induction false} PackAppend(a: seq<Field>, b: seq<Field>)
    ensures Pack(a + b) == Pack(a) + Pack(b) && Width(a + b) == Width(a) + Width(b)
  {
    hide Digits;
    if a == [] {
      assert a + b == b;
    } else {
      PackAppend(a[1..], b);
      assert (a + b)[1..] == a[1..] + b;
      PackCons(a);
      PackCons(a + b);
      hide Pack;
      Seqs.Assoc(Digits(a[0].value, a[0].width), Pack(a[1..]), Pack(b));
    }
  }

  lemma PackCons(a: seq<Field>)
    requires a != []
    ensures Pack(a) == Digits(a[0].value, a[0].width) + Pack(a[1..])
  {
  }

  lemma PackOne(f: Field)
    ensures Pack([f]) == Digits(f.value, f.width) && Width([f]) == f.width
  {
    assert [f][1..] == [];
  }

  /** Field i can be read at the place its predecessors leave for it. */
  lemma FieldAt(fs: seq<Field>, i: nat)
    requires i < |fs| && fs[i].value < Pow(fs[i].width)
    ensures var o := Width(fs[..i]);
      o + fs[i].width <= |Pack(fs)| && Value(Pack(fs)[o..o + fs[i].width]) == fs[i].value
  {
    hide Pack, Width, Value, Digits, Pow;
    Seqs.Around(fs, i);
    PackAppend(fs[..i] + [fs[i]], fs[i + 1..]);
    PackAppend(fs[..i], [fs[i]]);
    PackOne(fs[i]);
    PackWidth(fs[..i]);
    MiddleOf(Pack(fs[..i]), Digits(fs[i].value, fs[i].width), Pack(fs[i + 1..]));
    ValueOfDigits(fs[i].value, fs[i].width);
  }

  lemma MiddleOf<T>(a: seq<T>, b: seq<T>, c: seq<T>)
    ensures (a + b + c)[|a|..|a| + |b|] == b
  {
  }

  lemma SpliceNext(d: Bytes, off: nat, a: Bytes, b: Bytes)
    requires off + |a| + |b| <= |d|
    ensures Splice(Splice(d, off, a), off + |a|, b) == Splice(d, off, a + b)
  {
  }

  /** A run of PutUint calls. */
  method PutFields(buf: array<byte>, off: nat, fs: seq<Field>)
    requires off + Width(fs) <= buf.Length
    modifies buf
    ensures |Pack(fs)| == Width(fs) && buf[..] == Splice(old(buf[..]), off, Pack(fs))
  {
    hide Splice, Pack, Width, Digits;
    PackWidth(fs);
    ghost var d0 := buf[..];
    var pos := off;
    NoFields(d0, off);
    for i := 0 to |fs|
      invariant pos == off + Width(fs[..i]) && |Pack(fs[..i])| == Width(fs[..i]) && pos <= buf.Length
      invariant buf[..] == Splice(d0, off, Pack(fs[..i]))
    {
      TakeField(fs, i);
      PackWidth(fs[..i + 1]);
      SpliceNext(d0, off, Pack(fs[..i]), Digits(fs[i].value, fs[i].width));
      PutUint(buf, pos, fs[i].width, fs[i].value);
      pos := pos + fs[i].width;
    }
    Seqs.TakeAll(fs);
  }

  lemma NoFields(d: Bytes, off: nat)
    requires off <= |d|
    ensures forall fs: seq<Field> :: Pack(fs[..0]) == [] && Width(fs[..0]) == 0
    ensures Splice(d, off, []) == d
  {
  }

  lemma TakeField(fs: seq<Field>, i: nat)
    requires i < |fs|
    ensures Pack(fs[..i + 1]) == Pack(fs[..i]) + Digits(fs[i].value, fs[i].width)
            && Width(fs[..i + 1]) == Width(fs[..i]) + fs[i].width
    ensures Width(fs[..i + 1]) <= Width(fs)
  {
    hide Pack, Width, Digits;
    Seqs.TakeNext(fs, i);
    PackAppend(fs[..i], [fs[i]]);
    PackOne(fs[i]);
    Seqs.Parts(fs, i + 1);
    PackAppend(fs[..i + 1], fs[i + 1..]);
  }

  // ---- leaf cells ----

  /** A leaf cell: key length, value length, overflow flag, key, and the value or its first page. */
  function EncodeLeaf(c: LeafCell): Bytes {
    match c
    case Inlined(key, value) => Digits(|key|, 2) + Digits(|value|, 2) + [0] + key + value
    case Spilled(key, vallen, first) => Digits(|key|, 2) + Digits(vallen, 2) + [1] + key + Digits(first, 8)
  }

  function DecodeLeaf(b: Bytes): LeafCell
    requires |b| >= LEAF_CELL_HEADER && CellLen(LeafKind, b) == |b|
  {
    var keylen, vallen := Value(b[0..2]), Value(b[2..4]);
    var key := b[LEAF_CELL_HEADER..LEAF_CELL_HEADER + keylen];
    if b[4] == 1 then Spilled(key, vallen, Value(b[LEAF_CELL_HEADER + keylen..]))
        else Inlined(key, b[LEAF_CELL_HEADER + keylen..])
  }

  /** The lengths and the page id fit their fields. */
  predicate Encodable(c: LeafCell) {
    |c.key| < 0x1_0000 && (if c.Inlined? then |c.value| < 0x1_0000
                           else c.vallen < 0x1_0000 && c.first < 0x1_0000_0000_0000_0000)
  }

  lemma Pieces(a: Bytes, b: Bytes, x: byte, k: Bytes, v: Bytes)
    requires |a| == 2 && |b| == 2
    ensures var r := a + b + [x] + k + v;
      r[0..2] == a && r[2..4] == b && r[4] == x && r[5..5 + |k|] == k && r[5 + |k|..] == v && |r| == 5 + |k| + |v|
  {
  }

  /** A leaf cell reads back as it was written, and says its own length, which is the length that the size
      arithmetic uses. */
  lemma LeafRoundTrip(c: LeafCell)
    requires Encodable(c)
    ensures |EncodeLeaf(c)| == CellSize(c) && IsCell(LeafKind, EncodeLeaf(c)) && DecodeLeaf(EncodeLeaf(c)) == c
  {
    hide Digits, Value;
    Fits(|c.key|);
    Widths();
    match c
    case Inlined(key, value) =>
      Fits(|value|);
      Pieces(Digits(|key|, 2), Digits(|value|, 2), 0, key, value);
    case Spilled(key, vallen, first) =>
      Fits(vallen);
      ValueOfDigits(first, 8);
      Pieces(Digits(|key|, 2), Digits(vallen, 2), 1, key, Digits(first, 8));
  }

  lemma TwoDigits(n: nat)
    ensures Digits(n, 2) == [n % 256, n / 256 % 256]
  {
    assert Digits(n, 2) == [n % 256] + Digits(n / 256, 1);
  }

  /** Where the bytes of a leaf cell are: both lengths low byte first, the flag, the key, and then the value or the
      eight bytes of a page id. */
  lemma LeafCellLayout(c: LeafCell)
    requires Encodable(c)
    ensures var b, k := EncodeLeaf(c), |c.key|;
      && |b| == 5 + k + (if c.Inlined? then |c.value| else 8)
      && b[0] == k % 256 && b[1] == k / 256
      && b[2] == (if c.Inlined? then |c.value| else c.vallen) % 256
      && b[3] == (if c.Inlined? then |c.value| else c.vallen) / 256
      && b[4] == (if c.Inlined? then 0 else 1) && b[5..5 + k] == c.key
      && (c.Inlined? ==> b[5 + k..] == c.value)
      && (c.Spilled? ==> forall i :: 0 <= i < 8 ==> b[5 + k + i] == c.first / Pow(i) % 256)
  {
    hide Digits, Pow;
    match c
    case Inlined(key, value) => CellHead(key, |value|, 0, value);
    case Spilled(key, vallen, first) =>
      CellHead(key, vallen, 1, Digits(first, 8));
      var b, k := EncodeLeaf(c), |key|;
      forall i | 0 <= i < 8 ensures b[5 + k + i] == first / Pow(i) % 256 {
        DigitAt(first, 8, i);
        assert b[5 + k..][i] == b[5 + k + i];
      }
  }

  lemma CellHead(key: Key, v: nat, flag: byte, tail: Bytes)
    requires |key| < 0x1_0000 && v < 0x1_0000
    ensures var b := Digits(|key|, 2) + Digits(v, 2) + [flag] + key + tail;
      && |b| == 5 + |key| + |tail| && b[0] == |key| % 256 && b[1] == |key| / 256 && b[2] == v % 256 && b[3] == v / 256
      && b[4] == flag && b[5..5 + |key|] == key && b[5 + |key|..] == tail
  {
    TwoDigits(|key|);
    TwoDigits(v);
    hide Digits;
    Pieces(Digits(|key|, 2), Digits(v, 2), flag, key, tail);
    var b := Digits(|key|, 2) + Digits(v, 2) + [flag] + key + tail;
    assert b[0] == b[0..2][0] && b[1] == b[0..2][1] && b[2] == b[2..4][0] && b[3] == b[2..4][1];
  }

  /** A field keeps the low bytes of what is written to it. */
  lemma {:induction false} FieldKeeps(n: nat, k: nat)
    ensures Value(Digits(n, k)) == n % Pow(k)
    decreases k
  {
    if k > 0 {
      FieldKeeps(n / 256, k - 1);
      assert Digits(n, k)[1..] == Digits(n / 256, k - 1);
      LowBytes(n, Pow(k - 1));
    }
  }

  /** Writing a length to its two bytes keeps its low 16 bits. */
  lemma LowDigits(n: nat)
    ensures Digits(n, 2) == Digits(n % 0x1_0000, 2)
  {
    hide Pow, Value;
    Widths();
    FieldKeeps(n, 2);
    DigitsOfValue(Digits(n, 2));
  }

  lemma LowBytes(n: nat, p: nat)
    requires p > 0
    ensures n % 256 + 256 * ((n / 256) % p) == n % (256 * p)
  {
    var q, r := n / 256, n % 256;
    var a, b := q / p, q % p;
    assert n == 256 * (a * p + b) + r;
    assert 256 * (a * p) == a * (256 * p);
    assert n == a * (256 * p) + (256 * b + r);
    Arith.Division(a, 256 * b + r, 256 * p);
  }

  /** leafValue on the bytes of a cell whose value is on a chain: the length field has 16 bits, so what is read
      is the value if and only if it has at most 65535 bytes, and otherwise a shorter piece of it. */
  method ReadStored(store: Store, b: Bytes, key: Key, ghost value: Bytes, ghost chain: seq<PageId>) returns (r: Bytes)
    requires |key| < 0x1_0000 && chain != [] && chain[0] < Protocol.WORD && ChainStored(store, chain, value)
    requires b == EncodeLeaf(LeafUpdate.NewCell(key, value, chain[0]))
    ensures r == AsRead(value)
    ensures r == value <==> |value| <= 65535
  {
    hide Digits, Value, Pow;
    var n := |value| % 0x1_0000;
    Pieces(Digits(|key|, 2), Digits(n, 2), 1, key, Digits(chain[0], 8));
    Fits(|key|);
    Fits(n);
    Widths();
    ReadsBack(value);
    ValueOfDigits(chain[0], 8);
    var keylen, vallen := Value(b[0..2]), Value(b[2..4]);
    var first := Value(b[LEAF_CELL_HEADER + keylen..]);
    r := Overflow.ReadOverflowPages(store, first, vallen, chain, value);
  }

  /** encodeLeafCell: the flag follows the overflow id. */
  method EncodeLeafCell(buf: array<byte>, off: nat, key: Key, value: Bytes, overflowID: PageId)
    requires off + CellSize(LeafUpdate.NewCell(key, value, overflowID)) <= buf.Length
    modifies buf
    ensures |EncodeLeaf(LeafUpdate.NewCell(key, value, overflowID))| ==
            CellSize(LeafUpdate.NewCell(key, value, overflowID))
    ensures buf[..] == Splice(old(buf[..]), off, EncodeLeaf(LeafUpdate.NewCell(key, value, overflowID)))
  {
    hide Splice, Digits;
    ghost var d := buf[..];
    PutUint(buf, off, 2, |key|);
    PutUint(buf, off + 2, 2, |value|);
    ghost var head := Digits(|key|, 2) + Digits(|value|, 2);
    SpliceNext(d, off, Digits(|key|, 2), Digits(|value|, 2));
    LowDigits(|value|);
    if overflowID == 0 {
      Copy(buf, off + 4, [0]);
      SpliceNext(d, off, head, [0]);
      Copy(buf, off + LEAF_CELL_HEADER, key);
      SpliceNext(d, off, head + [0], key);
      Copy(buf, off + LEAF_CELL_HEADER + |key|, value);
      SpliceNext(d, off, head + [0] + key, value);
      return;
    }
    Copy(buf, off + 4, [1]);
    SpliceNext(d, off, head, [1]);
    Copy(buf, off + LEAF_CELL_HEADER, key);
    SpliceNext(d, off, head + [1], key);
    PutUint(buf, off + LEAF_CELL_HEADER + |key|, 8, overflowID);
    SpliceNext(d, off, head + [1] + key, Digits(overflowID, 8));
  }

  // ---- internal cells ----

  function EncodeInternal(child: PageId, key: Key): Bytes { Digits(child, 8) + Digits(|key|, 2) + key }

  lemma InternalRoundTrip(child: PageId, key: Key)
    requires child < 0x1_0000_0000_0000_0000 && |key| < 0x1_0000
    ensures var b := EncodeInternal(child, key);
      && |b| == InternalCellSize(key) && IsCell(InternalKind, b)
      && Value(b[0..8]) == child && b[INTERNAL_CELL_HEADER..] == key
  {
    hide Digits, Value;
    Fits(|key|);
    Widths();
    ValueOfDigits(child, 8);
    var b := EncodeInternal(child, key);
    assert b[0..8] == Digits(child, 8) && b[8..10] == Digits(|key|, 2);
  }

  /** Where the bytes of an internal cell are: the child's eight bytes, the key's length, the key. */
  lemma InternalCellLayout(child: PageId, key: Key)
    requires |key| < 0x1_0000
    ensures var b := EncodeInternal(child, key);
      && |b| == 10 + |key| && b[8] == |key| % 256 && b[9] == |key| / 256 && b[10..] == key
      && forall i :: 0 <= i < 8 ==> b[i] == child / Pow(i) % 256
  {
    TwoDigits(|key|);
    hide Digits, Pow;
    var b := EncodeInternal(child, key);
    assert b[8] == Digits(|key|, 2)[0] && b[9] == Digits(|key|, 2)[1];
    forall i | 0 <= i < 8 ensures b[i] == child / Pow(i) % 256 { DigitAt(child, 8, i); }
  }

  // ---- whole pages ----

  function EncodeLeaves(cells: seq<LeafCell>): (bs: seq<Bytes>)
    ensures |bs| == |cells| && forall i :: 0 <= i < |cells| ==> bs[i] == EncodeLeaf(cells[i])
  {
    seq(|cells|, i requires 0 <= i < |cells| => EncodeLeaf(cells[i]))
  }

  /** The bytes hold this leaf page. */
  ghost predicate HoldsLeaf(d: Bytes, cells: seq<LeafCell>, offs: seq<nat>) {
    (forall i :: 0 <= i < |cells| ==> Encodable(cells[i])) && Slotted(d, LeafKind, EncodeLeaves(cells), offs)
  }

  lemma {:induction false} LeafTotals(cells: seq<LeafCell>)
    requires forall i :: 0 <= i < |cells| ==> Encodable(cells[i])
    ensures Total(EncodeLeaves(cells)) + 2 * |cells| == Sum(CellCosts(cells))
  {
    hide Encodable, EncodeLeaf, CellSize;
    if cells == [] {
      assert EncodeLeaves(cells) == [] && CellCosts(cells) == [];
    } else {
      LeafTotals(cells[1..]);
      LeafRoundTrip(cells[0]);
      assert EncodeLeaves(cells)[1..] == EncodeLeaves(cells[1..]);
      assert CellCosts(cells)[1..] == CellCosts(cells[1..]);
    }
  }

  /** The free space of a leaf's bytes is what the size arithmetic on its cells says. */
  lemma LeafFreeSpace(d: Bytes, cells: seq<LeafCell>, offs: seq<nat>)
    requires HoldsLeaf(d, cells, offs)
    ensures PAGE_SIZE - Header(LeafKind) - Total(EncodeLeaves(cells)) - 2 * |cells| == PAGE_SIZE - CellsUsed(cells)
    ensures CellsUsed(cells) <= PAGE_SIZE
  {
    LeafTotals(cells);
    hide Sum, Total, Codes, CellsAt, Apart, AllCells, EncodeLeaf, Digits;
  }

  /** Bytes hold one leaf only. */
  lemma LeafDetermined(d: Bytes, cells: seq<LeafCell>, offs: seq<nat>, cells': seq<LeafCell>, offs': seq<nat>)
    requires HoldsLeaf(d, cells, offs) && HoldsLeaf(d, cells', offs')
    ensures cells == cells'
  {
    hide EncodeLeaf, Encodable, Slotted;
    Determined(d, LeafKind, EncodeLeaves(cells), offs, EncodeLeaves(cells'), offs');
    forall i | 0 <= i < |cells| ensures cells[i] == cells'[i] {
      LeafRoundTrip(cells[i]);
      LeafRoundTrip(cells'[i]);
      assert EncodeLeaves(cells)[i] == EncodeLeaves(cells')[i];
    }
  }

  // ---- internal pages ----

  /** Cell i names the child left of separator i; the last child is in the header. */
  function EncodeInternals(keys: seq<Key>, kids: seq<PageId>): (bs: seq<Bytes>)
    requires |kids| == |keys| + 1
    ensures |bs| == |keys| && forall i :: 0 <= i < |keys| ==> bs[i] == EncodeInternal(kids[i], keys[i])
  {
    seq(|keys|, i requires 0 <= i < |keys| => EncodeInternal(kids[i], keys[i]))
  }

  /** The keys and page ids fit their fields. */
  predicate NodeEncodable(keys: seq<Key>, kids: seq<PageId>) {
    && |kids| == |keys| + 1
    && (forall i :: 0 <= i < |keys| ==> |keys[i]| < 0x1_0000)
    && (forall i :: 0 <= i < |kids| ==> kids[i] < 0x1_0000_0000_0000_0000)
  }

  /** The bytes hold this internal page, its rightmost child in bytes 5 to 12. */
  ghost predicate HoldsInternal(d: Bytes, keys: seq<Key>, kids: seq<PageId>, offs: seq<nat>) {
    && NodeEncodable(keys, kids) && Slotted(d, InternalKind, EncodeInternals(keys, kids), offs)
    && d[5..13] == Digits(kids[|keys|], 8)
  }

  lemma {:induction false} InternalTotals(keys: seq<Key>, kids: seq<PageId>)
    requires NodeEncodable(keys, kids)
    ensures Total(EncodeInternals(keys, kids)) + 2 * |keys| == Sum(SepCosts(keys))
    decreases |keys|
  {
    hide EncodeInternal;
    if keys == [] {
      assert EncodeInternals(keys, kids) == [] && SepCosts(keys) == [];
    } else {
      InternalTotals(keys[1..], kids[1..]);
      InternalRoundTrip(kids[0], keys[0]);
      assert EncodeInternals(keys, kids)[1..] == EncodeInternals(keys[1..], kids[1..]);
      assert SepCosts(keys)[1..] == SepCosts(keys[1..]);
    }
  }

  /** The free space of an internal page's bytes is what the size arithmetic on its separators says. */
  lemma InternalFreeSpace(d: Bytes, keys: seq<Key>, kids: seq<PageId>, offs: seq<nat>)
    requires HoldsInternal(d, keys, kids, offs)
    ensures PAGE_SIZE - Header(InternalKind) - Total(EncodeInternals(keys, kids)) - 2 * |keys| ==
            PAGE_SIZE - NodeUsed(keys)
    ensures NodeUsed(keys) <= PAGE_SIZE
  {
    InternalTotals(keys, kids);
    hide Sum, Total, Codes, CellsAt, Apart, AllCells, EncodeInternal, Digits;
  }

  /** Bytes hold one internal page only. */
  lemma InternalDetermined(d: Bytes, keys: seq<Key>, kids: seq<PageId>, offs: seq<nat>, keys': seq<Key>,
                           kids': seq<PageId>, offs': seq<nat>)
    requires HoldsInternal(d, keys, kids, offs) && HoldsInternal(d, keys', kids', offs')
    ensures keys == keys' && kids == kids'
  {
    hide EncodeInternal, Slotted, Digits, Value, Pow;
    Determined(d, InternalKind, EncodeInternals(keys, kids), offs, EncodeInternals(keys', kids'), offs');
    forall i | 0 <= i < |keys| ensures keys[i] == keys'[i] && kids[i] == kids'[i] {
      InternalRoundTrip(kids[i], keys[i]);
      InternalRoundTrip(kids'[i], keys'[i]);
      assert EncodeInternals(keys, kids)[i] == EncodeInternals(keys', kids')[i];
    }
    Widths();
    ValueOfDigits(kids[|keys|], 8);
    ValueOfDigits(kids'[|keys|], 8);
  }

  // ---- freelist pages ----

  function IdFields(ids: seq<PageId>): (fs: seq<Field>)
    ensures |fs| == |ids| && forall i :: 0 <= i < |ids| ==> fs[i] == Field(8, ids[i])
  {
    seq(|ids|, i requires 0 <= i < |ids| => Field(8, ids[i]))
  }

  function FreelistFields(next: PageId, ids: seq<PageId>): seq<Field> {
    [Field(8, next), Field(4, |ids|), Field(4, 0)] + IdFields(ids)
  }

  lemma {:induction false} IdWidth(ids: seq<PageId>)
    ensures Width(IdFields(ids)) == 8 * |ids|
  {
    if ids != [] {
      IdWidth(ids[1..]);
      assert IdFields(ids)[1..] == IdFields(ids[1..]);
    }
  }

  /** Where the fields of a freelist page start. */
  lemma FreelistWidths(next: PageId, ids: seq<PageId>, i: nat)
    requires i <= |ids|
    ensures var fs := FreelistFields(next, ids);
      && Width(fs) == 16 + 8 * |ids| && Width(fs[..3 + i]) == 16 + 8 * i && Width(fs[..0]) == 0 && Width(fs[..1]) == 8
         && Width(fs[..2]) == 12
  {
    var head := [Field(8, next), Field(4, |ids|), Field(4, 0)];
    var fs := FreelistFields(next, ids);
    assert fs[..0] == [] && fs[..1] == [Field(8, next)] && fs[..2] == [Field(8, next)] + [Field(4, |ids|)];
    assert head == [Field(8, next)] + [Field(4, |ids|)] + [Field(4, 0)];
    hide Width, Pack;
    NoWidth();
    PackOne(Field(8, next));
    PackOne(Field(4, |ids|));
    PackOne(Field(4, 0));
    PackAppend([Field(8, next)], [Field(4, |ids|)]);
    PackAppend([Field(8, next)] + [Field(4, |ids|)], [Field(4, 0)]);
    PackAppend(head, IdFields(ids));
    PackAppend(head, IdFields(ids[..i]));
    assert fs[..3 + i] == head + IdFields(ids[..i]);
    IdWidth(ids);
    IdWidth(ids[..i]);
  }

  lemma NoWidth()
    ensures Width([]) == 0
  {
  }

  /** encodeFreelistPage. */
  method EncodeFreelistPage(buf: array<byte>, ids: seq<PageId>, next: PageId)
    requires buf.Length == PAGE_SIZE && |ids| <= FreelistChain.PER_PAGE
    modifies buf
    ensures |Pack(FreelistFields(next, ids))| <= PAGE_SIZE
            && buf[..] == Splice(old(buf[..]), 0, Pack(FreelistFields(next, ids)))
  {
    FreelistWidths(next, ids, 0);
    PutFields(buf, 0, FreelistFields(next, ids));
  }

  datatype Freelist = BadPage | Freelist(ids: seq<PageId>, next: PageId)

  function IdsIn(b: Bytes, n: nat): (ids: seq<PageId>)
    requires |b| == PAGE_SIZE && n <= FreelistChain.PER_PAGE
    ensures |ids| == n && forall i :: 0 <= i < n ==> ids[i] == Value(b[16 + 8 * i..24 + 8 * i])
  {
    seq(n, i requires 0 <= i < n => Value(b[16 + 8 * i..24 + 8 * i]))
  }

  function DecodeFreelist(b: Bytes): Freelist
    requires |b| == PAGE_SIZE
  {
    if Value(b[8..12]) > FreelistChain.PER_PAGE then BadPage else Freelist(IdsIn(b, Value(b[8..12])), Value(b[0..8]))
  }

  /** decodeFreelistPage. */
  method DecodeFreelistPage(buf: array<byte>) returns (r: Freelist)
    requires buf.Length == PAGE_SIZE
    ensures r == DecodeFreelist(buf[..])
  {
    hide Value;
    assert buf[0..8] == buf[..][0..8] && buf[8..12] == buf[..][8..12];
    var next, count := Value(buf[0..8]), Value(buf[8..12]);
    if count > FreelistChain.PER_PAGE {
      return BadPage;
    }
    var ids: seq<PageId> := [];
    for i := 0 to count
      invariant |ids| == i && forall j :: 0 <= j < i ==> ids[j] == Value(buf[..][16 + 8 * j..24 + 8 * j])
    {
      var off := 16 + i * 8;
      assert buf[off..off + 8] == buf[..][16 + 8 * i..24 + 8 * i];
      ids := ids + [Value(buf[off..off + 8])];
    }
    assert ids == IdsIn(buf[..], count);
    r := Freelist(ids, next);
  }

  /** A freelist page reads back as it was written, whatever the page held before. */
  lemma FreelistRoundTrip(d: Bytes, ids: seq<PageId>, next: PageId)
    requires |d| == PAGE_SIZE && |ids| <= FreelistChain.PER_PAGE && next < Protocol.WORD
             && forall i :: 0 <= i < |ids| ==> ids[i] < Protocol.WORD
    ensures |Pack(FreelistFields(next, ids))| <= PAGE_SIZE
    ensures DecodeFreelist(Splice(d, 0, Pack(FreelistFields(next, ids)))) == Freelist(ids, next)
  {
    hide Value, Pack, Width, Splice, Pow, FreelistFields;
    var fs := FreelistFields(next, ids);
    FieldsOf(next, ids);
    FreelistWidths(next, ids, 0);
    PackWidth(fs);
    Widths();
    var r := Splice(d, 0, Pack(fs));
    FieldRead(d, fs, 0);
    FieldRead(d, fs, 1);
    forall i | 0 <= i < |ids| ensures Value(r[16 + 8 * i..24 + 8 * i]) == ids[i] {
      FreelistWidths(next, ids, i);
      assert ids[i] < Protocol.WORD && fs[3 + i] == Field(8, ids[i]);
      FieldRead(d, fs, 3 + i);
    }
  }

  lemma FieldsOf(next: PageId, ids: seq<PageId>)
    ensures var fs := FreelistFields(next, ids);
      |fs| == 3 + |ids| && fs[0] == Field(8, next) && fs[1] == Field(4, |ids|) && forall i :: 0 <= i < |ids| ==>
          fs[3 + i] == Field(8, ids[i])
  {
  }

  /** A field, read from a buffer the fields were written to. */
  lemma FieldRead(d: Bytes, fs: seq<Field>, i: nat)
    requires i < |fs| && fs[i].value < Pow(fs[i].width) && |Pack(fs)| <= |d|
    ensures var o := Width(fs[..i]);
      o + fs[i].width <= |d| && Value(Splice(d, 0, Pack(fs))[o..o + fs[i].width]) == fs[i].value
  {
    hide Value, Pack, Width, Splice, Pow;
    FieldAt(fs, i);
    SpliceIn(d, 0, Pack(fs));
    var o := Width(fs[..i]);
    Inside(Splice(d, 0, Pack(fs)), 0, Pack(fs), o, o + fs[i].width);
  }

  /** A freelist page is accepted if and only if its count is at most 510, and then next page, count and ids stand
      in their places, eight bytes to an id from byte 16 on. */
  lemma FreelistAccepted(b: Bytes, ids: seq<PageId>, next: PageId)
    requires |b| == PAGE_SIZE
    ensures DecodeFreelist(b) == BadPage <==> Value(b[8..12]) > 510
    ensures DecodeFreelist(b) == Freelist(ids, next) <==>
              && |ids| <= 510 && b[8..12] == Digits(|ids|, 4)
              && next < Protocol.WORD && b[0..8] == Digits(next, 8)
              && forall i :: 0 <= i < |ids| ==>
                   ids[i] < Protocol.WORD && b[16 + 8 * i..24 + 8 * i] == Digits(ids[i], 8)
  {
    hide Value, Digits, Pow;
    Widths();
    FieldIs(b[8..12], |ids|);
    FieldIs(b[0..8], next);
    if |ids| <= 510 {
      forall i | 0 <= i < |ids|
        ensures Value(b[16 + 8 * i..24 + 8 * i]) == ids[i] <==>
                  ids[i] < Protocol.WORD && b[16 + 8 * i..24 + 8 * i] == Digits(ids[i], 8)
      {
        FieldIs(b[16 + 8 * i..24 + 8 * i], ids[i]);
      }
      if Value(b[8..12]) == |ids| { IdsAre(b, ids); }
    }
  }

  lemma IdsAre(b: Bytes, ids: seq<PageId>)
    requires |b| == PAGE_SIZE && |ids| <= 510
    ensures IdsIn(b, |ids|) == ids <==> forall i :: 0 <= i < |ids| ==> Value(b[16 + 8 * i..24 + 8 * i]) == ids[i]
  {
    hide Value;
    var r := IdsIn(b, |ids|);
    if forall i :: 0 <= i < |ids| ==> Value(b[16 + 8 * i..24 + 8 * i]) == ids[i] {
      forall i | 0 <= i < |ids| ensures r[i] == ids[i] { assert r[i] == Value(b[16 + 8 * i..24 + 8 * i]); }
    }
    if r == ids {
      forall i | 0 <= i < |ids| ensures Value(b[16 + 8 * i..24 + 8 * i]) == ids[i] {
        assert r[i] == Value(b[16 + 8 * i..24 + 8 * i]);
      }
    }
  }

  // ---- metas ----

  const MAGIC: nat := 0x46495245
  const VERSION: nat := 1

  function MetaFields(m: Protocol.Meta): seq<Field> {
    [Field(4, MAGIC), Field(4, VERSION), Field(4, PAGE_SIZE), Field(4, 0),
     Field(8, m.txnID), Field(8, m.catalogRoot), Field(8, m.freelistRoot), Field(8, m.numPages)]
  }

  /** The 48 bytes the checksum covers, and the checksum. */
  function MetaBytes(m: Protocol.Meta, crc: Bytes -> nat): Bytes {
    Pack(MetaFields(m)) + Digits(crc(Pack(MetaFields(m))), 8)
  }

  predicate MetaFits(m: Protocol.Meta) {
    m.txnID < Protocol.WORD && m.catalogRoot < Protocol.WORD && m.freelistRoot < Protocol.WORD
        && m.numPages < Protocol.WORD
  }

  lemma MetaWidths(m: Protocol.Meta)
    ensures var fs := MetaFields(m);
      && Width(fs[..0]) == 0 && Width(fs[..1]) == 4 && Width(fs[..2]) == 8 && Width(fs[..3]) == 12
         && Width(fs[..4]) == 16
      && Width(fs[..5]) == 24 && Width(fs[..6]) == 32 && Width(fs[..7]) == 40 && Width(fs) == 48
  {
    var fs := MetaFields(m);
    hide Width, Pack;
    NoWidth();
    assert fs[..0] == [];
    TakeField(fs, 0);
    TakeField(fs, 1);
    TakeField(fs, 2);
    TakeField(fs, 3);
    TakeField(fs, 4);
    TakeField(fs, 5);
    TakeField(fs, 6);
    TakeField(fs, 7);
    Seqs.TakeAll(fs);
  }

  /** encode. */
  method EncodeMeta(buf: array<byte>, m: Protocol.Meta, crc: Bytes -> nat) returns (ok: bool)
    modifies buf
    ensures ok <==> buf.Length >= 56
    ensures !ok ==> buf[..] == old(buf[..])
    ensures ok ==> |MetaBytes(m, crc)| == 56 && buf[..] == Splice(old(buf[..]), 0, MetaBytes(m, crc))
  {
    hide Splice, Digits, Pack, Width;
    if buf.Length < 56 {
      return false;
    }
    ghost var d := buf[..];
    var fs := MetaFields(m);
    MetaWidths(m);
    PutFields(buf, 0, fs);
    SpliceIn(d, 0, Pack(fs));
    assert buf[..48] == buf[..][0..48];
    PutUint(buf, 48, 8, crc(buf[..48]));
    SpliceNext(d, 0, Pack(fs), Digits(crc(Pack(fs)), 8));
    ok := true;
  }

  /** decodeMeta: checksum first, then magic, version and page size. */
  function DecodeMeta(b: Bytes, crc: Bytes -> nat): Protocol.Slot {
    if |b| < 56 || Value(b[48..56]) != crc(b[..48]) then Protocol.Invalid
    else if Value(b[0..4]) != MAGIC || Value(b[4..8]) != VERSION || Value(b[8..12]) != PAGE_SIZE then Protocol.Invalid
    else Protocol.Good(Protocol.Meta(Value(b[16..24]), Value(b[24..32]), Value(b[32..40]), Value(b[40..48])))
  }

  /** A meta reads back as it was written. */
  lemma MetaRoundTrip(d: Bytes, m: Protocol.Meta, crc: Bytes -> nat)
    requires |d| >= 56 && MetaFits(m) && forall b: Bytes :: crc(b) < Protocol.WORD
    ensures |MetaBytes(m, crc)| == 56 && DecodeMeta(Splice(d, 0, MetaBytes(m, crc)), crc) == Protocol.Good(m)
  {
    hide Value, Pack, Width, Splice, Pow, Digits;
    var fs := MetaFields(m);
    MetaWidths(m);
    PackWidth(fs);
    Widths();
    var body, sum := Pack(fs), crc(Pack(fs));
    var r := Splice(d, 0, MetaBytes(m, crc));
    SpliceIn(d, 0, MetaBytes(m, crc));
    BodyOf(r, body, Digits(sum, 8));
    ValueOfDigits(sum, 8);
    MetaFieldsRead(m, r);
  }

  /** A field of a page holds a number if and only if its bytes are the digits of the number. */
  lemma FieldIs(b: Bytes, n: nat)
    ensures Value(b) == n <==> n < Pow(|b|) && b == Digits(n, |b|)
  {
    hide Value, Digits, Pow;
    DigitsOfValue(b);
    if n < Pow(|b|) { ValueOfDigits(n, |b|); }
  }

  /** A meta page is accepted if and only if its checksum field is the checksum of its first 48 bytes, and magic,
      version, page size and the four counters stand in their places; the padding may be anything. */
  lemma MetaAccepted(b: Bytes, m: Protocol.Meta, crc: Bytes -> nat)
    requires forall x: Bytes :: crc(x) < Protocol.WORD
    ensures DecodeMeta(b, crc) == Protocol.Good(m) <==>
              && |b| >= 56 && MetaFits(m) && b[48..56] == Digits(crc(b[..48]), 8)
              && b[0..4] == Digits(0x46495245, 4) && b[4..8] == Digits(1, 4) && b[8..12] == Digits(4096, 4)
              && b[16..24] == Digits(m.txnID, 8) && b[24..32] == Digits(m.catalogRoot, 8)
              && b[32..40] == Digits(m.freelistRoot, 8) && b[40..48] == Digits(m.numPages, 8)
  {
    if |b| >= 56 {
      hide Value, Digits, Pow;
      Widths();
      FieldIs(b[48..56], crc(b[..48]));
      FieldIs(b[0..4], MAGIC);
      FieldIs(b[4..8], VERSION);
      FieldIs(b[8..12], PAGE_SIZE);
      FieldIs(b[16..24], m.txnID);
      FieldIs(b[24..32], m.catalogRoot);
      FieldIs(b[32..40], m.freelistRoot);
      FieldIs(b[40..48], m.numPages);
    }
  }

  lemma BodyOf(r: Bytes, body: Bytes, tail: Bytes)
    requires |body| == 48 && |tail| == 8 && |r| >= 56 && r[0..56] == body + tail
    ensures r[..48] == body && r[48..56] == tail
  {
    assert r[..48] == r[0..56][..48] && r[48..56] == r[0..56][48..];
  }

  lemma MetaFieldsRead(m: Protocol.Meta, r: Bytes)
    requires MetaFits(m) && |r| >= 56 && r[..48] == Pack(MetaFields(m))
    ensures Value(r[0..4]) == MAGIC && Value(r[4..8]) == VERSION && Value(r[8..12]) == PAGE_SIZE
    ensures Value(r[16..24]) == m.txnID && Value(r[24..32]) == m.catalogRoot && Value(r[32..40]) == m.freelistRoot
            && Value(r[40..48]) == m.numPages
  {
    hide Value, Pack, Width, Pow;
    var fs := MetaFields(m);
    MetaWidths(m);
    Widths();
    ReadFrom(r, fs, 0);
    ReadFrom(r, fs, 1);
    ReadFrom(r, fs, 2);
    ReadFrom(r, fs, 4);
    ReadFrom(r, fs, 5);
    ReadFrom(r, fs, 6);
    ReadFrom(r, fs, 7);
  }

  lemma ReadFrom(r: Bytes, fs: seq<Field>, i: nat)
    requires i < |fs| && fs[i].value < Pow(fs[i].width) && |r| >= |Pack(fs)| && r[..|Pack(fs)|] == Pack(fs)
    ensures var o := Width(fs[..i]); o + fs[i].width <= |r| && Value(r[o..o + fs[i].width]) == fs[i].value
  {
    hide Value, Pack, Width, Pow;
    FieldAt(fs, i);
    var o := Width(fs[..i]);
    Inside(r, 0, Pack(fs), o, o + fs[i].width);
  }

  /** isNewer compares 64-bit counters by their signed difference: right whenever the true counters are
      less than 2^63 apart, even if they have wrapped. */
  lemma NewerIsGreater(a: nat, b: nat)
    requires -(Protocol.WORD / 2) < a - b < Protocol.WORD / 2
    ensures Protocol.IsNewer(a % Protocol.WORD, b % Protocol.WORD) <==> a > b
  {
    var x, y := a / Protocol.WORD, b / Protocol.WORD;
    assert a == x * Protocol.WORD + a % Protocol.WORD && b == y * Protocol.WORD + b % Protocol.WORD;
    var diff := a % Protocol.WORD - b % Protocol.WORD;
    assert diff == (a - b) - (x - y) * Protocol.WORD;
  }
}
