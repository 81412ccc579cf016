/** Sizes of cells and pages: the arithmetic that decides what fits in a 4096-byte page. */
module Layout {
  import opened Keys
  import opened OrderedMap

  const PAGE_SIZE := 4096
  const LEAF_HEADER := 5
  const INTERNAL_HEADER := 13
  const LEAF_CELL_HEADER := 5
  const INTERNAL_CELL_HEADER := 10
  const MIN_CELLS := 4
  const MAX_KEY := (PAGE_SIZE - INTERNAL_HEADER - (INTERNAL_CELL_HEADER + 2) * MIN_CELLS) / MIN_CELLS
  const MAX_INLINE := (PAGE_SIZE - LEAF_HEADER - (LEAF_CELL_HEADER + 2) * MIN_CELLS) / MIN_CELLS
  const LEAF_ROOM := PAGE_SIZE - LEAF_HEADER
  const INTERNAL_ROOM := PAGE_SIZE - INTERNAL_HEADER

  type uint16 = x: int | 0 <= x < 0x1_0000

  /** Does the value live inside the leaf cell? Otherwise the cell holds an overflow page id. */
  predicate Inline(key: Key, value: Bytes) {
    LEAF_CELL_HEADER + |key| + |value| <= MAX_INLINE
  }

  function LeafCellSize(key: Key, value: Bytes): nat {
    if Inline(key, value) then LEAF_CELL_HEADER + |key| + |value| else LEAF_CELL_HEADER + |key| + 8
  }

  function InternalCellSize(key: Key): nat {
    INTERNAL_CELL_HEADER + |key|
  }

  /** A cell costs its bytes and its two-byte slot in the offset array. */
  function EntryCost(e: Entry): nat { LeafCellSize(e.key, e.value) + 2 }
  function SepCost(k: Key): nat { InternalCellSize(k) + 2 }

  function EntryCosts(es: seq<Entry>): (cs: seq<nat>)
    ensures |cs| == |es| && forall i :: 0 <= i < |es| ==> cs[i] == EntryCost(es[i])
  {
    seq(|es|, i requires 0 <= i < |es| => EntryCost(es[i]))
  }

  function SepCosts(keys: seq<Key>): (cs: seq<nat>)
    ensures |cs| == |keys| && forall i :: 0 <= i < |keys| ==> cs[i] == SepCost(keys[i])
  {
    seq(|keys|, i requires 0 <= i < |keys| => SepCost(keys[i]))
  }

  function Sum(cs: seq<nat>): nat {
    if cs == [] then 0 else cs[0] + Sum(cs[1..])
  }

  function LeafUsed(es: seq<Entry>): nat { LEAF_HEADER + Sum(EntryCosts(es)) }
  function NodeUsed(keys: seq<Key>): nat { INTERNAL_HEADER + Sum(SepCosts(keys)) }

  /** Bounds on the cells of a tree: key lengths, and the cost of a leaf cell. */
  datatype SizeLimits = SizeLimits(minKey: nat, maxKey: nat, maxCost: nat)
  type Limits = q: SizeLimits | q.maxKey <= MAX_KEY witness SizeLimits(0, MAX_KEY, 1023)

  /** The limits Update itself enforces. */
  const ANY: Limits := SizeLimits(0, MAX_KEY, 1023)

  predicate KeyOk(k: Key, q: Limits) { q.minKey <= |k| <= q.maxKey }

  predicate Storable(e: Entry, q: Limits) {
    KeyOk(e.key, q) && EntryCost(e) <= q.maxCost
  }

  /** Whatever the value, a key that is not too long makes a cell that can be stored. */
  lemma AnyStorable(e: Entry)
    ensures Storable(e, ANY) <==> |e.key| <= MAX_KEY
  {
  }

  /** No cell costs more than 1023 bytes, and only non-empty values overflow. */
  lemma CellBounds(e: Entry, q: Limits)
    requires Storable(e, q)
    ensures 7 <= EntryCost(e) <= 1023 && Storable(e, ANY)
    ensures !Inline(e.key, e.value) ==> |e.value| > 0
  {
  }

  lemma {:induction false} SumAppend(a: seq<nat>, b: seq<nat>)
    ensures Sum(a + b) == Sum(a) + Sum(b)
  {
    if a == [] {
      assert a + b == b;
    } else {
      assert (a + b)[1..] == a[1..] + b;
      SumAppend(a[1..], b);
    }
  }

  lemma SumOne(n: nat)
    ensures Sum([n]) == n
  {
    assert [n][1..] == [];
  }

  lemma SumSplit(cs: seq<nat>, i: nat)
    requires i <= |cs|
    ensures Sum(cs) == Sum(cs[..i]) + Sum(cs[i..])
  {
    assert cs == cs[..i] + cs[i..];
    SumAppend(cs[..i], cs[i..]);
  }

  lemma SumStep(cs: seq<nat>, i: nat)
    requires i < |cs|
    ensures Sum(cs[..i + 1]) == Sum(cs[..i]) + cs[i]
  {
    assert cs[..i + 1] == cs[..i] + [cs[i]];
    SumAppend(cs[..i], [cs[i]]);
  }

  lemma {:induction false} SumAtMost(cs: seq<nat>, c: nat)
    requires forall i :: 0 <= i < |cs| ==> cs[i] <= c
    ensures Sum(cs) <= |cs| * c
  {
    if cs != [] {
      SumAtMost(cs[1..], c);
      calc {
        Sum(cs);
        cs[0] + Sum(cs[1..]);
      <=
        c + (|cs| - 1) * c;
        |cs| * c;
      }
    }
  }

  lemma EntryCostsAppend(a: seq<Entry>, b: seq<Entry>)
    ensures EntryCosts(a + b) == EntryCosts(a) + EntryCosts(b)
    ensures Sum(EntryCosts(a + b)) == Sum(EntryCosts(a)) + Sum(EntryCosts(b))
  {
    assert EntryCosts(a + b) == EntryCosts(a) + EntryCosts(b);
    SumAppend(EntryCosts(a), EntryCosts(b));
  }

  lemma SepCostsAppend(a: seq<Key>, b: seq<Key>)
    ensures SepCosts(a + b) == SepCosts(a) + SepCosts(b)
    ensures Sum(SepCosts(a + b)) == Sum(SepCosts(a)) + Sum(SepCosts(b))
  {
    assert SepCosts(a + b) == SepCosts(a) + SepCosts(b);
    SumAppend(SepCosts(a), SepCosts(b));
  }

  // ---- where a full page is split ----

  /** The first index whose running total exceeds the target, or the length if there is none. */
  function FirstOver(cs: seq<nat>, target: nat, running: nat): (i: nat)
    ensures i <= |cs|
  {
    if cs == [] then 0
    else if running + cs[0] > target then 0
    else 1 + FirstOver(cs[1..], target, running + cs[0])
  }

  lemma {:induction false} FirstOverSums(cs: seq<nat>, target: nat, running: nat)
    requires running <= target
    ensures running + Sum(cs[..FirstOver(cs, target, running)]) <= target
    ensures FirstOver(cs, target, running) < |cs| ==>
              running + Sum(cs[..FirstOver(cs, target, running) + 1]) > target
  {
    var i := FirstOver(cs, target, running);
    if cs == [] {
    } else if running + cs[0] > target {
      assert cs[..1] == [cs[0]];
      assert Sum([cs[0]]) == cs[0];
    } else {
      FirstOverSums(cs[1..], target, running + cs[0]);
      assert cs[..i][1..] == cs[1..][..i - 1];
      if i < |cs| {
        assert cs[..i + 1][1..] == cs[1..][..i];
      }
    }
  }

  function Clamp(splitIdx: nat, total: nat): nat
    requires total > 0
  {
    if splitIdx >= total then total - 1 else splitIdx
  }

  /** How many cells the left half of a split leaf gets. */
  function LeafSplit(cs: seq<nat>): nat
    requires cs != []
  {
    var i := FirstOver(cs, Sum(cs) / 2, 0);
    Clamp(if i < |cs| then i + 1 else 1, |cs|)
  }

  /** Which separator of an overfull internal page moves up. */
  function InternalSplit(cs: seq<nat>): nat
    requires cs != []
  {
    var i := FirstOver(cs, Sum(cs) / 2, 0);
    Clamp(if i < |cs| then i else 1, |cs|)
  }

  /** Both halves of a leaf that overflowed by one cell fit in a page and are non-empty, whatever the sizes of the
      cells within the key and inline limits. The cell with which the left half passes half the size is the last
      one to go left. */
  lemma LeafSplitFits(cs: seq<nat>)
    requires forall i :: 0 <= i < |cs| ==> cs[i] <= 1023
    requires LEAF_ROOM < Sum(cs) <= LEAF_ROOM + 1023
    ensures |cs| >= 4
    ensures 0 < LeafSplit(cs) < |cs|
    ensures Sum(cs[..LeafSplit(cs)]) <= LEAF_ROOM
    ensures Sum(cs[LeafSplit(cs)..]) <= LEAF_ROOM
    ensures Sum(cs[..LeafSplit(cs) - 1]) <= Sum(cs) / 2 < Sum(cs[..LeafSplit(cs)])
  {
    hide Sum, FirstOver;
    SumAtMost(cs, 1023);
    var target := Sum(cs) / 2;
    var i := FirstOver(cs, target, 0);
    FirstOverSums(cs, target, 0);
    SumSplit(cs, i);
    assert cs[..|cs|] == cs;
    SumStep(cs, i);
    SumSplit(cs, LeafSplit(cs));
  }

  /** Both halves of an internal page that overflowed by one cell fit and keep at least two separators each, besides
      the one that moves up: the separator with which the left half would pass half the size. */
  lemma InternalSplitFits(cs: seq<nat>)
    requires forall i :: 0 <= i < |cs| ==> cs[i] <= 1020
    requires INTERNAL_ROOM < Sum(cs) <= INTERNAL_ROOM + 1020
    ensures 2 <= InternalSplit(cs) < |cs| - 2
    ensures Sum(cs[..InternalSplit(cs)]) <= INTERNAL_ROOM
    ensures Sum(cs[InternalSplit(cs) + 1..]) <= INTERNAL_ROOM
    ensures Sum(cs[..InternalSplit(cs)]) <= Sum(cs) / 2 < Sum(cs[..InternalSplit(cs) + 1])
  {
    hide Sum, FirstOver;
    var target := Sum(cs) / 2;
    var i := FirstOver(cs, target, 0);
    FirstOverSums(cs, target, 0);
    assert cs[..|cs|] == cs;
    SumAtMost(cs[..i + 1], 1020);
    SumSplit(cs, i);
    SumAtMost(cs[i..], 1020);
    SumSplit(cs, i + 1);
  }

  /** The limits as numbers: four of the longest separators fill an internal page, and a cell with more than 1015
      bytes is not inline. */
  lemma Sizes(key: Key, value: Bytes)
    ensures MAX_KEY == 1008 && INTERNAL_HEADER + 4 * (INTERNAL_CELL_HEADER + MAX_KEY + 2) <= 4096
    ensures INTERNAL_HEADER + 4 * (INTERNAL_CELL_HEADER + MAX_KEY + 3) > 4096
    ensures Inline(key, value) <==> 5 + |key| + |value| <= 1015
    ensures EntryCost(Entry(key, value)) == 7 + |key| + (if 5 + |key| + |value| <= 1015 then |value| else 8)
    ensures SepCost(key) == 12 + |key|
  {
  }
}
