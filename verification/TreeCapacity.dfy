/** When a repair after a delete fits in its pages: exact conditions, and limits that suffice. */
module TreeCapacity {
  import opened Keys
  import opened OrderedMap
  import opened Layout
  import opened Trees
  import opened TreeDelete
  import Seqs

  function Header(t: Tree): nat { if t.Leaf? then LEAF_HEADER else INTERNAL_HEADER }

  /** Bytes the joined page of two siblings would use. */
  function JoinedUsed(l: Tree, sep: Key, r: Tree): nat {
    Used(l) + Used(r) + (if l.Leaf? then 0 else SepCost(sep)) - Header(l)
  }


  lemma JoinedSize(l: Tree, sep: Key, r: Tree)
    requires SameKind(l, r)
    ensures Used(l) + Used(r) >= Header(l) && Used(Joined(l, sep, r)) == JoinedUsed(l, sep, r)
  {
    hide Sum;
    if l.Leaf? {
      EntryCostsAppend(l.es, r.es);
    } else {
      SepCostsAppend(l.keys + [sep], r.keys);
      SepCostsAppend(l.keys, [sep]);
      assert SepCosts([sep]) == [SepCost(sep)];
      SumOne(SepCost(sep));
    }
  }

  /** A merge fails exactly when the two pages and the separator pulled down exceed one page. */
  lemma MergeExactly(keys: seq<Key>, kids: seq<Tree>, i: nat)
    requires i < |keys| && |kids| == |keys| + 1 && SameKind(kids[i], kids[i + 1])
    ensures Merge(keys, kids, i) == Overflow <==> JoinedUsed(kids[i], keys[i], kids[i + 1]) > PAGE_SIZE
  {
    JoinedSize(kids[i], keys[i], kids[i + 1]);
  }

  /** The cost of the cell that crosses separator sep, and the key that replaces it. */
  function MovedRight(l: Tree, sep: Key): (nat, Key)
    requires Cells(l) > 0
  {
    match l
    case Leaf(es) => (EntryCost(es[|es| - 1]), es[|es| - 1].key)
    case Node(keys, _) => (SepCost(sep), keys[|keys| - 1])
  }

  function MovedLeft(r: Tree, sep: Key): (nat, Key)
    requires Cells(r) > 1
  {
    match r
    case Leaf(es) => (EntryCost(es[0]), es[1].key)
    case Node(keys, _) => (SepCost(sep), keys[0])
  }

  /** Bytes of the parent once separator i has been replaced by sep. */
  function ParentUsed(keys: seq<Key>, i: nat, sep: Key): int
    requires i < |keys|
  {
    NodeUsed(keys) - SepCost(keys[i]) + SepCost(sep)
  }

  lemma ParentSize(keys: seq<Key>, i: nat, sep: Key)
    requires i < |keys|
    ensures NodeUsed(keys[..i] + ([sep] + keys[i + 1..])) == ParentUsed(keys, i, sep)
  {
    hide Sum;
    SepCostsAppend(keys[..i], [sep] + keys[i + 1..]);
    SepCostsAppend([sep], keys[i + 1..]);
    Seqs.Around(keys, i);
    SepCostsAppend(keys[..i] + [keys[i]], keys[i + 1..]);
    SepCostsAppend(keys[..i], [keys[i]]);
    assert SepCosts([sep]) == [SepCost(sep)];
    assert SepCosts([keys[i]]) == [SepCost(keys[i])];
    SumOne(SepCost(sep));
    SumOne(SepCost(keys[i]));
  }

  lemma LeafCutSizes(es: seq<Entry>, s: nat)
    requires s <= |es|
    ensures LeafUsed(es[..s]) + LeafUsed(es[s..]) == LeafUsed(es) + LEAF_HEADER
  {
    hide Sum;
    Seqs.Parts(es, s);
    EntryCostsAppend(es[..s], es[s..]);
  }

  lemma NodeCutSizes(keys: seq<Key>, s: nat)
    requires s < |keys|
    ensures NodeUsed(keys[..s]) + SepCost(keys[s]) + NodeUsed(keys[s + 1..]) == NodeUsed(keys) + INTERNAL_HEADER
  {
    hide Sum;
    Seqs.Around(keys, s);
    SepCostsAppend(keys[..s] + [keys[s]], keys[s + 1..]);
    SepCostsAppend(keys[..s], [keys[s]]);
    assert SepCosts([keys[s]]) == [SepCost(keys[s])];
    SumOne(SepCost(keys[s]));
  }

  lemma LeafOneSize(e: Entry)
    ensures LeafUsed([e]) == LEAF_HEADER + EntryCost(e)
  {
    assert EntryCosts([e]) == [EntryCost(e)];
    SumOne(EntryCost(e));
  }

  /** Sizes of the pair once the left page's last cell has moved right. */
  lemma MovedRightSizes(l: Tree, sep: Key, r: Tree)
    requires SameKind(l, r) && Cells(l) > 0
    ensures var p := CutAt(Joined(l, sep, r), Cells(l) - 1);
      && Used(p.left) == Used(l) - LastCost(l)
      && Used(p.right) == Used(r) + MovedRight(l, sep).0
      && p.sep == MovedRight(l, sep).1
  {
    hide Sum, LeafUsed, NodeUsed;
    var n := Cells(l) - 1;
    JoinedSize(l, sep, r);
    if l.Leaf? {
      var all := l.es + r.es;
      LeafCutSizes(all, n);
      LeafCutSizes(l.es, n);
      LeafOneSize(l.es[n]);
      assert l.es[n..] == [l.es[n]];
      assert all[..n] == l.es[..n];
    } else {
      var all := l.keys + [sep] + r.keys;
      NodeCutSizes(all, n);
      NodeCutSizes(l.keys, n);
      assert l.keys[n + 1..] == [];
      assert NodeUsed([]) == INTERNAL_HEADER by { NodeEmptySize(); }
      assert all[..n] == l.keys[..n];
    }
  }

  lemma NodeEmptySize()
    ensures NodeUsed([]) == INTERNAL_HEADER && LeafUsed([]) == LEAF_HEADER
  {
    assert SepCosts([]) == [];
    assert EntryCosts([]) == [];
  }

  lemma MovedLeftSizes(l: Tree, sep: Key, r: Tree)
    requires SameKind(l, r) && Cells(r) > 1
    ensures var p := CutAt(Joined(l, sep, r), Cells(l) + 1);
      && Used(p.left) == Used(l) + MovedLeft(r, sep).0
      && Used(p.right) < Used(r)
      && p.sep == MovedLeft(r, sep).1
  {
    hide Sum, LeafUsed, NodeUsed;
    var n := Cells(l) + 1;
    JoinedSize(l, sep, r);
    if l.Leaf? {
      var all := l.es + r.es;
      LeafCutSizes(all, n);
      LeafCutSizes(r.es, 1);
      LeafOneSize(r.es[0]);
      assert r.es[..1] == [r.es[0]];
      assert all[n..] == r.es[1..];
      assert all[n] == r.es[1];
    } else {
      var all := l.keys + [sep] + r.keys;
      NodeCutSizes(all, n);
      NodeCutSizes(r.keys, 0);
      assert r.keys[..0] == [];
      NodeEmptySize();
      assert all[n + 1..] == r.keys[1..];
      assert all[n] == r.keys[0];
    }
  }

  /** Borrowing from the left fails exactly when the receiving page has no room for the cell, or
      the parent has none for the new separator. */
  lemma BorrowLeftExactly(keys: seq<Key>, kids: seq<Tree>, i: nat)
    requires i < |keys| && |kids| == |keys| + 1 && SameKind(kids[i], kids[i + 1])
    requires CanDonate(kids[i]) && Used(kids[i]) <= PAGE_SIZE
    ensures var (cost, sep) := MovedRight(kids[i], keys[i]);
      Rebalance(keys, kids, i, Cells(kids[i]) - 1) == Overflow <==>
        Used(kids[i + 1]) + cost > PAGE_SIZE || ParentUsed(keys, i, sep) > PAGE_SIZE
  {
    hide Used, NodeUsed, SepCost, EntryCost;
    var l, r := kids[i], kids[i + 1];
    MovedRightSizes(l, keys[i], r);
    var p := CutAt(Joined(l, keys[i], r), Cells(l) - 1);
    ParentSize(keys, i, p.sep);
    UsedNode(WithPair(keys, kids, i, p));
  }

  lemma UsedNode(t: Tree)
    requires t.Node?
    ensures Used(t) == NodeUsed(t.keys)
  {
  }

  lemma BorrowRightExactly(keys: seq<Key>, kids: seq<Tree>, i: nat)
    requires i < |keys| && |kids| == |keys| + 1 && SameKind(kids[i], kids[i + 1])
    requires CanDonate(kids[i + 1]) && Used(kids[i + 1]) <= PAGE_SIZE
    ensures var (cost, sep) := MovedLeft(kids[i + 1], keys[i]);
      Rebalance(keys, kids, i, Cells(kids[i]) + 1) == Overflow <==>
        Used(kids[i]) + cost > PAGE_SIZE || ParentUsed(keys, i, sep) > PAGE_SIZE
  {
    hide Used, NodeUsed, SepCost, EntryCost;
    var l, r := kids[i], kids[i + 1];
    MovedLeftSizes(l, keys[i], r);
    var p := CutAt(Joined(l, keys[i], r), Cells(l) + 1);
    ParentSize(keys, i, p.sep);
    UsedNode(WithPair(keys, kids, i, p));
  }

  /** The size test each repair of child c would have to make, and the program does not. */
  predicate RepairRoom(keys: seq<Key>, kids: seq<Tree>, c: nat)
    requires c < |kids| == |keys| + 1
  {
    if c > 0 && CanDonate(kids[c - 1]) then
      var (cost, sep) := MovedRight(kids[c - 1], keys[c - 1]);
      Used(kids[c]) + cost <= PAGE_SIZE && ParentUsed(keys, c - 1, sep) <= PAGE_SIZE
    else if c < |keys| && CanDonate(kids[c + 1]) then
      var (cost, sep) := MovedLeft(kids[c + 1], keys[c]);
      Used(kids[c]) + cost <= PAGE_SIZE && ParentUsed(keys, c, sep) <= PAGE_SIZE
    else if c > 0 then JoinedUsed(kids[c - 1], keys[c - 1], kids[c]) <= PAGE_SIZE
    else c < |keys| ==> JoinedUsed(kids[c], keys[c], kids[c + 1]) <= PAGE_SIZE
  }

  lemma RepairExactly(keys: seq<Key>, kids: seq<Tree>, q: Limits, h: nat, lo: real, hi: real, c: nat)
    requires Forest(keys, kids, q, h, lo, hi) && c < |kids|
    ensures |kids| == |keys| + 1
    ensures Repair(keys, kids, c) == Overflow <==> !RepairRoom(keys, kids, c)
  {
    hide Rank, Used, NodeUsed, Forest, Wf, CanDonate, JoinedUsed, ParentUsed, Rebalance, Merge;
    ForestLength(keys, kids, q, h, lo, hi);
    if c > 0 {
      SiblingFits(keys, kids, q, h, lo, hi, c - 1);
      if CanDonate(kids[c - 1]) {
        BorrowLeftExactly(keys, kids, c - 1);
      } else {
        MergeExactly(keys, kids, c - 1);
      }
    }
    if c < |keys| {
      SiblingFits(keys, kids, q, h, lo, hi, c);
      if CanDonate(kids[c + 1]) {
        BorrowRightExactly(keys, kids, c);
      } else {
        MergeExactly(keys, kids, c);
      }
    }
  }

  lemma SiblingFits(keys: seq<Key>, kids: seq<Tree>, q: Limits, h: nat, lo: real, hi: real, i: nat)
    requires Forest(keys, kids, q, h, lo, hi) && i < |keys|
    ensures i + 1 < |kids| && SameKind(kids[i], kids[i + 1])
    ensures Used(kids[i]) <= PAGE_SIZE && Used(kids[i + 1]) <= PAGE_SIZE
  {
    hide Rank, LeafUsed, NodeUsed, Separators;
    assert Wf(kids[i], q, h, Lo(keys, i, lo), Hi(keys, i, hi));
    assert Wf(kids[i + 1], q, h, Lo(keys, i + 1, lo), Hi(keys, i + 1, hi));
  }

  /** Every repair on the way up from the deleted key has room. */
  predicate RoomToDelete(t: Tree, k: Key) {
    match t
    case Leaf(_) => true
    case Node(keys, kids) =>
      |kids| == |keys| + 1 ==>
        var c := ChildSlot(keys, k);
        var r := DeleteNode(kids[c], k);
        && RoomToDelete(kids[c], k)
        && (r.Done? && Underfull(r.t) ==> RepairRoom(keys, WithChild(kids, c, r.t), c))
  }

  // ---- limits under which no repair overflows ----

  /** Leaf cells of at most 584 bytes and separators of at most 510, offset slots included. */
  predicate Modest(q: Limits) { q.maxCost <= 584 && q.maxKey + 12 <= 510 }

  function CellLimit(t: Tree, q: Limits): nat { if t.Leaf? then q.maxCost else q.maxKey + 12 }

  lemma {:induction false} SizeByCells(t: Tree, q: Limits, h: nat, lo: real, hi: real)
    requires Wf(t, q, h, lo, hi)
    ensures Used(t) <= Header(t) + Cells(t) * CellLimit(t, q)
    ensures Cells(t) > 0 ==> LastCost(t) <= CellLimit(t, q)
  {
    hide Rank, Sum;
    if t.Leaf? {
      SumAtMost(EntryCosts(t.es), q.maxCost);
    } else {
      SumAtMost(SepCosts(t.keys), q.maxKey + 12);
    }
  }

  /** A page that gets repaired, and one that cannot spare a cell, are small under modest limits. */
  lemma SmallPages(t: Tree, q: Limits, h: nat, lo: real, hi: real)
    requires Wf(t, q, h, lo, hi) && Modest(q)
    ensures Underfull(t) ==> Used(t) <= Header(t) + 3 * (if t.Leaf? then 584 else 510)
    ensures !CanDonate(t) ==> Used(t) <= Header(t) + 4 * (if t.Leaf? then 584 else 510)
  {
    hide Rank, Sum, Wf, LeafUsed, NodeUsed;
    SizeByCells(t, q, h, lo, hi);
    if Cells(t) <= 4 {
      assert Cells(t) * CellLimit(t, q) <= Cells(t) * (if t.Leaf? then 584 else 510);
    }
  }

  /** Merge capacity: under modest limits an underfull page and a sibling that cannot donate always
      fit in one page together. */
  lemma MergeFits(l: Tree, sep: Key, r: Tree, q: Limits, h: nat, lo: real, hi: real)
    requires Modest(q) && KeyOk(sep, q)
    requires Wf(l, q, h, lo, Rank(sep)) && Wf(r, q, h, Rank(sep), hi)
    requires (Underfull(l) && !CanDonate(r)) || (Underfull(r) && !CanDonate(l))
    ensures SameKind(l, r) && JoinedUsed(l, sep, r) <= PAGE_SIZE
  {
    hide Rank, Sum, LeafUsed, NodeUsed, CanDonate, Underfull;
    SmallPages(l, q, h, lo, Rank(sep));
    SmallPages(r, q, h, Rank(sep), hi);
  }

  /** Every internal page has room for a separator to grow by slack bytes. */
  ghost predicate Roomy(t: Tree, slack: nat) {
    t.Node? ==> NodeUsed(t.keys) + slack <= PAGE_SIZE && forall i :: 0 <= i < |t.kids| ==> Roomy(t.kids[i], slack)
  }

  lemma ReceiverFits(t: Tree, q: Limits, h: nat, lo: real, hi: real, cost: nat)
    requires Wf(t, q, h, lo, hi) && Modest(q) && Underfull(t)
    requires cost <= (if t.Leaf? then 584 else 510)
    ensures Used(t) + cost <= PAGE_SIZE
  {
    hide Rank, LeafUsed, NodeUsed, Wf, Underfull;
    SmallPages(t, q, h, lo, hi);
  }

  lemma MovedBounds(l: Tree, sep: Key, r: Tree, q: Limits, h: nat, lo: real, hi: real)
    requires Wf(l, q, h, lo, Rank(sep)) && Wf(r, q, h, Rank(sep), hi) && KeyOk(sep, q) && Modest(q)
    ensures SameKind(l, r)
    ensures Cells(l) > 0 ==> MovedRight(l, sep).0 <= (if l.Leaf? then 584 else 510) && KeyOk(MovedRight(l, sep).1, q)
    ensures Cells(r) > 1 ==> MovedLeft(r, sep).0 <= (if l.Leaf? then 584 else 510) && KeyOk(MovedLeft(r, sep).1, q)
  {
    hide Rank, LeafUsed, NodeUsed;
  }

  /** Under modest limits, with room in the parent, every repair succeeds. */
  lemma RepairFits(keys: seq<Key>, kids: seq<Tree>, q: Limits, h: nat, lo: real, hi: real, c: nat)
    requires Forest(keys, kids, q, h, lo, hi) && c < |kids| && Underfull(kids[c]) && keys != []
    requires Modest(q) && NodeUsed(keys) + (if q.maxKey >= q.minKey then q.maxKey - q.minKey else 0) <= PAGE_SIZE
    ensures |kids| == |keys| + 1 && Repair(keys, kids, c).Done?
  {
    hide Rank, Used, NodeUsed, Forest, Underfull, Wf, CanDonate, JoinedUsed;
    ForestLength(keys, kids, q, h, lo, hi);
    var i := if c > 0 && (CanDonate(kids[c - 1]) || !(c < |keys| && CanDonate(kids[c + 1]))) then c - 1 else c;
    var l, r := kids[i], kids[i + 1];
    ForestPair(keys, kids, q, h, lo, hi, i);
    MovedBounds(l, keys[i], r, q, h, Lo(keys, i, lo), Hi(keys, i + 1, hi));
    if c > 0 && CanDonate(kids[c - 1]) {
      PageFits(l, q, h, Lo(keys, i, lo), Rank(keys[i]));
      DonorCells(l);
      ReceiverFits(r, q, h, Rank(keys[i]), Hi(keys, i + 1, hi), MovedRight(l, keys[i]).0);
      BorrowLeftExactly(keys, kids, i);
      RepairTotal(keys, kids, i, Cells(l) - 1);
    } else if c < |keys| && CanDonate(kids[c + 1]) {
      PageFits(r, q, h, Rank(keys[i]), Hi(keys, i + 1, hi));
      DonorCells(r);
      ReceiverFits(l, q, h, Lo(keys, i, lo), Rank(keys[i]), MovedLeft(r, keys[i]).0);
      BorrowRightExactly(keys, kids, i);
      RepairTotal(keys, kids, i, Cells(l) + 1);
    } else {
      MergeFits(l, keys[i], r, q, h, Lo(keys, i, lo), Hi(keys, i + 1, hi));
      MergeExactly(keys, kids, i);
      RepairTotal(keys, kids, i, 0);
    }
  }

  lemma PageFits(t: Tree, q: Limits, h: nat, lo: real, hi: real)
    requires Wf(t, q, h, lo, hi)
    ensures Used(t) <= PAGE_SIZE
  {
  }

  lemma RepairTotal(keys: seq<Key>, kids: seq<Tree>, i: nat, s: nat)
    requires i < |keys| && |kids| == |keys| + 1
    ensures !Rebalance(keys, kids, i, s).Missing? && !Merge(keys, kids, i).Missing?
  {
  }

  /** With keys of one length, every well-formed tree has the room DeleteFits asks for. */
  lemma {:induction false} FixedLengthRoomy(t: Tree, q: Limits, h: nat, lo: real, hi: real)
    requires Wf(t, q, h, lo, hi)
    ensures Roomy(t, 0)
    decreases h
  {
    hide Rank, NodeUsed, Separators;
    if t.Node? {
      forall i | 0 <= i < |t.kids| ensures Roomy(t.kids[i], 0) {
        FixedLengthRoomy(t.kids[i], q, h - 1, Lo(t.keys, i, lo), Hi(t.keys, i, hi));
      }
    }
  }
}
