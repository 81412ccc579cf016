/** Bulk loads after which a delete goes wrong: in one it fails, in the other it completes and leaves a tree whose
    leaves are at two depths. */
module LoadLimits {
  import opened Keys
  import opened OrderedMap
  import opened Layout
  import opened Trees
  import opened TreeDelete
  import opened TreeLimits
  import Sound = TreeSound
  import Hist = TreeHistory
  import TB = TreeBulk

  /** Loading cells of the largest size with the smallest fill target: one cell to a leaf, one separator to an
      internal page. */
  const TARGET: nat := 1228

  function K(b: byte): Key { Widest(b).key }

  function L(b: byte): Tree { Leaf([Widest(b)]) }

  // ---- loading ----

  lemma {:induction false} LoadedOn(s: TB.Spine, es: seq<Entry>, e: Entry)
    ensures TB.AppendAll(s, es + [e], TARGET) == TB.Append(TB.AppendAll(s, es, TARGET), e, TARGET)
    decreases |es|
  {
    hide TB.Append;
    if es == [] {
      assert ([] + [e])[1..] == [];
    } else {
      LoadedOn(TB.Append(s, es[0], TARGET), es[1..], e);
      assert (es + [e])[1..] == es[1..] + [e];
    }
  }

  /** A leaf takes one cell, so the next one starts a new leaf. */
  lemma NextLeaf(b: byte, up: seq<TB.Level>, c: byte)
    ensures TB.Append(TB.Open([Widest(b)], up), Widest(c), TARGET) ==
            TB.Open([Widest(c)], TB.Promote(up, L(b), K(c), TARGET))
  {
    hide Widest, EntryCost, Storable, LeafUsed, TB.Promote;
    EqualCosts([Widest(b)], 1023);
  }

  /** A page without separators takes one more child, and a page with one does not. */
  lemma Opens(up: seq<TB.Level>, l: Tree, c: byte)
    ensures TB.Promote([TB.Level([], [])] + up, l, K(c), TARGET) == [TB.Level([K(c)], [l])] + up
  {
    hide Widest;
    assert ([TB.Level([], [])] + up)[1..] == up && [] + [K(c)] == [K(c)] && [] + [l] == [l];
  }

  lemma Rolls(b: byte, ts: seq<Tree>, up: seq<TB.Level>, l: Tree, c: byte)
    ensures TB.Promote([TB.Level([K(b)], ts)] + up, l, K(c), TARGET)
            == [TB.Level([], [])] + TB.Promote(up, Node([K(b)], ts + [l]), K(c), TARGET)
  {
    hide Widest, NodeUsed, EntryCost, Storable;
    NoSeparators(K(b));
    assert ([TB.Level([K(b)], ts)] + up)[1..] == up;
  }

  lemma Tops(l: Tree, c: byte)
    ensures TB.Promote([], l, K(c), TARGET) == [TB.Level([K(c)], [l])]
  {
  }

  function Pair(b: byte, c: byte): Tree { Node([K(c)], [L(b), L(c)]) }

  lemma LoadTwo()
    ensures TB.AppendAll(TB.Empty, [Widest(1), Widest(2)], TARGET) == TB.Open([Widest(2)], [TB.Level([K(2)], [L(1)])])
  {
    hide Widest, TB.Promote;
    assert [Widest(1), Widest(2)][1..] == [Widest(2)] && [Widest(2)][1..] == [];
    assert TB.Append(TB.Empty, Widest(1), TARGET) == TB.Open([Widest(1)], []);
    NextLeaf(1, [], 2);
    Tops(L(1), 2);
    hide TB.Append;
  }

  /** The third cell leaves the page above the last leaf without a separator. */
  lemma LoadThree()
    ensures TB.AppendAll(TB.Empty, [Widest(1), Widest(2), Widest(3)], TARGET)
            == TB.Open([Widest(3)], [TB.Level([], []), TB.Level([K(3)], [Pair(1, 2)])])
  {
    hide Widest, TB.Promote, TB.Append, TB.AppendAll;
    LoadTwo();
    assert [Widest(1), Widest(2)] + [Widest(3)] == [Widest(1), Widest(2), Widest(3)];
    LoadedOn(TB.Empty, [Widest(1), Widest(2)], Widest(3));
    NextLeaf(2, [TB.Level([K(2)], [L(1)])], 3);
    assert [TB.Level([K(2)], [L(1)])] + [] == [TB.Level([K(2)], [L(1)])];
    Rolls(2, [L(1)], [], L(2), 3);
    assert [L(1)] + [L(2)] == [L(1), L(2)];
    Tops(Pair(1, 2), 3);
    assert [TB.Level([], [])] + [TB.Level([K(3)], [Pair(1, 2)])] == [TB.Level([], []), TB.Level([K(3)], [Pair(1, 2)])];
  }

  lemma LoadFour()
    ensures TB.AppendAll(TB.Empty, [Widest(1), Widest(2), Widest(3), Widest(4)], TARGET)
            == TB.Open([Widest(4)], [TB.Level([K(4)], [L(3)]), TB.Level([K(3)], [Pair(1, 2)])])
  {
    hide Widest, TB.Promote, TB.Append, TB.AppendAll, Pair;
    LoadThree();
    var es, top := [Widest(1), Widest(2), Widest(3)], [TB.Level([K(3)], [Pair(1, 2)])];
    assert es + [Widest(4)] == [Widest(1), Widest(2), Widest(3), Widest(4)];
    LoadedOn(TB.Empty, es, Widest(4));
    assert [TB.Level([], []), TB.Level([K(3)], [Pair(1, 2)])] == [TB.Level([], [])] + top;
    NextLeaf(3, [TB.Level([], [])] + top, 4);
    Opens(top, L(3), 4);
    assert [TB.Level([K(4)], [L(3)])] + top == [TB.Level([K(4)], [L(3)]), TB.Level([K(3)], [Pair(1, 2)])];
  }

  /** The tall subtree that the first four cells end up in. */
  function Tall(): Tree { Node([K(3)], [Pair(1, 2), Pair(3, 4)]) }

  lemma LoadFive()
    ensures TB.AppendAll(TB.Empty, [Widest(1), Widest(2), Widest(3), Widest(4), Widest(5)], TARGET)
            == TB.Open([Widest(5)], [TB.Level([], []), TB.Level([], []), TB.Level([K(5)], [Tall()])])
  {
    hide Widest, TB.Promote, TB.Append, TB.AppendAll;
    LoadFour();
    var es, up := [Widest(1), Widest(2), Widest(3), Widest(4)], [TB.Level([K(3)], [Pair(1, 2)])];
    assert es + [Widest(5)] == [Widest(1), Widest(2), Widest(3), Widest(4), Widest(5)];
    LoadedOn(TB.Empty, es, Widest(5));
    assert [TB.Level([K(4)], [L(3)]), TB.Level([K(3)], [Pair(1, 2)])] == [TB.Level([K(4)], [L(3)])] + up;
    NextLeaf(4, [TB.Level([K(4)], [L(3)])] + up, 5);
    Rolls(4, [L(3)], up, L(4), 5);
    assert [L(3)] + [L(4)] == [L(3), L(4)];
    assert up + [] == up;
    Rolls(3, [Pair(1, 2)], [], Pair(3, 4), 5);
    assert [Pair(1, 2)] + [Pair(3, 4)] == [Pair(1, 2), Pair(3, 4)];
    Tops(Tall(), 5);
  }

  lemma LoadSix()
    ensures TB.AppendAll(TB.Empty, [Widest(1), Widest(2), Widest(3), Widest(4), Widest(5), Widest(6)], TARGET)
            == TB.Open([Widest(6)], [TB.Level([K(6)], [L(5)]), TB.Level([], []), TB.Level([K(5)], [Tall()])])
  {
    hide Widest, TB.Promote, TB.Append, TB.AppendAll, Tall;
    LoadFive();
    var es, up := [Widest(1), Widest(2), Widest(3), Widest(4), Widest(5)],
        [TB.Level([], []), TB.Level([K(5)], [Tall()])];
    assert es + [Widest(6)] == [Widest(1), Widest(2), Widest(3), Widest(4), Widest(5), Widest(6)];
    LoadedOn(TB.Empty, es, Widest(6));
    assert [TB.Level([], []), TB.Level([], []), TB.Level([K(5)], [Tall()])] == [TB.Level([], [])] + up;
    NextLeaf(5, [TB.Level([], [])] + up, 6);
    Opens(up, L(5), 6);
  }

  // ---- deleting ----

  lemma SameByte(k: Key)
    ensures ChildSlot([k], k) == 1
  {
    RankOrder(k, k);
    assert [k][1..] == [];
  }

  /** The last cell goes from a leaf of its own, whose page has no separator: the empty leaf takes its place. */
  lemma HandsUpLeaf(b: byte)
    ensures DeleteNode(Node([], [L(b)]), K(b)) == Done(Leaf([]))
  {
    hide Widest, Rank, DeleteNode, Repair;
    LastChild([], K(b));
    assert [] + [Widest(b)] == [Widest(b)];
    ErasesLast([], [L(b)], 0, [], Widest(b));
    assert WithChild([L(b)], 0, Leaf([])) == [Leaf([])];
    Sound.OnlyChild([], [Leaf([])], 0);
  }

  /** A delete can fail on a bulk-loaded tree: after loading three entries, deleting the last one tries to merge a
      leaf with an internal page. */
  lemma LoadedDeleteFails()
    ensures var s := TB.AppendAll(TB.Empty, [Widest(1), Widest(2), Widest(3)], TARGET);
      s.Open? && Hist.DeleteRoot(Hist.At(TB.Tree(s)), K(3)) == Hist.Broken
  {
    hide Widest, TB.AppendAll, DeleteNode, Repair, Rank, Pair;
    LoadThree();
    var last := Node([], [L(3)]);
    var up := [TB.Level([], []), TB.Level([K(3)], [Pair(1, 2)])];
    assert up[1..] == [TB.Level([K(3)], [Pair(1, 2)])] && up[1..][1..] == [] && [] + [L(3)] == [L(3)]
           && [Pair(1, 2)] + [last] == [Pair(1, 2), last];
    var t := Node([K(3)], [Pair(1, 2), last]);
    assert TB.Build(up[1..], last) == t;
    assert TB.Build(up, L(3)) == t;
    HandsUpLeaf(3);
    SameByte(K(3));
    UnfoldDelete([K(3)], t.kids, K(3));
    assert WithChild(t.kids, 1, Leaf([])) == [Pair(1, 2), Leaf([])];
    EmptyUnderfull([]);
    PairNode(1, 2);
    Sound.RepairLeafAmongNodes([K(3)], [Pair(1, 2), Leaf([])], 1);
    BrokenRoot(t, K(3));
  }

  lemma PairNode(b: byte, c: byte)
    ensures Pair(b, c).Node?
  {
  }

  lemma EmptyUnderfull(kids: seq<Tree>)
    ensures Underfull(Leaf([])) && Underfull(Node([], kids))
  {
  }

  lemma MergesTwo(k: Key, l: Tree, r: Tree, m: Tree)
    requires SameKind(l, r) && Joined(l, k, r) == m && Used(m) <= PAGE_SIZE && Cells(l) <= 4
    ensures Repair([k], [l, r], 1) == Done(Node([], [m]))
  {
    hide Used, Joined;
    assert [k][..0] + ([] + [k][1..]) == [] && [l, r][..0] + ([m] + [l, r][2..]) == [m];
  }

  /** Two leaves of one cell each: the last cell goes, and the leaves become one under a page without separators. */
  lemma LastOfTwo(b: byte, c: byte)
    requires b < c
    ensures DeleteNode(Pair(b, c), K(c)) == Done(Node([], [L(b)]))
  {
    hide Widest, Rank, DeleteNode, LeafUsed, EntryCost, Storable, Repair;
    SameByte(K(c));
    assert [] + [Widest(c)] == [Widest(c)];
    ErasesLast([K(c)], [L(b), L(c)], 1, [], Widest(c));
    assert WithChild([L(b), L(c)], 1, Leaf([])) == [L(b), Leaf([])];
    EqualCosts([Widest(b)], 1023);
    assert [Widest(b)] + [] == [Widest(b)];
    MergesTwo(K(c), L(b), Leaf([]), L(b));
  }

  /** ... and that page, handed up by a page that has no separator either, is merged with a taller sibling. */
  lemma MergesLow(low: Tree)
    requires low == Node([], [L(5)])
    ensures Repair([K(5)], [Tall(), low], 1) == Done(Node([], [Node([K(3), K(5)], [Pair(1, 2), Pair(3, 4), L(5)])]))
  {
    hide Widest, NodeUsed, Storable, EntryCost, Pair, Repair;
    assert [K(3)] + [K(5)] + [] == [K(3), K(5)] && [Pair(1, 2), Pair(3, 4)] + [L(5)] == [Pair(1, 2), Pair(3, 4), L(5)];
    TwoSeparators(K(3), K(5));
    MergesTwo(K(5), Tall(), low, Node([K(3), K(5)], [Pair(1, 2), Pair(3, 4), L(5)]));
  }

  lemma TwoSeparators(a: Key, b: Key)
    requires |a| <= MAX_KEY && |b| <= MAX_KEY
    ensures NodeUsed([a, b]) <= PAGE_SIZE
  {
    assert SepCosts([a, b]) == [SepCost(a), SepCost(b)];
    assert [SepCost(a), SepCost(b)][1..] == [SepCost(b)];
    SumOne(SepCost(b));
  }

  /** Or a delete completes, with a tree that is no longer well formed: after loading six entries, deleting the last
      one puts a leaf beside internal pages. */
  lemma LoadedDeleteUneven()
    ensures var s := TB.AppendAll(TB.Empty, [Widest(1), Widest(2), Widest(3), Widest(4), Widest(5), Widest(6)], TARGET);
      var d := if s.Open? then Hist.DeleteRoot(Hist.At(TB.Tree(s)), K(6)) else Hist.Broken;
      && d == Hist.Removed(Hist.At(Node([K(3), K(5)], [Pair(1, 2), Pair(3, 4), L(5)])))
      && Sound.Uneven(d.root.t) && !Hist.RootWf(d.root, ANY)
  {
    hide Widest, TB.AppendAll, DeleteNode, Repair, Rank, Pair, Tall, Sound.Uneven, Hist.RootWf, Hist.DeleteRoot;
    LoadSix();
    var low, tall := Node([], [L(5)]), Tall();
    PairIs(5, 6);
    var up := [TB.Level([K(6)], [L(5)]), TB.Level([], []), TB.Level([K(5)], [tall])];
    var mid := Node([], [Pair(5, 6)]);
    var t := Node([K(5)], [tall, mid]);
    assert up[1..] == [TB.Level([], []), TB.Level([K(5)], [tall])] && up[1..][1..] == [TB.Level([K(5)], [tall])]
           && up[1..][1..][1..] == [];
    assert [L(5)] + [L(6)] == [L(5), L(6)] && [] + [Pair(5, 6)] == [Pair(5, 6)] && [tall] + [mid] == [tall, mid];
    assert TB.Build(up[1..][1..], mid) == t;
    assert TB.Build(up[1..], Pair(5, 6)) == t;
    assert TB.Build(up, L(6)) == t;
    LastOfTwo(5, 6);
    HandsUp(Pair(5, 6), low, K(6));
    AfterFive();
    UnfoldDelete([K(5)], t.kids, K(6));
    assert WithChild(t.kids, 1, low) == [tall, low];
    EmptyUnderfull([L(5)]);
    MergesLow(low);
    Hist.UnfoldDeleteRoot(t, K(6));
    UnevenResult();
  }

  lemma PairIs(b: byte, c: byte)
    ensures Pair(b, c) == Node([K(c)], [L(b), L(c)])
  {
  }

  lemma HandsUp(t: Tree, u: Tree, k: Key)
    requires DeleteNode(t, k) == Done(u) && u.Node? && u.keys == []
    ensures DeleteNode(Node([], [t]), k) == Done(u)
  {
    hide DeleteNode;
    UnfoldDelete([], [t], k);
    EmptyUnderfull(u.kids);
    assert WithChild([t], 0, u) == [u];
    Sound.OnlyChild([], [u], 0);
  }

  lemma AfterFive()
    ensures ChildSlot([K(5)], K(6)) == 1
  {
    hide Widest, Rank;
    LastChild([K(5)], K(6));
  }

  lemma UnevenResult()
    ensures var t := Node([K(3), K(5)], [Pair(1, 2), Pair(3, 4), L(5)]);
      Sound.Uneven(t) && !Hist.RootWf(Hist.At(t), ANY)
  {
    hide Widest, Wf;
    var t := Node([K(3), K(5)], [Pair(1, 2), Pair(3, 4), L(5)]);
    forall g: nat ensures !Sound.Even(t, g) {
      if Sound.Even(t, g) {
        assert Sound.Even(t.kids[0], g - 1) && Sound.Even(t.kids[2], g - 1);
      }
    }
    if Hist.RootWf(Hist.At(t), ANY) { Sound.WfEven(t, ANY, Hist.Height(t), LOWEST, HIGHEST); }
  }
}
