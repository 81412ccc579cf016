/** Histories that end in a delete that fails: from an empty tree, by ordinary writes, to each way a repair can
    exceed its page. */
module TreeLimits {
  import opened Keys
  import opened OrderedMap
  import opened Layout
  import opened Trees
  import Upd = TreeUpdate
  import opened TreeDelete
  import opened TreeCapacity
  import opened TreeHistory

  /** A cell with a key of n bytes that starts with b, and a value of v bytes. */
  function Cell(b: byte, n: nat, v: nat): (e: Entry)
    requires n > 0
    ensures |e.key| == n && e.key[0] == b && |e.value| == v
  {
    Entry([b] + seq(n - 1, _ => 0), seq(v, _ => 0))
  }

  // ---- histories ----

  /** A tree that some history of storable writes and deletes builds. */
  ghost predicate Built(r: Root) {
    exists ops: seq<Op> :: (forall op :: op in ops ==> OpOk(op, ANY)) && Run(Empty, ops) == Intact(r)
  }

  lemma {:induction false} RunOn(r: Root, ops: seq<Op>, op: Op)
    requires Run(r, ops).Intact?
    ensures Run(r, ops + [op]) == Step(Run(r, ops).root, op)
    decreases |ops|
  {
    hide Step;
    if ops == [] {
      assert (ops + [op])[1..] == [];
    } else {
      RunOn(Step(r, ops[0]).root, ops[1..], op);
      assert (ops + [op])[1..] == ops[1..] + [op];
    }
  }

  lemma BuiltOn(r: Root, op: Op, r': Root)
    requires Built(r) && OpOk(op, ANY) && Step(r, op) == Intact(r')
    ensures Built(r')
  {
    var ops :| (forall op :: op in ops ==> OpOk(op, ANY)) && Run(Empty, ops) == Intact(r);
    hide Step, OpOk, Run;
    RunOn(Empty, ops, op);
    assert forall x :: x in ops + [op] ==> OpOk(x, ANY);
  }

  /** A delete that fails on a tree that was built is a failing end of a history, of a key that is there. */
  lemma Fails(r: Root, k: Key)
    requires Built(r) && DeleteRoot(r, k) == Broken
    ensures Has(Contents(r), k) && RootOk(r, ANY)
    ensures exists ops: seq<Op> :: (forall op :: op in ops ==> OpOk(op, ANY)) && Run(Empty, ops) == Damaged
  {
    var ops :| (forall op :: op in ops ==> OpOk(op, ANY)) && Run(Empty, ops) == Intact(r);
    assert RootOk(Empty, ANY);
    RunRefines(Empty, ANY, ops);
    DeleteRootRefines(r, ANY, k);
    RunOn(Empty, ops, Erase(k));
    hide Run, RootWf, RootDense, DeleteRoot, Has, Contents;
    assert forall op :: op in ops + [Erase(k)] ==> OpOk(op, ANY);
    assert Run(Empty, ops + [Erase(k)]) == Damaged;
  }

  // ---- writing at the right end ----

  /** Every key starts with a byte below b. */
  ghost predicate Under(keys: seq<Key>, b: int) { forall i :: 0 <= i < |keys| ==> keys[i] != [] && keys[i][0] < b }

  ghost predicate EntriesUnder(es: seq<Entry>, b: int) {
    forall i :: 0 <= i < |es| ==> es[i].key != [] && es[i].key[0] < b
  }

  lemma {:induction false} LastSlot(es: seq<Entry>, k: Key)
    requires k != [] && EntriesUnder(es, k[0])
    ensures LeafSlot(es, k) == |es|
  {
    if es != [] { LastSlot(es[1..], k); }
  }

  lemma {:induction false} LastChild(keys: seq<Key>, k: Key)
    requires k != [] && Under(keys, k[0])
    ensures ChildSlot(keys, k) == |keys|
  {
    if keys != [] { LastChild(keys[1..], k); }
  }

  /** A leaf that gets one more cell at its end: one leaf, or two cut at s. */
  lemma LeafGets(es: seq<Entry>, e: Entry)
    requires e.key != [] && EntriesUnder(es, e.key[0])
    ensures Upd.UpdateNode(Leaf(es), e.key, e.value, Upd.Upsert) == Upd.Changed(Upd.GrowLeaf(es + [e]))
  {
    LastSlot(es, e.key);
    assert es[..|es|] == es && es[|es|..] == [];
    assert es[..|es|] + [Entry(e.key, e.value)] + es[|es|..] == es + [e];
    hide Upd.GrowLeaf, LeafSlot;
  }

  /** The tree at the right end of which the writes of these histories happen. */
  function Right(keys: seq<Key>, front: seq<Tree>, es: seq<Entry>): Root {
    if keys == [] && front == [] then At(Leaf(es)) else At(Node(keys, front + [Leaf(es)]))
  }

  ghost predicate Ready(keys: seq<Key>, front: seq<Tree>, es: seq<Entry>, e: Entry) {
    && |front| == |keys| && e.key != [] && Under(keys, e.key[0]) && EntriesUnder(es, e.key[0]) && Storable(e, ANY)
    && NodeUsed(keys) <= PAGE_SIZE && Built(Right(keys, front, es))
  }

  lemma NodeGets(keys: seq<Key>, front: seq<Tree>, es: seq<Entry>, e: Entry)
    requires |front| == |keys| > 0 && e.key != [] && Under(keys, e.key[0]) && EntriesUnder(es, e.key[0])
    ensures var g := Upd.GrowLeaf(es + [e]);
      Upd.UpdateNode(Node(keys, front + [Leaf(es)]), e.key, e.value, Upd.Upsert) ==
      Upd.Changed(if g.One? then Upd.GrowNode(keys, front + [g.t])
                  else Upd.GrowNode(keys + [g.sep], front + [g.left, g.right]))
  {
    var kids, n := front + [Leaf(es)], |keys|;
    LastChild(keys, e.key);
    LeafGets(es, e);
    Upd.UnfoldUpdate(keys, kids, e.key, e.value, Upd.Upsert);
    hide Upd.GrowLeaf, Upd.GrowNode, Upd.UpdateNode, ChildSlot;
    var g := Upd.GrowLeaf(es + [e]);
    assert kids[n] == Leaf(es);
    EndParts(keys, front, Leaf(es), g);
  }

  lemma EndParts(keys: seq<Key>, front: seq<Tree>, last: Tree, g: Upd.Grown)
    requires |front| == |keys|
    ensures var kids, n := front + [last], |keys|;
      && (g.One? ==> Upd.Separators'(keys, n, g) == keys && Upd.Children'(kids, n, g) == front + [g.t])
      && (g.Two? ==>
          Upd.Separators'(keys, n, g) == keys + [g.sep] && Upd.Children'(kids, n, g) == front + [g.left, g.right])
  {
    var kids, n := front + [last], |keys|;
    assert kids[..n] == front && kids[n + 1..] == [];
    assert keys[..n] == keys && keys[n..] == [];
  }

  /** The cell fits: the last leaf gets it. */
  lemma Fits(keys: seq<Key>, front: seq<Tree>, es: seq<Entry>, e: Entry)
    requires Ready(keys, front, es, e) && LeafUsed(es + [e]) <= PAGE_SIZE
    ensures Built(Right(keys, front, es + [e]))
  {
    hide Built, Storable, NodeUsed, LeafUsed, Upd.UpdateNode;
    StorableKey(e);
    var op := Write(e.key, e.value, Upd.Upsert);
    if keys == [] {
      LeafGets(es, e);
    } else {
      NodeGets(keys, front, es, e);
    }
    BuiltOn(Right(keys, front, es), op, Right(keys, front, es + [e]));
  }

  lemma StorableKey(e: Entry)
    requires Storable(e, ANY)
    ensures |e.key| <= MAX_KEY && OpOk(Write(e.key, e.value, Upd.Upsert), ANY)
  {
  }

  /** The cell does not fit: the last leaf splits, and its right half's first key moves up. */
  lemma Splits(keys: seq<Key>, front: seq<Tree>, es: seq<Entry>, e: Entry, s: nat)
    requires Ready(keys, front, es, e) && LeafUsed(es + [e]) > PAGE_SIZE
             && s == LeafSplit(EntryCosts(es + [e])) < |es| + 1
    requires NodeUsed(keys + [(es + [e])[s].key]) <= PAGE_SIZE
    ensures var all := es + [e];
      Built(Right(keys + [all[s].key], front + [Leaf(all[..s])], all[s..]))
  {
    hide Built, Storable, NodeUsed, LeafUsed, Upd.UpdateNode, LeafSplit;
    StorableKey(e);
    var all, op := es + [e], Write(e.key, e.value, Upd.Upsert);
    var l, u := Leaf(all[..s]), Leaf(all[s..]);
    if keys == [] {
      LeafGets(es, e);
      assert keys + [all[s].key] == [all[s].key] && front + [l] == [l] && [l] + [u] == [l, u];
    } else {
      NodeGets(keys, front, es, e);
      assert front + [l, u] == front + [l] + [u];
    }
    BuiltOn(Right(keys, front, es), op, Right(keys + [all[s].key], front + [l], all[s..]));
  }

  lemma Start(e: Entry)
    requires Storable(e, ANY)
    ensures Built(Right([], [], [e]))
  {
    hide Storable;
    StorableKey(e);
    assert Run(Empty, []) == Intact(Empty);
    hide Run;
    assert Built(Empty);
    hide Built;
    BuiltOn(Empty, Write(e.key, e.value, Upd.Upsert), At(Leaf([e])));
  }

  // ---- sizes of lists of equal cells ----

  ghost predicate Costs(es: seq<Entry>, c: nat) { forall i :: 0 <= i < |es| ==> EntryCost(es[i]) == c }

  lemma {:induction false} EqualCosts(es: seq<Entry>, c: nat)
    requires Costs(es, c)
    ensures Sum(EntryCosts(es)) == |es| * c && LeafUsed(es) == 5 + |es| * c
    decreases |es|
  {
    hide EntryCost;
    if es == [] {
      assert EntryCosts(es) == [];
    } else {
      EqualCosts(es[1..], c);
      assert EntryCosts(es)[1..] == EntryCosts(es[1..]);
      assert |es| * c == c + (|es| - 1) * c;
    }
  }

  /** Five equal cells are cut three to two. */
  lemma FiveCells(es: seq<Entry>, c: nat)
    requires |es| == 5 && Costs(es, c) && c > 0
    ensures LeafSplit(EntryCosts(es)) == 3
  {
    hide EntryCost;
    EqualCosts(es, c);
    var cs := EntryCosts(es);
    var t := Sum(cs) / 2;
    assert 2 * c <= t < 3 * c;
    hide Sum;
    assert cs[1..][1..] == cs[2..];
    assert FirstOver(cs[2..], t, 2 * c) == 0;
    assert FirstOver(cs[1..], t, c) == 1;
    assert FirstOver(cs, t, 0) == 2;
  }

  // ---- merge ----

  /** A cell of 1017 bytes: four fit in a leaf, five do not. */
  function Wide(b: byte): (e: Entry)
    ensures e.key == [b] && EntryCost(e) == 1017 && Storable(e, ANY)
  {
    assert [b] + seq(0, _ => 0) == [b];
    Cell(b, 1, 1009)
  }

  /** Six writes: two leaves of three wide cells each. */
  lemma WideBuilt()
    ensures Built(Right([[4]], [Leaf([Wide(1), Wide(2), Wide(3)])], [Wide(4), Wide(5), Wide(6)]))
  {
    hide Built, Wide, Storable, EntryCost, LeafUsed, NodeUsed, LeafSplit, Sum;
    var a, b, c, d, e, f := Wide(1), Wide(2), Wide(3), Wide(4), Wide(5), Wide(6);
    NoSeparators([4]);
    Start(a);
    EqualCosts([a] + [b], 1017);
    Fits([], [], [a], b);
    EqualCosts([a, b] + [c], 1017);
    assert [a] + [b] == [a, b];
    Fits([], [], [a, b], c);
    EqualCosts([a, b, c] + [d], 1017);
    assert [a, b] + [c] == [a, b, c];
    Fits([], [], [a, b, c], d);
    assert [a, b, c] + [d] == [a, b, c, d];
    var all := [a, b, c, d] + [e];
    EqualCosts(all, 1017);
    FiveCells(all, 1017);
    Splits([], [], [a, b, c, d], e, 3);
    assert all[..3] == [a, b, c] && all[3..] == [d, e] && [] + [[4]] == [[4]]
           && [] + [Leaf([a, b, c])] == [Leaf([a, b, c])];
    EqualCosts([d, e] + [f], 1017);
    Fits([[4]], [Leaf([a, b, c])], [d, e], f);
    assert [d, e] + [f] == [d, e, f];
  }

  lemma NoSeparators(k: Key)
    requires |k| <= MAX_KEY
    ensures NodeUsed([]) == 13 && NodeUsed([k]) == 13 + SepCost(k) && NodeUsed([k]) <= PAGE_SIZE && [] + [k] == [k]
  {
    assert SepCosts([]) == [];
    assert SepCosts([k]) == [SepCost(k)];
    SumOne(SepCost(k));
  }

  /** Deleting the last cell of a leaf that is then underfull hands the rest to the repair. */
  lemma ErasesLast(keys: seq<Key>, kids: seq<Tree>, c: nat, es: seq<Entry>, e: Entry)
    requires |kids| == |keys| + 1 && c < |kids| && kids[c] == Leaf(es + [e]) && e.key != []
             && EntriesUnder(es, e.key[0])
    requires ChildSlot(keys, e.key) == c && |es| < MIN_CELLS
    ensures DeleteNode(Node(keys, kids), e.key) == Repair(keys, WithChild(kids, c, Leaf(es)), c)
  {
    UnfoldDelete(keys, kids, e.key);
    var all := es + [e];
    SlotOfLast(es, e);
    assert all[..|es|] + all[|es| + 1..] == es;
    hide Repair, ChildSlot, LeafSlot;
  }

  lemma {:induction false} SlotOfLast(es: seq<Entry>, e: Entry)
    requires e.key != [] && EntriesUnder(es, e.key[0])
    ensures LeafSlot(es + [e], e.key) == |es|
  {
    if es == [] {
      RankOrder(e.key, e.key);
    } else {
      assert (es + [e])[1..] == es[1..] + [e];
      SlotOfLast(es[1..], e);
    }
  }

  lemma BrokenRoot(t: Tree, k: Key)
    requires DeleteNode(t, k) == Overflow
    ensures DeleteRoot(At(t), k) == Broken
  {
    hide DeleteNode;
  }

  /** ... and deleting the last cell leaves two that would have to go into a page with the other three. */
  lemma WideBreaks(t: Tree)
    requires t == Node([[4]], [Leaf([Wide(1), Wide(2), Wide(3)]), Leaf([Wide(4), Wide(5), Wide(6)])])
    ensures DeleteNode(t, [6]) == Overflow
  {
    hide Wide, LeafUsed, Storable, EntryCost, DeleteNode, Merge, Rank;
    var l, es := [Wide(1), Wide(2), Wide(3)], [Wide(4), Wide(5)];
    assert es + [Wide(6)] == [Wide(4), Wide(5), Wide(6)];
    LastChild([[4]], [6]);
    ErasesLast([[4]], t.kids, 1, es, Wide(6));
    var kids := [Leaf(l), Leaf(es)];
    assert WithChild(t.kids, 1, Leaf(es)) == kids;
    EqualCosts(l, 1017);
    EqualCosts(es, 1017);
    MergeExactly([[4]], kids, 0);
  }

  /** Delete is not total: six writes and a delete end in a merge that exceeds its page. */
  lemma MergeCanOverflow()
    ensures exists ops: seq<Op> :: (forall op :: op in ops ==> OpOk(op, ANY)) && Run(Empty, ops) == Damaged
    ensures exists r: Root, k: Key ::
              Built(r) && Has(Contents(r), k) && DeleteRoot(r, k) == Broken
              && r.At? && r.t.Node? && |r.t.kids| == 2 && !CanDonate(r.t.kids[0]) && !CanDonate(r.t.kids[1])
  {
    hide Built, Wide, Has, Contents, DeleteRoot, DeleteNode, RootOk, Run, OpOk, LeafUsed, EntryCost;
    WideBuilt();
    var t := Node([[4]], [Leaf([Wide(1), Wide(2), Wide(3)]), Leaf([Wide(4), Wide(5), Wide(6)])]);
    assert [Leaf([Wide(1), Wide(2), Wide(3)])] + [Leaf([Wide(4), Wide(5), Wide(6)])] == t.kids;
    WideBreaks(t);
    BrokenRoot(t, [6]);
    Fails(At(t), [6]);
  }

  // ---- borrow ----

  /** The largest cell there is, 1023 bytes: a key of 1008 bytes and an overflowing value. */
  function Widest(b: byte): (e: Entry)
    ensures |e.key| == MAX_KEY && e.key[0] == b && EntryCost(e) == 1023 && Storable(e, ANY)
  {
    Cell(b, MAX_KEY, 10)
  }

  function Narrow(b: byte, v: nat): (e: Entry)
    requires v <= 1000
    ensures e.key == [b] && EntryCost(e) == 8 + v && Storable(e, ANY)
  {
    assert [b] + seq(0, _ => 0) == [b];
    Cell(b, 1, v)
  }

  lemma OneMore(es: seq<Entry>, e: Entry)
    ensures LeafUsed(es + [e]) == LeafUsed(es) + EntryCost(e)
            && Sum(EntryCosts(es + [e])) == Sum(EntryCosts(es)) + EntryCost(e)
  {
    hide Sum, EntryCost;
    EntryCostsAppend(es, [e]);
    assert EntryCosts([e]) == [EntryCost(e)];
    SumOne(EntryCost(e));
  }

  /** Four narrow cells of c bytes at the left of a leaf. */
  function Fours(v: nat): seq<Entry>
    requires v <= 1000
  {
    [Narrow(1, v), Narrow(2, v), Narrow(3, v), Narrow(4, v)]
  }

  lemma FoursBuilt(v: nat)
    requires v <= 260
    ensures Built(Right([], [], Fours(v))) && LeafUsed(Fours(v)) == 5 + 4 * (8 + v) && EntriesUnder(Fours(v), 5)
            && |Fours(v)| == 4
    ensures Costs(Fours(v), 8 + v)
  {
    hide Built, Narrow, Storable, EntryCost, LeafUsed, NodeUsed, Sum;
    var a, b, c, d := Narrow(1, v), Narrow(2, v), Narrow(3, v), Narrow(4, v);
    NoSeparators([]);
    Start(a);
    EqualCosts([a] + [b], 8 + v);
    Fits([], [], [a], b);
    EqualCosts([a, b] + [c], 8 + v);
    assert [a] + [b] == [a, b];
    Fits([], [], [a, b], c);
    EqualCosts([a, b, c] + [d], 8 + v);
    assert [a, b] + [c] == [a, b, c];
    Fits([], [], [a, b, c], d);
    assert [a, b, c] + [d] == [a, b, c, d];
    EqualCosts([a, b, c, d], 8 + v);
  }

  lemma FoursThen(cs: seq<nat>, c: nat, t: nat)
    requires |cs| > 4 && cs[0] == cs[1] == cs[2] == cs[3] == c && 4 * c <= t
    ensures FirstOver(cs, t, 0) == 4 + FirstOver(cs[4..], t, 4 * c)
  {
    assert cs[1..][1..] == cs[2..] && cs[2..][1..] == cs[3..] && cs[3..][1..] == cs[4..];
    assert FirstOver(cs[3..], t, 3 * c) == 1 + FirstOver(cs[4..], t, 4 * c);
    assert FirstOver(cs[2..], t, 2 * c) == 2 + FirstOver(cs[4..], t, 4 * c);
    assert FirstOver(cs[1..], t, c) == 3 + FirstOver(cs[4..], t, 4 * c);
  }

  /** What is left of the cut when four cells of c bytes come first, then cells of a bytes. */
  lemma CutAfterFours(es: seq<Entry>, c: nat, a: nat)
    requires |es| > 6 && Costs(es[..4], c) && EntryCost(es[4]) == EntryCost(es[5]) == a
    requires 4 * c <= Sum(EntryCosts(es)) / 2
    ensures 4 * c + a > Sum(EntryCosts(es)) / 2 ==> LeafSplit(EntryCosts(es)) == 5
    ensures 4 * c + a <= Sum(EntryCosts(es)) / 2 < 4 * c + 2 * a ==> LeafSplit(EntryCosts(es)) == 6
  {
    hide EntryCost, Sum;
    var cs, t := EntryCosts(es), Sum(EntryCosts(es)) / 2;
    assert forall i :: 0 <= i < 4 ==> es[..4][i] == es[i];
    FoursThen(cs, c, t);
    assert cs[4..][0] == a && cs[4..][1..] == cs[5..] && cs[5..][0] == EntryCost(es[5]);
  }

  /** Ten writes: a leaf of four narrow and two largest cells, and one of three largest and a narrow one. */
  lemma BorrowBuilt()
    ensures Built(Right([Widest(7).key], [Leaf(Fours(2) + [Widest(5), Widest(6)])],
                        [Widest(7), Widest(8), Widest(9), Narrow(10, 0)]))
  {
    hide Built, Narrow, Widest, Storable, EntryCost, LeafUsed, NodeUsed, LeafSplit, Sum, Fours;
    var f, a, b, c, d, e, x := Fours(2), Widest(5), Widest(6), Widest(7), Widest(8), Widest(9), Narrow(10, 0);
    NoSeparators(c.key);
    FoursBuilt(2);
    var l1, l2, l3 := f + [a], f + [a] + [b], f + [a] + [b] + [c];
    OneMore(f, a);
    Fits([], [], f, a);
    OneMore(l1, b);
    Fits([], [], l1, b);
    OneMore(l2, c);
    Fits([], [], l2, c);
    OneMore(l3, d);
    var all := l3 + [d];
    BorrowCut(all, f, a, b, c, d);
    Splits([], [], l3, d, 6);
    assert all[..6] == f + [a, b] && all[6..] == [c, d] && [] + [Leaf(f + [a, b])] == [Leaf(f + [a, b])];
    var front := [Leaf(f + [a, b])];
    EqualCosts([c, d] + [e], 1023);
    Fits([c.key], front, [c, d], e);
    assert [c, d] + [e] == [c, d, e];
    OneMore([c, d, e], x);
    Fits([c.key], front, [c, d, e], x);
    assert [c, d, e] + [x] == [c, d, e, x];
  }

  lemma BorrowCut(all: seq<Entry>, f: seq<Entry>, a: Entry, b: Entry, c: Entry, d: Entry)
    requires all == f + [a] + [b] + [c] + [d] && |f| == 4 && Costs(f, 10)
    requires EntryCost(a) == EntryCost(b) == EntryCost(c) == EntryCost(d) == 1023
    ensures LeafSplit(EntryCosts(all)) == 6 && all[6] == c && LeafUsed(all) == 4137
  {
    hide EntryCost, LeafSplit;
    EqualCosts(f, 10);
    OneMore(f, a);
    OneMore(f + [a], b);
    OneMore(f + [a] + [b], c);
    OneMore(f + [a] + [b] + [c], d);
    hide Sum;
    assert all[..4] == f;
    CutAfterFours(all, 10, 1023);
  }

  lemma BorrowBreaks(t: Tree)
    requires t == Node([Widest(7).key], [Leaf(Fours(2) + [Widest(5), Widest(6)]),
                                         Leaf([Widest(7), Widest(8), Widest(9), Narrow(10, 0)])])
    ensures DeleteNode(t, [10]) == Overflow && CanDonate(t.kids[0])
  {
    hide Narrow, Widest, Storable, EntryCost, DeleteNode, Rebalance, Rank, Sum, Fours;
    var f, a, b, es := Fours(2), Widest(5), Widest(6), [Widest(7), Widest(8), Widest(9)];
    FoursBuilt(2);
    var l := f + [a, b];
    assert f + [a] + [b] == l;
    EqualCosts(f, 10);
    OneMore(f, a);
    OneMore(f + [a], b);
    EqualCosts(es, 1023);
    assert es + [Narrow(10, 0)] == [Widest(7), Widest(8), Widest(9), Narrow(10, 0)];
    var k := Widest(7).key;
    LastChild([k], [10]);
    ErasesLast([k], t.kids, 1, es, Narrow(10, 0));
    var kids := [Leaf(l), Leaf(es)];
    assert WithChild(t.kids, 1, Leaf(es)) == kids;
    assert l[5] == b;
    BorrowLeftExactly([k], kids, 0);
  }

  /** Four cells of the largest size exceed a leaf by one byte, so ten writes and a delete end in a borrow that
      fails although the sibling can donate. */
  lemma BorrowCanOverflow()
    ensures exists r: Root, k: Key ::
              Built(r) && Has(Contents(r), k) && DeleteRoot(r, k) == Broken && r.At? && r.t.Node? && |r.t.kids| == 2
                  && CanDonate(r.t.kids[0])
  {
    hide Built, Widest, Narrow, Fours, Has, Contents, DeleteRoot, DeleteNode, RootOk, Run, OpOk, LeafUsed, EntryCost,
         CanDonate;
    BorrowBuilt();
    var l, u := Leaf(Fours(2) + [Widest(5), Widest(6)]), Leaf([Widest(7), Widest(8), Widest(9), Narrow(10, 0)]);
    var t := Node([Widest(7).key], [l, u]);
    assert [l] + [u] == t.kids;
    BorrowBreaks(t);
    BrokenRoot(t, [10]);
    Fails(At(t), [10]);
  }

  // ---- separator ----

  /** A cell of 1017 bytes with a key of 804: its separator costs 816 bytes, and five fit in a page. */
  function Mid(b: byte): (e: Entry)
    ensures |e.key| == 804 && e.key[0] == b && EntryCost(e) == 1017 && Storable(e, ANY)
  {
    Cell(b, 804, 206)
  }

  ghost predicate Mids(keys: seq<Key>) { forall i :: 0 <= i < |keys| ==> |keys[i]| == 804 }

  lemma {:induction false} MidsUsed(keys: seq<Key>)
    requires Mids(keys)
    ensures NodeUsed(keys) == 13 + 816 * |keys|
    decreases |keys|
  {
    if keys == [] {
      assert SepCosts(keys) == [];
    } else {
      MidsUsed(keys[1..]);
      assert SepCosts(keys)[1..] == SepCosts(keys[1..]);
    }
  }

  /** Three more middling cells on a last leaf of two: it splits three to two. */
  lemma Triple(keys: seq<Key>, front: seq<Tree>, b: byte)
    requires |front| == |keys| < 5 && Mids(keys) && b < 200 && Under(keys, b + 1)
             && Built(Right(keys, front, [Mid(b), Mid(b + 1)]))
    ensures var keys', front' := keys + [Mid(b + 3).key], front + [Leaf([Mid(b), Mid(b + 1), Mid(b + 2)])];
      Mids(keys') && Under(keys', b + 4) && Built(Right(keys', front', [Mid(b + 3), Mid(b + 4)]))
  {
    hide Built, Mid, Storable, EntryCost, LeafUsed, NodeUsed, LeafSplit, Sum;
    var m0, m1, m2, m3, m4 := Mid(b), Mid(b + 1), Mid(b + 2), Mid(b + 3), Mid(b + 4);
    MidsUsed(keys);
    EqualCosts([m0, m1] + [m2], 1017);
    Fits(keys, front, [m0, m1], m2);
    assert [m0, m1] + [m2] == [m0, m1, m2];
    EqualCosts([m0, m1, m2] + [m3], 1017);
    Fits(keys, front, [m0, m1, m2], m3);
    assert [m0, m1, m2] + [m3] == [m0, m1, m2, m3];
    var all := [m0, m1, m2, m3] + [m4];
    EqualCosts(all, 1017);
    FiveCells(all, 1017);
    MidsUsed(keys + [m3.key]);
    Splits(keys, front, [m0, m1, m2, m3], m4, 3);
    assert all[..3] == [m0, m1, m2] && all[3..] == [m3, m4];
  }

  /** The leaf at the left: four narrow cells and one with the longest key. */
  function Donor(): seq<Entry> { Fours(260) + [Widest(5)] }

  /** Seven writes: the donor, and a leaf of two middling cells. */
  lemma DonorBuilt()
    ensures Built(Right([Mid(6).key], [Leaf(Donor())], [Mid(6), Mid(7)]))
  {
    hide Built, Narrow, Widest, Mid, Storable, EntryCost, LeafUsed, NodeUsed, LeafSplit, Sum, Fours;
    var f, a, m6, m7 := Fours(260), Widest(5), Mid(6), Mid(7);
    NoSeparators(m6.key);
    FoursBuilt(260);
    OneMore(f, a);
    Fits([], [], f, a);
    OneMore(f + [a], m6);
    Fits([], [], f + [a], m6);
    OneMore(f + [a] + [m6], m7);
    var all := f + [a] + [m6] + [m7];
    DonorCut(all, f, a, m6, m7);
    Splits([], [], f + [a] + [m6], m7, 5);
    assert all[..5] == f + [a] && all[5..] == [m6, m7] && [] + [Leaf(f + [a])] == [Leaf(f + [a])];
  }

  lemma DonorCut(all: seq<Entry>, f: seq<Entry>, a: Entry, b: Entry, c: Entry)
    requires all == f + [a] + [b] + [c] && |f| == 4 && Costs(f, 268)
    requires EntryCost(a) == 1023 && EntryCost(b) == EntryCost(c) == 1017
    ensures LeafSplit(EntryCosts(all)) == 5 && all[5] == b && LeafUsed(all) == 4134
  {
    hide EntryCost, LeafSplit;
    EqualCosts(f, 268);
    OneMore(f, a);
    OneMore(f + [a], b);
    OneMore(f + [a] + [b], c);
    assert all[..4] == f;
    hide Sum;
    DonorSplit(all, f);
  }

  lemma DonorSplit(all: seq<Entry>, f: seq<Entry>)
    requires |all| == 7 && all[..4] == f && Costs(f, 268) && EntryCost(all[4]) == 1023 && Sum(EntryCosts(all)) == 4129
    ensures LeafSplit(EntryCosts(all)) == 5
  {
    hide EntryCost, Sum;
    var cs := EntryCosts(all);
    assert forall i :: 0 <= i < 4 ==> f[i] == all[i];
    FoursThen(cs, 268, 2064);
    assert cs[4..][0] == 1023;
  }

  function Trio(b: byte): Tree
    requires b < 250
  {
    Leaf([Mid(b), Mid(b + 1), Mid(b + 2)])
  }

  function SepKeys(): seq<Key> { [Mid(6).key] + [Mid(9).key] + [Mid(12).key] + [Mid(15).key] + [Mid(18).key] }
  function SepKids(): seq<Tree> {
    [Leaf(Donor())] + [Trio(6)] + [Trio(9)] + [Trio(12)] + [Trio(15)] + [Leaf([Mid(18), Mid(19)])]
  }

  /** Nineteen writes: five separators that fill the root but for three bytes. */
  lemma SepBuilt()
    ensures Built(At(Node(SepKeys(), SepKids()))) && Mids(SepKeys())
  {
    hide Built, Mid, Donor;
    DonorBuilt();
    var k1, t1 := [Mid(6).key], [Leaf(Donor())];
    Triple(k1, t1, 6);
    var k2, t2 := k1 + [Mid(9).key], t1 + [Trio(6)];
    Triple(k2, t2, 9);
    var k3, t3 := k2 + [Mid(12).key], t2 + [Trio(9)];
    Triple(k3, t3, 12);
    var k4, t4 := k3 + [Mid(15).key], t3 + [Trio(12)];
    Triple(k4, t4, 15);
  }

  lemma SepBreaks()
    ensures DeleteNode(Node(SepKeys(), SepKids()), Mid(8).key) == Overflow && CanDonate(SepKids()[0])
  {
    hide Mid, Widest, Narrow, Storable, EntryCost, DeleteNode, Rebalance, Rank, Sum, Fours, NodeUsed, LeafUsed;
    var keys, kids, es, e := SepKeys(), SepKids(), [Mid(6), Mid(7)], Mid(8);
    assert es + [e] == [Mid(6), Mid(7), Mid(8)];
    SecondChild(keys, e.key);
    ErasesLast(keys, kids, 1, es, e);
    var kids' := WithChild(kids, 1, Leaf(es));
    assert |kids'| == 6 && kids'[0] == Leaf(Donor()) && kids'[1] == Leaf(es);
    DonorSize();
    MidsUsed(keys);
    EqualCosts(es, 1017);
    assert Donor()[4] == Widest(5);
    BorrowLeftExactly(keys, kids', 0);
  }

  lemma SecondChild(keys: seq<Key>, k: Key)
    requires keys == SepKeys() && k == Mid(8).key
    ensures ChildSlot(keys, k) == 1
  {
    hide Mid;
    assert keys[0] == Mid(6).key && keys[1..][0] == Mid(9).key;
  }

  lemma DonorSize()
    ensures |Donor()| == 5 && LeafUsed(Donor()) == 5 + 4 * 268 + 1023 && CanDonate(Leaf(Donor()))
  {
    hide Narrow, Widest, Storable, EntryCost, Fours, Sum;
    FoursBuilt(260);
    OneMore(Fours(260), Widest(5));
    assert Donor()[4] == Widest(5);
  }

  /** A borrow can also fail in the parent: the borrowed key is longer than the separator it replaces. Nineteen
      writes and a delete end so. */
  lemma SeparatorCanOverflow()
    ensures exists r: Root, k: Key ::
              Built(r) && Has(Contents(r), k) && DeleteRoot(r, k) == Broken && r.At? && r.t.Node? && |r.t.kids| == 6
                  && CanDonate(r.t.kids[0])
  {
    hide Built, Mid, Has, Contents, DeleteRoot, DeleteNode, RootOk, Run, OpOk, LeafUsed, EntryCost, CanDonate, Donor,
         SepKeys;
    SepBuilt();
    SepBreaks();
    var t := Node(SepKeys(), SepKids());
    BrokenRoot(t, Mid(8).key);
    Fails(At(t), Mid(8).key);
  }
}
