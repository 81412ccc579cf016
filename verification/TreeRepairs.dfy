/** Which pages a delete repairs, and how, told by counting cells and bytes. */
module TreeRepairs {
  import opened Keys
  import opened Layout
  import opened Trees
  import opened TreeDelete

  function Count(t: Tree): nat {
    match t
    case Leaf(es) => |es|
    case Node(keys, _) => |keys|
  }

  function Size(t: Tree): nat {
    match t
    case Leaf(es) => 5 + Sum(EntryCosts(es))
    case Node(keys, _) => 13 + Sum(SepCosts(keys))
  }

  function LastCell(t: Tree): nat
    requires Count(t) > 0
  {
    match t
    case Leaf(es) => EntryCost(es[|es| - 1])
    case Node(keys, _) => SepCost(keys[|keys| - 1])
  }

  /** Fewer than four cells, or less than a quarter of a page. */
  predicate Small(t: Tree) { Count(t) < 4 || Size(t) < 1024 }

  /** More than four cells, and a quarter of a page left without the last one. */
  predicate Spares(t: Tree) { Count(t) > 4 && Size(t) - LastCell(t) >= 1024 }

  lemma Tests(t: Tree)
    ensures Underfull(t) <==> Small(t)
    ensures CanDonate(t) <==> Spares(t)
    ensures Cells(t) == Count(t)
  {
    hide Sum;
  }

  /** One cell has gone from page a to its neighbour b; nothing else in the parent has changed but the separator
      between them. */
  ghost predicate Moved(keys: seq<Key>, kids: seq<Tree>, r: Tree, a: nat, b: nat) {
    && a < |kids| == |keys| + 1 && b < |kids| && (a == b + 1 || b == a + 1)
    && r.Node? && |r.keys| == |keys| && |r.kids| == |kids|
    && Count(r.kids[a]) + 1 == Count(kids[a]) && Count(r.kids[b]) == Count(kids[b]) + 1
    && (forall j :: 0 <= j < |kids| && j != a && j != b ==> r.kids[j] == kids[j])
    && (forall j :: 0 <= j < |keys| && j != (if a < b then a else b) ==> r.keys[j] == keys[j])
  }

  /** Pages i and i + 1 have become one with all their cells, and the separator between them has gone. */
  ghost predicate Merged(keys: seq<Key>, kids: seq<Tree>, r: Tree, i: nat) {
    && i < |keys| && |kids| == |keys| + 1
    && r.Node? && r.keys == keys[..i] + keys[i + 1..] && |r.kids| == |kids| - 1
    && r.kids[..i] == kids[..i] && r.kids[i + 1..] == kids[i + 2..]
    && Count(r.kids[i]) == Count(kids[i]) + Count(kids[i + 1]) + (if kids[i].Leaf? then 0 else 1)
  }

  lemma CutCounts(l: Tree, sep: Key, r: Tree, s: nat)
    requires SameKind(l, r) && s < Cells(Joined(l, sep, r))
    ensures var p := CutAt(Joined(l, sep, r), s);
      Count(p.left) == s && Count(p.left) + Count(p.right) == Count(l) + Count(r)
  {
  }

  lemma JoinedCounts(l: Tree, sep: Key, r: Tree)
    requires SameKind(l, r)
    ensures Count(Joined(l, sep, r)) == Count(l) + Count(r) + (if l.Leaf? then 0 else 1)
  {
  }

  lemma RebalanceMoves(keys: seq<Key>, kids: seq<Tree>, i: nat, s: nat)
    requires i < |keys| && |kids| == |keys| + 1 && Rebalance(keys, kids, i, s).Done?
    ensures s + 1 == Count(kids[i]) ==> Moved(keys, kids, Rebalance(keys, kids, i, s).t, i, i + 1)
    ensures s == Count(kids[i]) + 1 ==> Moved(keys, kids, Rebalance(keys, kids, i, s).t, i + 1, i)
  {
    hide Used, Joined, CutAt, SameKind, Count, Entries;
    JoinedEntries(kids[i], keys[i], kids[i + 1]);
    CutCounts(kids[i], keys[i], kids[i + 1], s);
    var p := CutAt(Joined(kids[i], keys[i], kids[i + 1]), s);
    PairAt(keys, kids, i, p);
  }

  lemma PairAt(keys: seq<Key>, kids: seq<Tree>, i: nat, p: Pair)
    requires i < |keys| && |kids| == |keys| + 1
    ensures var r := WithPair(keys, kids, i, p);
      && |r.keys| == |keys| && |r.kids| == |kids| && r.kids[i] == p.left && r.kids[i + 1] == p.right
      && (forall j :: 0 <= j < |kids| && j != i && j != i + 1 ==> r.kids[j] == kids[j])
      && (forall j :: 0 <= j < |keys| && j != i ==> r.keys[j] == keys[j])
  {
  }

  lemma MergeMerges(keys: seq<Key>, kids: seq<Tree>, i: nat)
    requires i < |keys| && |kids| == |keys| + 1 && Merge(keys, kids, i).Done?
    ensures Merged(keys, kids, Merge(keys, kids, i).t, i)
  {
    hide Used, Joined, SameKind, Count;
    JoinedCounts(kids[i], keys[i], kids[i + 1]);
    var r := Merge(keys, kids, i).t;
    assert r.keys == keys[..i] + keys[i + 1..];
    assert r.kids[..i] == kids[..i] && r.kids[i + 1..] == kids[i + 2..];
  }

  /** What becomes of an internal page once its child c is u: left alone with the new child in place unless that is
      small; otherwise a cell comes from the left neighbour if that can spare one, else from the right, else the
      child is merged with its left neighbour if it has one, else with its right, else it takes the page's place. */
  ghost predicate Repaired(keys: seq<Key>, kids: seq<Tree>, c: nat, r: Tree)
    requires c < |kids| == |keys| + 1
  {
    if !Small(kids[c]) then r == Node(keys, kids)
    else if c > 0 && Spares(kids[c - 1]) then Moved(keys, kids, r, c - 1, c)
    else if c < |keys| && Spares(kids[c + 1]) then Moved(keys, kids, r, c + 1, c)
    else if c > 0 then Merged(keys, kids, r, c - 1)
    else if c < |keys| then Merged(keys, kids, r, c)
    else r == kids[c]
  }

  lemma RepairRepairs(keys: seq<Key>, kids: seq<Tree>, c: nat)
    requires c < |kids| == |keys| + 1 && Small(kids[c]) && Repair(keys, kids, c).Done?
    ensures Repaired(keys, kids, c, Repair(keys, kids, c).t)
  {
    hide Small, Spares, CanDonate, Underfull, Rebalance, Merge, Moved, Merged, Count, Cells;
    if c > 0 {
      Tests(kids[c - 1]);
      if CanDonate(kids[c - 1]) {
        DonorCells(kids[c - 1]);
        RebalanceMoves(keys, kids, c - 1, Cells(kids[c - 1]) - 1);
        return;
      }
    }
    if c < |keys| {
      Tests(kids[c + 1]);
      if CanDonate(kids[c + 1]) {
        Tests(kids[c]);
        RebalanceMoves(keys, kids, c, Cells(kids[c]) + 1);
        return;
      }
    }
    if c > 0 {
      MergeMerges(keys, kids, c - 1);
    } else if c < |keys| {
      MergeMerges(keys, kids, c);
    }
  }

  /** Every internal page a delete passes on its way up, told without naming the program's own tests. The key belongs
      to child c, which the delete has turned into u. */
  lemma DeleteRepairs(keys: seq<Key>, kids: seq<Tree>, q: Limits, h: nat, lo: real, hi: real, k: Key, c: nat, u: Tree,
                      r: Tree)
    requires Wf(Node(keys, kids), q, h, lo, hi) && c <= |keys|
    requires (c > 0 ==> Rank(keys[c - 1]) <= Rank(k)) && (c < |keys| ==> Rank(k) < Rank(keys[c]))
    requires |kids| == |keys| + 1 && DeleteNode(kids[c], k) == Done(u) && DeleteNode(Node(keys, kids), k) == Done(r)
    ensures Repaired(keys, kids[c := u], c, r)
  {
    hide Rank, Wf, DeleteNode, Small, Spares, Moved, Merged, Underfull, Repair, ChildSlot, Count;
    WfNode(keys, kids, q, h, lo, hi, 0);
    SlotOf(keys, q, lo, hi, k, c);
    UnfoldDelete(keys, kids, k);
    assert WithChild(kids, c, u) == kids[c := u];
    Tests(u);
    if Underfull(u) { RepairRepairs(keys, kids[c := u], c); }
  }

  lemma SlotOf(keys: seq<Key>, q: Limits, lo: real, hi: real, k: Key, c: nat)
    requires Separators(keys, q, lo, hi) && c <= |keys|
    requires (c > 0 ==> Rank(keys[c - 1]) <= Rank(k)) && (c < |keys| ==> Rank(k) < Rank(keys[c]))
    ensures ChildSlot(keys, k) == c
  {
    ChildSlotBounds(keys, k);
    hide Rank, ChildSlot;
    var s := ChildSlot(keys, k);
  }
}
