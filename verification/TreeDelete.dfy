/** What Delete does to a tree, as a function on trees, and the proof that it refines map removal. */
module TreeDelete {
  import opened Keys
  import opened OrderedMap
  import opened Layout
  import opened Trees
  import Seqs

  /** Overflow stands for a repair whose page contents exceed 4096 bytes, where the program panics in an append
      or, in the unchecked range copies, writes over its own offset array; and for a repair that puts the cells
      of a leaf and of an internal page into one page. */
  datatype Result = Missing | Overflow | Done(t: Tree)

  function Used(t: Tree): nat {
    match t
    case Leaf(es) => LeafUsed(es)
    case Node(keys, _) => NodeUsed(keys)
  }

  function Cells(t: Tree): nat {
    match t
    case Leaf(es) => |es|
    case Node(keys, _) => |keys|
  }

  predicate Underfull(t: Tree) {
    Cells(t) < MIN_CELLS || Used(t) < PAGE_SIZE / 4
  }

  function LastCost(t: Tree): nat
    requires Cells(t) > 0
  {
    match t
    case Leaf(es) => EntryCost(es[|es| - 1])
    case Node(keys, _) => SepCost(keys[|keys| - 1])
  }

  /** siblingCanDonate: the size test looks at the last cell, whichever cell will move. */
  predicate CanDonate(t: Tree) {
    Cells(t) > MIN_CELLS && Used(t) - LastCost(t) >= PAGE_SIZE / 4
  }

  predicate SameKind(l: Tree, r: Tree) {
    match (l, r)
    case (Leaf(_), Leaf(_)) => true
    case (Node(k1, t1), Node(k2, t2)) => |t1| == |k1| + 1 && |t2| == |k2| + 1
    case (_, _) => false
  }

  /** Two siblings put together; an internal pair takes in the separator between them. */
  function Joined(l: Tree, sep: Key, r: Tree): Tree
    requires SameKind(l, r)
  {
    if l.Leaf? then Leaf(l.es + r.es) else Node(l.keys + [sep] + r.keys, l.kids + r.kids)
  }

  datatype Pair = Pair(left: Tree, sep: Key, right: Tree)

  /** A page cut in two at s: before entry s of a leaf, around separator s of an internal page. */
  function CutAt(t: Tree, s: nat): Pair
    requires s < Cells(t) && (t.Node? ==> |t.kids| == |t.keys| + 1)
  {
    match t
    case Leaf(es) => Pair(Leaf(es[..s]), es[s].key, Leaf(es[s..]))
    case Node(keys, kids) => Pair(Node(keys[..s], kids[..s + 1]), keys[s], Node(keys[s + 1..], kids[s + 1..]))
  }

  /** Parent of a rebalanced pair: separator i and the children around it are replaced. */
  function WithPair(keys: seq<Key>, kids: seq<Tree>, i: nat, p: Pair): Tree
    requires i < |keys| && |kids| == |keys| + 1
  {
    Node(keys[..i] + ([p.sep] + keys[i + 1..]), kids[..i] + ([p.left, p.right] + kids[i + 2..]))
  }

  function WithMerged(keys: seq<Key>, kids: seq<Tree>, i: nat, m: Tree): Tree
    requires i < |keys| && |kids| == |keys| + 1
  {
    Node(keys[..i] + ([] + keys[i + 1..]), kids[..i] + ([m] + kids[i + 2..]))
  }

  /** Move one cell across separator i, so that the left page of the pair ends up with s cells. */
  function Rebalance(keys: seq<Key>, kids: seq<Tree>, i: nat, s: nat): Result
    requires i < |keys| && |kids| == |keys| + 1
  {
    var l, r := kids[i], kids[i + 1];
    if !SameKind(l, r) || s >= Cells(Joined(l, keys[i], r)) then Overflow else
    var p := CutAt(Joined(l, keys[i], r), s);
    if Used(p.left) <= PAGE_SIZE && Used(p.right) <= PAGE_SIZE && Used(WithPair(keys, kids, i, p)) <= PAGE_SIZE
    then Done(WithPair(keys, kids, i, p)) else Overflow
  }

  function Merge(keys: seq<Key>, kids: seq<Tree>, i: nat): Result
    requires i < |keys| && |kids| == |keys| + 1
  {
    var l, r := kids[i], kids[i + 1];
    if !SameKind(l, r) then Overflow else
    var m := Joined(l, keys[i], r);
    if Used(m) <= PAGE_SIZE then Done(WithMerged(keys, kids, i, m)) else Overflow
  }

  /** Child c is underfull: borrow from the left, else from the right, else merge left, else right. */
  function Repair(keys: seq<Key>, kids: seq<Tree>, c: nat): Result
    requires c < |kids| == |keys| + 1
  {
    if c > 0 && CanDonate(kids[c - 1]) then Rebalance(keys, kids, c - 1, Cells(kids[c - 1]) - 1)
    else if c < |keys| && CanDonate(kids[c + 1]) then Rebalance(keys, kids, c, Cells(kids[c]) + 1)
    else if c > 0 then Merge(keys, kids, c - 1)
    else if c < |keys| then Merge(keys, kids, c)
    else Done(kids[c])
  }

  function WithChild(kids: seq<Tree>, c: nat, t: Tree): seq<Tree>
    requires c < |kids|
  {
    kids[..c] + ([t] + kids[c + 1..])
  }

  function DeleteLeaf(es: seq<Entry>, k: Key): Result {
    var i := LeafSlot(es, k);
    if i < |es| && es[i].key == k then Done(Leaf(es[..i] + es[i + 1..])) else Missing
  }

  function DeleteNode(t: Tree, k: Key): Result {
    match t
    case Leaf(es) => DeleteLeaf(es, k)
    case Node(keys, kids) =>
      if |kids| != |keys| + 1 then Missing else
      var c := ChildSlot(keys, k);
      var r := DeleteNode(kids[c], k);
      if !r.Done? then r
      else if !Underfull(r.t) then Done(Node(keys, WithChild(kids, c, r.t)))
      else Repair(keys, WithChild(kids, c, r.t), c)
  }

  // ---- correctness ----

  lemma LeafRemove(es: seq<Entry>, k: Key, q: Limits, lo: real, hi: real)
    requires Wf(Leaf(es), q, 0, lo, hi)
    ensures Has(es, k) <==> DeleteLeaf(es, k).Done?
    ensures !Has(es, k) <==> DeleteLeaf(es, k) == Missing
    ensures DeleteLeaf(es, k).Done? ==>
              Wf(DeleteLeaf(es, k).t, q, 0, lo, hi) && DeleteLeaf(es, k).t == Leaf(Remove(es, k))
  {
    hide Rank, LeafSlot, LeafUsed, Remove, Has;
    LeafSlotFinds(es, k);
    var i := LeafSlot(es, k);
    if i < |es| && es[i].key == k {
      RemoveAt(es, k, i);
      DropCell(es, i);
    }
  }

  lemma RemoveAt(es: seq<Entry>, k: Key, i: nat)
    requires Sorted(es) && i < |es| && es[i].key == k
    ensures Remove(es, k) == es[..i] + es[i + 1..]
  {
    hide Rank;
    forall j | 0 <= j < i ensures es[..i][j].key != k {
      assert Rank(es[j].key) < Rank(es[i].key);
    }
    RemoveAfter(es[..i], es[i..], k);
    Seqs.Parts(es, i);
    assert es[i..][1..] == es[i + 1..];
  }

  lemma DropCell(es: seq<Entry>, i: nat)
    requires i < |es|
    ensures LeafUsed(es[..i] + es[i + 1..]) <= LeafUsed(es)
  {
    hide Sum;
    Seqs.Around(es, i);
    EntryCostsAppend(es[..i] + [es[i]], es[i + 1..]);
    EntryCostsAppend(es[..i], [es[i]]);
    EntryCostsAppend(es[..i], es[i + 1..]);
  }

  // ---- contents: nothing is lost whatever the shape ----

  /** An internal page with one child more than it has separators. */
  predicate Regular(t: Tree) { t.Node? ==> |t.kids| == |t.keys| + 1 }

  lemma JoinedEntries(l: Tree, sep: Key, r: Tree)
    requires SameKind(l, r)
    ensures Entries(Joined(l, sep, r)) == Entries(l) + Entries(r) && Regular(Joined(l, sep, r))
  {
    hide Flatten;
    if l.Node? { FlattenAppend(l.kids, r.kids); }
  }

  lemma CutEntries(t: Tree, s: nat)
    requires s < Cells(t) && Regular(t)
    ensures Entries(CutAt(t, s).left) + Entries(CutAt(t, s).right) == Entries(t)
  {
    hide Flatten;
    match t
    case Leaf(es) => Seqs.Parts(es, s);
    case Node(_, kids) =>
      Seqs.Parts(kids, s + 1);
      FlattenAppend(kids[..s + 1], kids[s + 1..]);
  }

  lemma RebalanceEntries(keys: seq<Key>, kids: seq<Tree>, i: nat, s: nat)
    requires i < |keys| && |kids| == |keys| + 1
    ensures !Rebalance(keys, kids, i, s).Missing?
    ensures Rebalance(keys, kids, i, s).Done? ==>
              var t := Rebalance(keys, kids, i, s).t;
              t.Node? && t.keys != [] && Regular(t) && Entries(t) == Flatten(kids)
  {
    hide Flatten, Entries, Used, CutAt, Joined;
    if Rebalance(keys, kids, i, s).Done? {
      var l, r := kids[i], kids[i + 1];
      JoinedEntries(l, keys[i], r);
      CutEntries(Joined(l, keys[i], r), s);
      var p := CutAt(Joined(l, keys[i], r), s);
      FlattenTwo(p.left, p.right);
      FlattenAroundPair(kids, i, [p.left, p.right]);
      EntriesNode(Rebalance(keys, kids, i, s).t);
    }
  }

  lemma EntriesNode(t: Tree)
    requires t.Node?
    ensures Entries(t) == Flatten(t.kids)
  {
  }

  lemma MergeEntries(keys: seq<Key>, kids: seq<Tree>, i: nat)
    requires i < |keys| && |kids| == |keys| + 1
    ensures !Merge(keys, kids, i).Missing?
    ensures Merge(keys, kids, i).Done? ==>
              var t := Merge(keys, kids, i).t;
              t.Node? && Regular(t) && Entries(t) == Flatten(kids)
  {
    hide Flatten, Entries, Used, Joined;
    if Merge(keys, kids, i).Done? {
      var m := Joined(kids[i], keys[i], kids[i + 1]);
      JoinedEntries(kids[i], keys[i], kids[i + 1]);
      FlattenOne(m);
      FlattenAroundPair(kids, i, [m]);
      EntriesNode(Merge(keys, kids, i).t);
    }
  }

  /** Whichever repair is made, and whatever the pages are, the entries stay the same. */
  lemma RepairEntries(keys: seq<Key>, kids: seq<Tree>, c: nat)
    requires c < |kids| == |keys| + 1 && Regular(kids[c])
    ensures !Repair(keys, kids, c).Missing?
    ensures Repair(keys, kids, c).Done? ==>
              Regular(Repair(keys, kids, c).t) && Entries(Repair(keys, kids, c).t) == Flatten(kids)
    ensures Repair(keys, kids, c).Done? && keys != [] ==> Repair(keys, kids, c).t.Node?
  {
    hide Flatten, Entries, Rebalance, Merge, CanDonate, Regular;
    if c > 0 && CanDonate(kids[c - 1]) {
      DonorCells(kids[c - 1]);
      RebalanceEntries(keys, kids, c - 1, Cells(kids[c - 1]) - 1);
    } else if c < |keys| && CanDonate(kids[c + 1]) {
      RebalanceEntries(keys, kids, c, Cells(kids[c]) + 1);
    } else if c > 0 {
      MergeEntries(keys, kids, c - 1);
    } else if c < |keys| {
      MergeEntries(keys, kids, c);
    } else {
      FlattenOne(kids[c]);
      assert kids == [kids[c]];
    }
  }

  lemma DonorCells(t: Tree)
    requires CanDonate(t)
    ensures Cells(t) > 4
  {
  }

  // ---- shape: a repair between pages of one height ----

  /** Two neighbours joined make one page content over their common range. */
  lemma JoinedOk(l: Tree, sep: Key, r: Tree, q: Limits, h: nat, lo: real, hi: real)
    requires Wf(l, q, h, lo, Rank(sep)) && Wf(r, q, h, Rank(sep), hi)
    requires lo < Rank(sep) < hi && KeyOk(sep, q)
    ensures SameKind(l, r)
    ensures if h == 0 then LeafOk(l.es + r.es, q, lo, hi)
            else Forest(l.keys + [sep] + r.keys, l.kids + r.kids, q, h - 1, lo, hi)
  {
    hide Rank, LeafUsed, NodeUsed;
    if h == 0 {
      LeafOkAppend(l.es, r.es, q, lo, Rank(sep), hi);
    } else {
      ForestJoin(l.keys, l.kids, sep, r.keys, r.kids, q, h - 1, lo, hi);
    }
  }

  /** The pair after a cell has moved: both pages in range on their side of the new separator. */
  ghost predicate PairOk(p: Pair, q: Limits, h: nat, lo: real, hi: real) {
    && Wf(p.left, q, h, lo, Rank(p.sep)) && Wf(p.right, q, h, Rank(p.sep), hi)
    && lo < Rank(p.sep) < hi && KeyOk(p.sep, q)
  }

  lemma CutOk(t: Tree, s: nat, q: Limits, h: nat, lo: real, hi: real)
    requires if h == 0 then t.Leaf? && LeafOk(t.es, q, lo, hi)
             else t.Node? && Forest(t.keys, t.kids, q, h - 1, lo, hi)
    requires 0 < s < Cells(t)
    requires var p := CutAt(t, s); Used(p.left) <= PAGE_SIZE && Used(p.right) <= PAGE_SIZE
    ensures PairOk(CutAt(t, s), q, h, lo, hi)
  {
    hide Rank, LeafUsed, NodeUsed;
    if h == 0 {
      CutLeaf(t.es, q, lo, hi, s);
    } else {
      ForestCut(t.keys, t.kids, q, h - 1, lo, hi, s);
    }
  }

  lemma ForestPair(keys: seq<Key>, kids: seq<Tree>, q: Limits, h: nat, lo: real, hi: real, i: nat)
    requires Forest(keys, kids, q, h, lo, hi) && i < |keys|
    ensures Wf(kids[i], q, h, Lo(keys, i, lo), Rank(keys[i]))
    ensures Wf(kids[i + 1], q, h, Rank(keys[i]), Hi(keys, i + 1, hi))
    ensures Lo(keys, i, lo) < Rank(keys[i]) < Hi(keys, i + 1, hi) && KeyOk(keys[i], q)
  {
    hide Wf, Rank;
  }

  lemma RebalanceOk(keys: seq<Key>, kids: seq<Tree>, q: Limits, h: nat, lo: real, hi: real, i: nat, s: nat)
    requires Forest(keys, kids, q, h, lo, hi) && i < |keys|
    requires 0 < s < Cells(kids[i]) + Cells(kids[i + 1])
    ensures |kids| == |keys| + 1
    ensures Rebalance(keys, kids, i, s).Done? ==> Wf(Rebalance(keys, kids, i, s).t, q, h + 1, lo, hi)
  {
    hide Rank, Flatten, LeafUsed, NodeUsed, Forest, Entries, LeafOk, Wf;
    ForestLength(keys, kids, q, h, lo, hi);
    if Rebalance(keys, kids, i, s).Done? {
      var l, r := kids[i], kids[i + 1];
      var a, b := Lo(keys, i, lo), Hi(keys, i + 1, hi);
      ForestPair(keys, kids, q, h, lo, hi, i);
      JoinedOk(l, keys[i], r, q, h, a, b);
      KindOfHeight(l, q, h, a, Rank(keys[i]));
      var t := Joined(l, keys[i], r);
      CutOk(t, s, q, h, a, b);
      PairBack(keys, kids, q, h, lo, hi, i, CutAt(t, s));
    }
  }

  lemma ForestLength(keys: seq<Key>, kids: seq<Tree>, q: Limits, h: nat, lo: real, hi: real)
    requires Forest(keys, kids, q, h, lo, hi)
    ensures |kids| == |keys| + 1
  {
  }

  lemma KindOfHeight(t: Tree, q: Limits, h: nat, lo: real, hi: real)
    requires Wf(t, q, h, lo, hi)
    ensures (t.Leaf? <==> h == 0) && Regular(t)
  {
    hide Rank, LeafUsed, NodeUsed;
  }

  /** A rebalanced pair put back into its parent. */
  lemma PairBack(keys: seq<Key>, kids: seq<Tree>, q: Limits, h: nat, lo: real, hi: real, i: nat, p: Pair)
    requires Forest(keys, kids, q, h, lo, hi) && i < |keys|
    requires PairOk(p, q, h, Lo(keys, i, lo), Hi(keys, i + 1, hi))
    ensures |kids| == |keys| + 1
    ensures NodeUsed(WithPair(keys, kids, i, p).keys) <= PAGE_SIZE ==> Wf(WithPair(keys, kids, i, p), q, h + 1, lo, hi)
  {
    hide Rank, NodeUsed, Forest;
    ForestLength(keys, kids, q, h, lo, hi);
    PairForest(p, q, h, Lo(keys, i, lo), Hi(keys, i + 1, hi));
    ForestSplicePair(keys, kids, q, h, lo, hi, i, [p.sep], [p.left, p.right]);
  }

  lemma PairForest(p: Pair, q: Limits, h: nat, lo: real, hi: real)
    requires PairOk(p, q, h, lo, hi)
    ensures Forest([p.sep], [p.left, p.right], q, h, lo, hi)
  {
    hide Wf, Rank;
  }

  /** A merged child put back into its parent, which always has room for it. */
  lemma MergeOk(keys: seq<Key>, kids: seq<Tree>, q: Limits, h: nat, lo: real, hi: real, i: nat)
    requires Forest(keys, kids, q, h, lo, hi) && NodeUsed(keys) <= PAGE_SIZE && i < |keys|
    ensures |kids| == |keys| + 1
    ensures Merge(keys, kids, i).Done? ==> Wf(Merge(keys, kids, i).t, q, h + 1, lo, hi)
  {
    hide Rank, LeafUsed, NodeUsed, Forest, LeafOk;
    ForestLength(keys, kids, q, h, lo, hi);
    if Merge(keys, kids, i).Done? {
      var l, r := kids[i], kids[i + 1];
      var a, b := Lo(keys, i, lo), Hi(keys, i + 1, hi);
      ForestPair(keys, kids, q, h, lo, hi, i);
      JoinedOk(l, keys[i], r, q, h, a, b);
      var m := Joined(l, keys[i], r);
      assert Wf(m, q, h, a, b);
      ForestOne(m, q, h, a, b);
      ForestSplicePair(keys, kids, q, h, lo, hi, i, [], [m]);
      DropSeparator(keys, i);
    }
  }

  /** The parent rebuilt after a merge always fits: it only loses a separator. */
  lemma DropSeparator(keys: seq<Key>, i: nat)
    requires i < |keys|
    ensures NodeUsed(keys[..i] + ([] + keys[i + 1..])) == NodeUsed(keys) - SepCost(keys[i])
  {
    hide Sum;
    Seqs.Around(keys, i);
    Seqs.Empty(keys[i + 1..]);
    SepCostsAppend(keys[..i] + [keys[i]], keys[i + 1..]);
    SepCostsAppend(keys[..i], [keys[i]]);
    SepCostsAppend(keys[..i], keys[i + 1..]);
    assert SepCosts([keys[i]]) == [SepCost(keys[i])];
    SumOne(SepCost(keys[i]));
  }

  /** A child with a sibling of its height: the repair keeps order, bounds, height and page sizes. */
  lemma RepairOk(keys: seq<Key>, kids: seq<Tree>, q: Limits, h: nat, lo: real, hi: real, c: nat)
    requires Forest(keys, kids, q, h, lo, hi) && NodeUsed(keys) <= PAGE_SIZE && c < |kids| && keys != []
    ensures |kids| == |keys| + 1
    ensures Repair(keys, kids, c).Done? ==> Wf(Repair(keys, kids, c).t, q, h + 1, lo, hi)
  {
    hide Rank, Used, NodeUsed, Forest, Rebalance, Merge, Wf;
    ForestLength(keys, kids, q, h, lo, hi);
    if c > 0 && CanDonate(kids[c - 1]) {
      RebalanceOk(keys, kids, q, h, lo, hi, c - 1, Cells(kids[c - 1]) - 1);
    } else if c < |keys| && CanDonate(kids[c + 1]) {
      RebalanceOk(keys, kids, q, h, lo, hi, c, Cells(kids[c]) + 1);
    } else if c > 0 {
      MergeOk(keys, kids, q, h, lo, hi, c - 1);
    } else {
      MergeOk(keys, kids, q, h, lo, hi, c);
    }
  }

  // ---- one level of delete ----

  lemma WithChildFlatten(kids: seq<Tree>, c: nat, t: Tree)
    requires c < |kids|
    ensures Flatten(WithChild(kids, c, t)) == Flatten(kids[..c]) + Entries(t) + Flatten(kids[c + 1..])
  {
    hide Flatten, Entries;
    FlattenAppend(kids[..c], [t] + kids[c + 1..]);
    FlattenAppend([t], kids[c + 1..]);
    FlattenOne(t);
    Seqs.Assoc(Flatten(kids[..c]), Entries(t), Flatten(kids[c + 1..]));
  }

  lemma WithChildAt(kids: seq<Tree>, c: nat, t: Tree)
    requires c < |kids|
    ensures |WithChild(kids, c, t)| == |kids| && WithChild(kids, c, t)[c] == t
    ensures forall j :: 0 <= j < |kids| && j != c ==> WithChild(kids, c, t)[j] == kids[j]
  {
  }

  /** Removing a key from a node's entries removes it from the child it belongs to. */
  lemma RemoveInChild(keys: seq<Key>, kids: seq<Tree>, q: Limits, h: nat, lo: real, hi: real, k: Key)
    requires Forest(keys, kids, q, h, lo, hi) && lo <= Rank(k) < hi
    ensures var c := ChildSlot(keys, k);
      Remove(Flatten(kids), k) == Flatten(kids[..c]) + Remove(Entries(kids[c]), k) + Flatten(kids[c + 1..])
  {
    hide Flatten, Entries, Remove, Rank, Wf, ChildSlot;
    var c := ChildSlot(keys, k);
    ChildSlotRange(keys, k, q, lo, hi);
    EntriesAround(keys, kids, q, h, lo, hi, c);
    FlattenAround(kids, c);
    RemoveWithin(Flatten(kids[..c]), Entries(kids[c]), Flatten(kids[c + 1..]), k);
  }

  lemma ChildBack(keys: seq<Key>, kids: seq<Tree>, q: Limits, h: nat, lo: real, hi: real, c: nat, t: Tree)
    requires Forest(keys, kids, q, h, lo, hi) && c < |kids|
    requires Wf(t, q, h, Lo(keys, c, lo), Hi(keys, c, hi))
    ensures Forest(keys, WithChild(kids, c, t), q, h, lo, hi)
  {
    hide Rank, Forest;
    ForestLength(keys, kids, q, h, lo, hi);
    ForestOne(t, q, h, Lo(keys, c, lo), Hi(keys, c, hi));
    ForestSplice(keys, kids, q, h, lo, hi, c, [], [t]);
    Seqs.Empty(keys[c..]);
    Seqs.Parts(keys, c);
  }

  lemma UnfoldDelete(keys: seq<Key>, kids: seq<Tree>, k: Key)
    requires |kids| == |keys| + 1
    ensures var c := ChildSlot(keys, k);
      var r := DeleteNode(kids[c], k);
      DeleteNode(Node(keys, kids), k) ==
        if !r.Done? then r
        else if !Underfull(r.t) then Done(Node(keys, WithChild(kids, c, r.t)))
        else Repair(keys, WithChild(kids, c, r.t), c)
  {
    hide ChildSlot, Repair, Underfull;
  }

  /** What a delete does to the entries: the key's presence decides the outcome, and a completed delete has
      exactly the other entries, in order. */
  ghost predicate Takes(r: Result, es: seq<Entry>, k: Key) {
    match r
    case Missing => !Has(es, k)
    case Overflow => Has(es, k)
    case Done(t) => Has(es, k) && Entries(t) == Remove(es, k) && Regular(t)
  }

  lemma NodeTakes(keys: seq<Key>, kids: seq<Tree>, q: Limits, h: nat, lo: real, hi: real, k: Key)
    requires Forest(keys, kids, q, h, lo, hi) && lo <= Rank(k) < hi
    requires Takes(DeleteNode(kids[ChildSlot(keys, k)], k), Entries(kids[ChildSlot(keys, k)]), k)
    ensures Takes(DeleteNode(Node(keys, kids), k), Entries(Node(keys, kids)), k)
  {
    hide Flatten, Remove, Rank, ChildSlot, Repair, Underfull, Has, Wf, Forest, DeleteNode, WithChild;
    ForestLength(keys, kids, q, h, lo, hi);
    HasInChild(keys, kids, q, h, lo, hi, k);
    UnfoldDelete(keys, kids, k);
    var c := ChildSlot(keys, k);
    var r := DeleteNode(kids[c], k);
    if r.Done? {
      RemoveInChild(keys, kids, q, h, lo, hi, k);
      WithChildFlatten(kids, c, r.t);
      WithChildAt(kids, c, r.t);
      RepairEntries(keys, WithChild(kids, c, r.t), c);
    }
  }

  lemma LeafTakes(es: seq<Entry>, k: Key, q: Limits, h: nat, lo: real, hi: real)
    requires Wf(Leaf(es), q, h, lo, hi)
    ensures Takes(DeleteNode(Leaf(es), k), Entries(Leaf(es)), k)
    ensures DeleteNode(Leaf(es), k).Done? ==> Wf(DeleteNode(Leaf(es), k).t, q, h, lo, hi)
    ensures !DeleteNode(Leaf(es), k).Overflow?
  {
    LeafRemove(es, k, q, lo, hi);
    hide Rank, Remove, LeafUsed, Has, DeleteLeaf;
  }

  /** Delete takes exactly the key's entry out of every well-formed tree, and a key that is not there is
      reported missing. That the tree left behind is well formed is another matter. */
  lemma {:induction false} DeleteTakes(t: Tree, q: Limits, h: nat, lo: real, hi: real, k: Key)
    requires Wf(t, q, h, lo, hi) && lo <= Rank(k) < hi
    ensures Takes(DeleteNode(t, k), Entries(t), k)
    decreases h
  {
    hide Flatten, Remove, Rank, ChildSlot, Has, NodeUsed, Wf, Forest, DeleteNode, Takes, Entries;
    match t
    case Leaf(es) => LeafTakes(es, k, q, h, lo, hi);
    case Node(keys, kids) =>
      var c := ChildSlot(keys, k);
      WfNode(keys, kids, q, h, lo, hi, c);
      ChildSlotRange(keys, k, q, lo, hi);
      DeleteTakes(kids[c], q, h - 1, Lo(keys, c, lo), Hi(keys, c, hi), k);
      NodeTakes(keys, kids, q, h - 1, lo, hi, k);
  }
}
