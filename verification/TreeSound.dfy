/** Delete on every well-formed tree: exactly when it leaves a well-formed tree behind. */
module TreeSound {
  import opened Keys
  import opened OrderedMap
  import opened Layout
  import opened Trees
  import opened TreeDelete
  import opened TreeCapacity

  /** Every repair on the way up from the deleted key has a sibling to work with, and room. A page without
      separators has no sibling to offer: the program then hands up its child in its place. */
  predicate SoundToDelete(t: Tree, k: Key) {
    match t
    case Leaf(_) => true
    case Node(keys, kids) =>
      |kids| == |keys| + 1 ==>
        var c := ChildSlot(keys, k);
        var r := DeleteNode(kids[c], k);
        && SoundToDelete(kids[c], k)
        && (r.Done? && Underfull(r.t) ==> keys != [] && RepairRoom(keys, WithChild(kids, c, r.t), c))
  }

  // ---- trees whose leaves are not all at one depth ----

  /** All leaves are at depth h. */
  ghost predicate Even(t: Tree, h: nat) {
    match t
    case Leaf(_) => h == 0
    case Node(_, kids) => h > 0 && forall i :: 0 <= i < |kids| ==> Even(kids[i], h - 1)
  }

  ghost predicate Uneven(t: Tree) { forall h: nat :: !Even(t, h) }

  lemma {:induction false} WfEven(t: Tree, q: Limits, h: nat, lo: real, hi: real)
    requires Wf(t, q, h, lo, hi)
    ensures Even(t, h)
    decreases h
  {
    hide Rank, LeafUsed, NodeUsed, Separators;
    if t.Node? {
      forall i | 0 <= i < |t.kids| ensures Even(t.kids[i], h - 1) {
        WfEven(t.kids[i], q, h - 1, Lo(t.keys, i, lo), Hi(t.keys, i, hi));
      }
    }
  }

  /** A well-formed tree has one height. */
  lemma {:induction false} EvenHeight(t: Tree, q: Limits, h: nat, lo: real, hi: real, g: nat)
    requires Wf(t, q, h, lo, hi) && Even(t, g)
    ensures g == h
    decreases h
  {
    hide Rank, LeafUsed, NodeUsed, Separators;
    if t.Node? { EvenHeight(t.kids[0], q, h - 1, lo, Hi(t.keys, 0, hi), g - 1); }
  }

  lemma EvenKid(t: Tree, g: nat, x: Tree)
    requires t.Node? && Even(t, g) && x in t.kids
    ensures g > 0 && Even(x, g - 1)
  {
  }

  /** A page with an uneven child is uneven, and so is one that holds all children of an uneven page. */
  lemma UnevenAbove(t: Tree, x: Tree)
    requires t.Node? && x in t.kids && Uneven(x)
    ensures Uneven(t)
  {
    forall g: nat ensures !Even(t, g) {
      if Even(t, g) { EvenKid(t, g, x); }
    }
  }

  lemma UnevenAround(t: Tree, x: Tree)
    requires t.Node? && x.Node? && Uneven(x) && x.kids != [] && forall y :: y in x.kids ==> y in t.kids
    ensures Uneven(t)
  {
    forall g: nat ensures !Even(t, g) {
      if Even(t, g) { EvenAround(t, x, g); }
    }
  }

  lemma EvenAround(t: Tree, x: Tree, g: nat)
    requires t.Node? && x.Node? && x.kids != [] && (forall y :: y in x.kids ==> y in t.kids) && Even(t, g)
    ensures Even(x, g)
  {
    forall i | 0 <= i < |x.kids| ensures g > 0 && Even(x.kids[i], g - 1) { EvenKid(t, g, x.kids[i]); }
  }

  /** Well-formed children of two heights make a page uneven. */
  lemma TwoHeights(t: Tree, x: Tree, y: Tree, q: Limits, hx: nat, hy: nat, lx: real, ux: real, ly: real, uy: real)
    requires t.Node? && x in t.kids && y in t.kids && hx != hy
    requires Wf(x, q, hx, lx, ux) && Wf(y, q, hy, ly, uy)
    ensures Uneven(t)
  {
    hide Wf;
    forall g: nat ensures !Even(t, g) {
      if Even(t, g) {
        EvenKid(t, g, x);
        EvenKid(t, g, y);
        EvenHeight(x, q, hx, lx, ux, g - 1);
        EvenHeight(y, q, hy, ly, uy, g - 1);
      }
    }
  }

  // ---- repairs between pages of different heights ----

  /** The page that has taken in child c holds all of its children, and one of a sibling's at least. */
  ghost predicate TookIn(r: Tree, kids: seq<Tree>, c: nat, n: Tree, s: nat, x: Tree)
    requires c < |kids|
  {
    && r.Node? && n in r.kids && n.Node? && kids[c].Node? && (forall y :: y in kids[c].kids ==> y in n.kids)
    && s < |kids| && s != c && kids[s].Node? && x in kids[s].kids && x in n.kids
  }

  lemma BorrowedLeft(keys: seq<Key>, kids: seq<Tree>, i: nat) returns (n: Tree, x: Tree)
    requires i < |keys| && |kids| == |keys| + 1 && Cells(kids[i]) > 0 && kids[i + 1].Node?
    requires Rebalance(keys, kids, i, Cells(kids[i]) - 1).Done?
    ensures TookIn(Rebalance(keys, kids, i, Cells(kids[i]) - 1).t, kids, i + 1, n, i, x)
  {
    hide Used, NodeUsed;
    var l, r := kids[i], kids[i + 1];
    var s := Cells(l) - 1;
    var p := CutAt(Joined(l, keys[i], r), s);
    n, x := p.right, l.kids[s + 1];
    assert n.kids == [x] + r.kids;
    InPair(keys, kids, i, p);
  }

  lemma BorrowedRight(keys: seq<Key>, kids: seq<Tree>, i: nat) returns (n: Tree, x: Tree)
    requires i < |keys| && |kids| == |keys| + 1 && Cells(kids[i + 1]) > 1 && kids[i].Node?
    requires Rebalance(keys, kids, i, Cells(kids[i]) + 1).Done?
    ensures TookIn(Rebalance(keys, kids, i, Cells(kids[i]) + 1).t, kids, i, n, i + 1, x)
  {
    hide Used, NodeUsed;
    var l, r := kids[i], kids[i + 1];
    var p := CutAt(Joined(l, keys[i], r), Cells(l) + 1);
    n, x := p.left, r.kids[0];
    assert n.kids == l.kids + [x];
    InPair(keys, kids, i, p);
  }

  lemma InPair(keys: seq<Key>, kids: seq<Tree>, i: nat, p: Pair)
    requires i < |keys| && |kids| == |keys| + 1
    ensures p.left in WithPair(keys, kids, i, p).kids && p.right in WithPair(keys, kids, i, p).kids
  {
    var all := WithPair(keys, kids, i, p).kids;
    assert all[i] == p.left && all[i + 1] == p.right;
  }

  lemma MergedIn(keys: seq<Key>, kids: seq<Tree>, i: nat, c: nat) returns (n: Tree, x: Tree)
    requires i < |keys| && |kids| == |keys| + 1 && (c == i || c == i + 1) && kids[c].Node? && Merge(keys, kids, i).Done?
    ensures TookIn(Merge(keys, kids, i).t, kids, c, n, i + i + 1 - c, x)
  {
    hide Used, NodeUsed;
    var l, r := kids[i], kids[i + 1];
    n := Joined(l, keys[i], r);
    x := kids[i + i + 1 - c].kids[0];
    assert Merge(keys, kids, i).t.kids[i] == n;
  }

  lemma RepairTookIn(keys: seq<Key>, kids: seq<Tree>, c: nat) returns (n: Tree, s: nat, x: Tree)
    requires c < |kids| == |keys| + 1 && keys != [] && kids[c].Node? && Repair(keys, kids, c).Done?
    ensures TookIn(Repair(keys, kids, c).t, kids, c, n, s, x)
  {
    hide Rebalance, Merge, Used, TookIn;
    if c > 0 && CanDonate(kids[c - 1]) {
      s := c - 1;
      n, x := BorrowedLeft(keys, kids, s);
    } else if c < |keys| && CanDonate(kids[c + 1]) {
      s := c + 1;
      n, x := BorrowedRight(keys, kids, c);
    } else if c > 0 {
      s := c - 1;
      n, x := MergedIn(keys, kids, s, c);
    } else {
      s := c + 1;
      n, x := MergedIn(keys, kids, c, c);
    }
  }

  /** A leaf among internal pages cannot be repaired. */
  lemma RepairLeafAmongNodes(keys: seq<Key>, kids: seq<Tree>, c: nat)
    requires c < |kids| == |keys| + 1 && keys != [] && kids[c].Leaf? && forall i :: 0 <= i < |kids| && i != c ==>
               kids[i].Node?
    ensures Repair(keys, kids, c) == Overflow
  {
    hide Used, NodeUsed;
  }

  /** An uneven child that gets repaired makes its parent uneven. */
  lemma RepairUneven(keys: seq<Key>, kids: seq<Tree>, c: nat)
    requires c < |kids| == |keys| + 1 && keys != [] && Uneven(kids[c]) && Regular(kids[c])
             && Repair(keys, kids, c).Done?
    ensures Uneven(Repair(keys, kids, c).t)
  {
    hide Repair, Uneven;
    UnevenNode(kids[c]);
    var n, _, _ := RepairTookIn(keys, kids, c);
    UnevenAround(n, kids[c]);
    UnevenAbove(Repair(keys, kids, c).t, n);
  }

  lemma UnevenNode(t: Tree)
    requires Uneven(t)
    ensures t.Node?
  {
    if t.Leaf? { assert Even(t, 0); }
  }

  /** A child lower than its siblings: its repair fails or makes the tree uneven. */
  lemma RepairLow(keys: seq<Key>, kids: seq<Tree>, q: Limits, h: nat, lo: real, hi: real, c: nat, t: Tree, g: nat,
                  a: real, b: real)
    requires Forest(keys, kids, q, h, lo, hi) && c < |kids| && keys != [] && g < h && Wf(t, q, g, a, b)
    ensures |kids| == |keys| + 1 && |WithChild(kids, c, t)| == |kids|
    ensures var r := Repair(keys, WithChild(kids, c, t), c); r == Overflow || (r.Done? && Uneven(r.t))
  {
    hide Rank, Forest, Wf, Uneven, Repair, WithChild, NodeUsed;
    ForestLength(keys, kids, q, h, lo, hi);
    WithChildAt(kids, c, t);
    KindOfHeight(t, q, g, a, b);
    var ts := WithChild(kids, c, t);
    RepairEntries(keys, ts, c);
    SiblingsAreNodes(keys, kids, q, h, lo, hi);
    if t.Leaf? {
      RepairLeafAmongNodes(keys, ts, c);
    } else if Repair(keys, ts, c).Done? {
      var n, s, x := RepairTookIn(keys, ts, c);
      UnevenPage(keys, kids, q, h, lo, hi, c, t, g, a, b, n, s, x);
      UnevenAbove(Repair(keys, ts, c).t, n);
    }
  }

  lemma SiblingsAreNodes(keys: seq<Key>, kids: seq<Tree>, q: Limits, h: nat, lo: real, hi: real)
    requires Forest(keys, kids, q, h, lo, hi) && h > 0
    ensures forall i :: 0 <= i < |kids| ==> kids[i].Node?
  {
    hide Wf, Rank;
    forall i | 0 <= i < |kids| ensures kids[i].Node? { KindOfHeight(kids[i], q, h, Lo(keys, i, lo), Hi(keys, i, hi)); }
  }

  lemma UnevenPage(keys: seq<Key>, kids: seq<Tree>, q: Limits, h: nat, lo: real, hi: real, c: nat, t: Tree, g: nat,
                   a: real, b: real,
                   n: Tree, s: nat, x: Tree)
    requires Forest(keys, kids, q, h, lo, hi) && c < |kids| && g < h && Wf(t, q, g, a, b) && t.Node?
    requires n.Node? && (forall y :: y in t.kids ==> y in n.kids)
    requires s < |kids| && s != c && kids[s].Node? && x in kids[s].kids && x in n.kids
    ensures Uneven(n)
  {
    hide Rank, Uneven, NodeUsed;
    var j :| 0 <= j < |kids[s].kids| && kids[s].kids[j] == x;
    assert Wf(kids[s], q, h, Lo(keys, s, lo), Hi(keys, s, hi));
    WfNode(kids[s].keys, kids[s].kids, q, h, Lo(keys, s, lo), Hi(keys, s, hi), j);
    WfNode(t.keys, t.kids, q, g, a, b, 0);
    assert t.kids[0] in t.kids;
    TwoHeights(n, x, t.kids[0], q, h - 1, g - 1, Lo(kids[s].keys, j, Lo(keys, s, lo)),
               Hi(kids[s].keys, j, Hi(keys, s, hi)),
               Lo(t.keys, 0, a), Hi(t.keys, 0, b));
  }

  // ---- the exact result ----

  /** What an unsound delete that completes leaves: an underfull tree that is too low, or an uneven one. */
  ghost predicate Off(t: Tree, q: Limits, h: nat, lo: real, hi: real) {
    Uneven(t) || (Underfull(t) && exists g: nat :: g < h && Wf(t, q, g, lo, hi))
  }

  /** Delete below one node. The key's presence decides whether there is anything to do; a completed delete has
      exactly the other entries; and it leaves a well-formed tree of the same height exactly if it is sound. */
  ghost predicate Refines(r: Result, t: Tree, k: Key, q: Limits, h: nat, lo: real, hi: real) {
    && Takes(r, Entries(t), k)
    && (!r.Missing? && SoundToDelete(t, k) ==> r.Done? && Wf(r.t, q, h, lo, hi))
    && (r.Done? && !SoundToDelete(t, k) ==> Off(r.t, q, h, lo, hi))
    && (r.Done? && !SoundToDelete(t, k) && t.Node? && t.keys != [] ==> Uneven(r.t))
  }

  lemma OffIsNotWf(t: Tree, q: Limits, h: nat, lo: real, hi: real)
    requires Off(t, q, h, lo, hi)
    ensures !Wf(t, q, h, lo, hi)
  {
    hide Wf, Underfull;
    if Wf(t, q, h, lo, hi) {
      WfEven(t, q, h, lo, hi);
      if !Uneven(t) {
        var g: nat :| g < h && Wf(t, q, g, lo, hi);
        EvenHeight(t, q, g, lo, hi, h);
      }
    }
  }

  lemma UnfoldSound(keys: seq<Key>, kids: seq<Tree>, k: Key)
    requires |kids| == |keys| + 1
    ensures var c := ChildSlot(keys, k);
      var r := DeleteNode(kids[c], k);
      SoundToDelete(Node(keys, kids), k) <==>
        SoundToDelete(kids[c], k) && (r.Done? && Underfull(r.t) ==>
                                      keys != [] && RepairRoom(keys, WithChild(kids, c, r.t), c))
  {
    hide ChildSlot, DeleteNode, Underfull, RepairRoom, WithChild;
  }

  /** Child c has become a well-formed tree of its height. */
  lemma AfterGoodChild(keys: seq<Key>, kids: seq<Tree>, q: Limits, h: nat, lo: real, hi: real, c: nat, t: Tree)
    requires Forest(keys, kids, q, h, lo, hi) && NodeUsed(keys) <= PAGE_SIZE && c < |kids|
    requires Wf(t, q, h, Lo(keys, c, lo), Hi(keys, c, hi))
    ensures |kids| == |keys| + 1 && |WithChild(kids, c, t)| == |kids|
    ensures var ts := WithChild(kids, c, t);
      && Wf(Node(keys, ts), q, h + 1, lo, hi)
      && (keys != [] && RepairRoom(keys, ts, c) ==>
          Repair(keys, ts, c).Done? && Wf(Repair(keys, ts, c).t, q, h + 1, lo, hi))
      && (keys != [] && !RepairRoom(keys, ts, c) ==> Repair(keys, ts, c) == Overflow)
      && (keys == [] ==> Repair(keys, ts, c) == Done(t) && Wf(t, q, h, lo, hi))
  {
    hide Rank, Forest, NodeUsed, RepairRoom, WithChild;
    ForestLength(keys, kids, q, h, lo, hi);
    WithChildAt(kids, c, t);
    var ts := WithChild(kids, c, t);
    ChildBack(keys, kids, q, h, lo, hi, c, t);
    KindOfHeight(t, q, h, Lo(keys, c, lo), Hi(keys, c, hi));
    RepairExactly(keys, ts, q, h, lo, hi, c);
    RepairEntries(keys, ts, c);
    if keys != [] { RepairOk(keys, ts, q, h, lo, hi, c); }
  }

  /** Child c has become a tree that is too low or uneven. */
  lemma AfterBadChild(keys: seq<Key>, kids: seq<Tree>, q: Limits, h: nat, lo: real, hi: real, c: nat, t: Tree)
    requires Forest(keys, kids, q, h, lo, hi) && c < |kids| && Regular(t)
    requires Off(t, q, h, Lo(keys, c, lo), Hi(keys, c, hi))
    ensures |kids| == |keys| + 1 && |WithChild(kids, c, t)| == |kids|
    ensures var ts := WithChild(kids, c, t);
      var r := if !Underfull(t) then Done(Node(keys, ts)) else Repair(keys, ts, c);
      && (r.Done? ==> Off(r.t, q, h + 1, lo, hi))
      && (r.Done? && keys != [] ==> Uneven(r.t))
  {
    hide Rank, Forest, WithChild, Underfull, Wf, Uneven, Repair;
    ForestLength(keys, kids, q, h, lo, hi);
    WithChildAt(kids, c, t);
    var ts := WithChild(kids, c, t);
    if !Underfull(t) {
      assert t in ts;
      UnevenAbove(Node(keys, ts), t);
    } else if keys == [] {
      OnlyChild(keys, ts, c);
    } else if Uneven(t) {
      if Repair(keys, ts, c).Done? { RepairUneven(keys, ts, c); }
    } else {
      var g: nat :| g < h && Wf(t, q, g, Lo(keys, c, lo), Hi(keys, c, hi));
      RepairLow(keys, kids, q, h, lo, hi, c, t, g, Lo(keys, c, lo), Hi(keys, c, hi));
    }
  }

  lemma OnlyChild(keys: seq<Key>, kids: seq<Tree>, c: nat)
    requires c < |kids| == |keys| + 1 && keys == []
    ensures Repair(keys, kids, c) == Done(kids[c])
  {
  }

  lemma NodeRefines(keys: seq<Key>, kids: seq<Tree>, q: Limits, h: nat, lo: real, hi: real, k: Key)
    requires Forest(keys, kids, q, h, lo, hi) && NodeUsed(keys) <= PAGE_SIZE && lo <= Rank(k) < hi
    requires var c := ChildSlot(keys, k);
      Refines(DeleteNode(kids[c], k), kids[c], k, q, h, Lo(keys, c, lo), Hi(keys, c, hi))
    ensures Refines(DeleteNode(Node(keys, kids), k), Node(keys, kids), k, q, h + 1, lo, hi)
  {
    hide Rank, ChildSlot, Repair, Underfull, NodeUsed, Wf, Forest, DeleteNode, WithChild, Takes, Off, Uneven,
         RepairRoom, SoundToDelete, Entries;
    ForestLength(keys, kids, q, h, lo, hi);
    UnfoldDelete(keys, kids, k);
    UnfoldSound(keys, kids, k);
    NodeTakes(keys, kids, q, h, lo, hi, k);
    var c := ChildSlot(keys, k);
    var r := DeleteNode(kids[c], k);
    if r.Done? {
      if SoundToDelete(kids[c], k) {
        AfterGoodChild(keys, kids, q, h, lo, hi, c, r.t);
        if keys == [] && Underfull(r.t) { LowIsOff(r.t, q, h, lo, hi); }
      } else {
        TakesRegular(r, Entries(kids[c]), k);
        AfterBadChild(keys, kids, q, h, lo, hi, c, r.t);
      }
    }
  }

  lemma LowIsOff(t: Tree, q: Limits, h: nat, lo: real, hi: real)
    requires Wf(t, q, h, lo, hi) && Underfull(t)
    ensures Off(t, q, h + 1, lo, hi)
  {
    hide Wf, Underfull;
  }

  lemma TakesRegular(r: Result, es: seq<Entry>, k: Key)
    requires Takes(r, es, k) && r.Done?
    ensures Regular(r.t)
  {
  }

  lemma {:induction false} DeleteRefines(t: Tree, q: Limits, h: nat, lo: real, hi: real, k: Key)
    requires Wf(t, q, h, lo, hi) && lo <= Rank(k) < hi
    ensures Refines(DeleteNode(t, k), t, k, q, h, lo, hi)
    decreases h
  {
    hide Flatten, Rank, ChildSlot, NodeUsed, Wf, Forest, DeleteNode, Refines, Entries, SoundToDelete;
    match t
    case Leaf(es) =>
      LeafRefines(es, k, q, h, lo, hi);
    case Node(keys, kids) =>
      var c := ChildSlot(keys, k);
      WfNode(keys, kids, q, h, lo, hi, c);
      ChildSlotRange(keys, k, q, lo, hi);
      DeleteRefines(kids[c], q, h - 1, Lo(keys, c, lo), Hi(keys, c, hi), k);
      NodeRefines(keys, kids, q, h - 1, lo, hi, k);
  }

  lemma LeafRefines(es: seq<Entry>, k: Key, q: Limits, h: nat, lo: real, hi: real)
    requires Wf(Leaf(es), q, h, lo, hi)
    ensures Refines(DeleteNode(Leaf(es), k), Leaf(es), k, q, h, lo, hi)
  {
    LeafTakes(es, k, q, h, lo, hi);
    hide Wf, DeleteNode, Entries, Takes;
  }

  /** Delete on every well-formed tree, in one equivalence: of a key that is there it leaves a well-formed tree
      of the same height if and only if it is sound, and then that tree holds exactly the other entries. */
  lemma DeleteSoundly(t: Tree, q: Limits, h: nat, lo: real, hi: real, k: Key)
    requires Wf(t, q, h, lo, hi) && lo <= Rank(k) < hi
    ensures DeleteNode(t, k).Missing? <==> !Has(Entries(t), k)
    ensures Has(Entries(t), k) ==>
              (SoundToDelete(t, k) <==> DeleteNode(t, k).Done? && Wf(DeleteNode(t, k).t, q, h, lo, hi))
    ensures DeleteNode(t, k).Done? ==> Entries(DeleteNode(t, k).t) == Remove(Entries(t), k)
  {
    DeleteRefines(t, q, h, lo, hi, k);
    hide Rank, Wf, DeleteNode, Entries, SoundToDelete, Off, Has, Remove;
    var r := DeleteNode(t, k);
    if r.Done? && !SoundToDelete(t, k) { OffIsNotWf(r.t, q, h, lo, hi); }
  }

  // ---- trees without empty pages ----

  ghost predicate AllDense(kids: seq<Tree>) {
    forall i :: 0 <= i < |kids| ==> Occupied(kids[i]) && Dense(kids[i])
  }

  lemma DenseKids(keys: seq<Key>, kids: seq<Tree>, c: nat)
    requires Dense(Node(keys, kids))
    ensures AllDense(kids)
    ensures c < |kids| ==> Dense(kids[c]) && Occupied(kids[c])
  {
  }

  lemma DenseNode(t: Tree)
    requires t.Node? && AllDense(t.kids)
    ensures Dense(t)
  {
  }

  /** The children besides c have cells; child c may be empty before repair. */
  ghost predicate DenseBut(kids: seq<Tree>, c: nat) {
    forall j :: 0 <= j < |kids| ==> Dense(kids[j]) && (j != c ==> Occupied(kids[j]))
  }

  lemma JoinedDense(l: Tree, sep: Key, r: Tree)
    requires SameKind(l, r) && Dense(l) && Dense(r)
    ensures Dense(Joined(l, sep, r)) && Regular(Joined(l, sep, r))
    ensures Occupied(l) || Occupied(r) ==> Occupied(Joined(l, sep, r))
  {
    if l.Node? {
      var kids := l.kids + r.kids;
      forall i | 0 <= i < |kids| ensures Occupied(kids[i]) && Dense(kids[i]) {
        if i >= |l.kids| { assert kids[i] == r.kids[i - |l.kids|]; }
      }
    }
  }

  lemma CutDense(t: Tree, s: nat)
    requires Dense(t) && 0 < s < Cells(t) && Regular(t) && (t.Node? ==> s + 1 < Cells(t))
    ensures AllDense([CutAt(t, s).left, CutAt(t, s).right])
  {
    if t.Node? {
      var upper := t.kids[s + 1..];
      forall i | 0 <= i < |upper| ensures Occupied(upper[i]) && Dense(upper[i]) {
        assert upper[i] == t.kids[s + 1 + i];
      }
    }
  }

  lemma ReplacedPairDense(kids: seq<Tree>, i: nat, ts: seq<Tree>)
    requires i + 1 < |kids| && AllDense(ts)
    requires forall j :: 0 <= j < |kids| && j != i && j != i + 1 ==> Occupied(kids[j]) && Dense(kids[j])
    ensures AllDense(kids[..i] + (ts + kids[i + 2..]))
  {
    hide Occupied, Dense;
    var all := kids[..i] + (ts + kids[i + 2..]);
    forall j | 0 <= j < |all| ensures Occupied(all[j]) && Dense(all[j]) {
      if i <= j < i + |ts| { assert all[j] == ts[j - i]; }
      else if j >= i + |ts| { assert all[j] == kids[j - |ts| + 2]; }
    }
  }

  lemma RebalanceDense(keys: seq<Key>, kids: seq<Tree>, c: nat, i: nat, s: nat)
    requires i < |keys| && |kids| == |keys| + 1 && (c == i || c == i + 1) && DenseBut(kids, c)
    requires 0 < s < Cells(kids[i]) + Cells(kids[i + 1])
    ensures Rebalance(keys, kids, i, s).Done? ==> Dense(Rebalance(keys, kids, i, s).t)
  {
    hide Used, Dense, Occupied;
    if Rebalance(keys, kids, i, s).Done? {
      var t := Joined(kids[i], keys[i], kids[i + 1]);
      JoinedDense(kids[i], keys[i], kids[i + 1]);
      CutDense(t, s);
      ReplacedPairDense(kids, i, [CutAt(t, s).left, CutAt(t, s).right]);
      DenseNode(Rebalance(keys, kids, i, s).t);
    }
  }

  lemma MergeDense(keys: seq<Key>, kids: seq<Tree>, c: nat, i: nat)
    requires i < |keys| && |kids| == |keys| + 1 && (c == i || c == i + 1) && DenseBut(kids, c)
    ensures Merge(keys, kids, i).Done? ==> Dense(Merge(keys, kids, i).t)
  {
    hide Used, Dense, Occupied, Joined;
    if Merge(keys, kids, i).Done? {
      JoinedDense(kids[i], keys[i], kids[i + 1]);
      ReplacedPairDense(kids, i, [Joined(kids[i], keys[i], kids[i + 1])]);
      DenseNode(Merge(keys, kids, i).t);
    }
  }

  lemma RepairDense(keys: seq<Key>, kids: seq<Tree>, c: nat)
    requires c < |kids| == |keys| + 1 && DenseBut(kids, c) && keys != []
    ensures Repair(keys, kids, c).Done? ==> Dense(Repair(keys, kids, c).t)
  {
    hide Rebalance, Merge, Dense, DenseBut, CanDonate;
    if c > 0 && CanDonate(kids[c - 1]) {
      DonorCells(kids[c - 1]);
      RebalanceDense(keys, kids, c, c - 1, Cells(kids[c - 1]) - 1);
    } else if c < |keys| && CanDonate(kids[c + 1]) {
      DonorCells(kids[c + 1]);
      RebalanceDense(keys, kids, c, c, Cells(kids[c]) + 1);
    } else if c > 0 {
      MergeDense(keys, kids, c, c - 1);
    } else {
      MergeDense(keys, kids, c, c);
    }
  }

  lemma ChildBackDense(kids: seq<Tree>, c: nat, t: Tree)
    requires c < |kids| && AllDense(kids) && Dense(t)
    ensures DenseBut(WithChild(kids, c, t), c)
    ensures Occupied(t) ==> AllDense(WithChild(kids, c, t))
  {
    hide Dense, Occupied;
    var ts := WithChild(kids, c, t);
    forall j | 0 <= j < |ts| ensures Dense(ts[j]) && (j != c || Occupied(t) ==> Occupied(ts[j])) {
      if j > c { assert ts[j] == kids[j]; }
    }
  }

  lemma FullIsOccupied(t: Tree)
    requires !Underfull(t)
    ensures Occupied(t)
  {
  }

  /** In a tree without empty pages, delete leaves none behind, and room is all it takes. */
  lemma {:induction false} DeleteDense(t: Tree, k: Key)
    requires Dense(t) && (t.Node? ==> Occupied(t))
    ensures SoundToDelete(t, k) <==> RoomToDelete(t, k)
    ensures DeleteNode(t, k).Done? ==> Dense(DeleteNode(t, k).t)
  {
    hide ChildSlot, Underfull, RepairRoom, WithChild, Dense, Repair, AllDense, DenseBut;
    match t
    case Leaf(es) => LeafDense(es, k);
    case Node(keys, kids) =>
      if |kids| == |keys| + 1 {
        var c := ChildSlot(keys, k);
        DenseKids(keys, kids, c);
        DeleteDense(kids[c], k);
        UnfoldDelete(keys, kids, k);
        var r := DeleteNode(kids[c], k);
        if r.Done? {
          ChildBackDense(kids, c, r.t);
          WithChildAt(kids, c, r.t);
          if Underfull(r.t) {
            RepairDense(keys, WithChild(kids, c, r.t), c);
          } else {
            FullIsOccupied(r.t);
            DenseNode(Node(keys, WithChild(kids, c, r.t)));
          }
        }
      }
  }

  lemma LeafDense(es: seq<Entry>, k: Key)
    ensures DeleteNode(Leaf(es), k).Done? ==> Dense(DeleteNode(Leaf(es), k).t)
  {
  }

  /** Without empty pages, a delete fails exactly when the key is there and some repair on its path lacks room. */
  lemma DeleteExactly(t: Tree, q: Limits, h: nat, lo: real, hi: real, k: Key)
    requires Wf(t, q, h, lo, hi) && Dense(t) && (t.Node? ==> Occupied(t)) && lo <= Rank(k) < hi
    ensures DeleteNode(t, k) == Overflow <==> Has(Entries(t), k) && !RoomToDelete(t, k)
    ensures DeleteNode(t, k).Done? ==> Wf(DeleteNode(t, k).t, q, h, lo, hi)
  {
    DeleteRefines(t, q, h, lo, hi, k);
    DeleteDense(t, k);
    if DeleteNode(t, k).Done? { DenseIsSound(t, q, h, lo, hi, k); }
    hide Rank, Wf, DeleteNode, Entries, SoundToDelete, RoomToDelete, Off, Has, Remove, Dense;
  }

  /** Without empty pages a delete that completes was sound. */
  lemma {:induction false} DenseIsSound(t: Tree, q: Limits, h: nat, lo: real, hi: real, k: Key)
    requires Wf(t, q, h, lo, hi) && Dense(t) && (t.Node? ==> Occupied(t)) && lo <= Rank(k) < hi
    requires DeleteNode(t, k).Done?
    ensures SoundToDelete(t, k)
    decreases h
  {
    hide Rank, ChildSlot, NodeUsed, Wf, Forest, DeleteNode, Refines, Entries, SoundToDelete, Dense, AllDense,
         Underfull, RepairRoom, WithChild, Repair;
    match t
    case Leaf(es) => LeafSound(es, k);
    case Node(keys, kids) =>
      var c := ChildSlot(keys, k);
      DenseKids(keys, kids, c);
      WfNode(keys, kids, q, h, lo, hi, c);
      ChildSlotRange(keys, k, q, lo, hi);
      UnfoldDelete(keys, kids, k);
      UnfoldSound(keys, kids, k);
      DenseIsSound(kids[c], q, h - 1, Lo(keys, c, lo), Hi(keys, c, hi), k);
      DeleteRefines(kids[c], q, h - 1, Lo(keys, c, lo), Hi(keys, c, hi), k);
      var r := DeleteNode(kids[c], k);
      SoundIsWf(r, kids[c], k, q, h - 1, Lo(keys, c, lo), Hi(keys, c, hi));
      AfterGoodChild(keys, kids, q, h - 1, lo, hi, c, r.t);
  }

  lemma LeafSound(es: seq<Entry>, k: Key)
    ensures SoundToDelete(Leaf(es), k)
  {
  }

  lemma SoundIsWf(r: Result, t: Tree, k: Key, q: Limits, h: nat, lo: real, hi: real)
    requires Refines(r, t, k, q, h, lo, hi) && r.Done? && SoundToDelete(t, k)
    ensures Wf(r.t, q, h, lo, hi)
  {
    hide Wf, SoundToDelete, Takes, Off, Entries;
  }

  /** Under modest limits, with room for separators to vary in length, no delete overflows. With
      keys of one length the room is there in every well-formed tree. */
  lemma {:induction false} DeleteFits(t: Tree, q: Limits, h: nat, lo: real, hi: real, k: Key)
    requires Wf(t, q, h, lo, hi) && Dense(t) && (t.Node? ==> Occupied(t)) && lo <= Rank(k) < hi
    requires Modest(q) && q.minKey <= q.maxKey && Roomy(t, q.maxKey - q.minKey)
    ensures !DeleteNode(t, k).Overflow?
    decreases h
  {
    hide Rank, ChildSlot, NodeUsed, Wf, Forest, Dense, AllDense, Repair, Underfull, Entries, WithChild;
    match t
    case Leaf(es) =>
    case Node(keys, kids) =>
      var c := ChildSlot(keys, k);
      DenseKids(keys, kids, c);
      WfNode(keys, kids, q, h, lo, hi, c);
      ChildSlotRange(keys, k, q, lo, hi);
      DeleteFits(kids[c], q, h - 1, Lo(keys, c, lo), Hi(keys, c, hi), k);
      UnfoldDelete(keys, kids, k);
      var r := DeleteNode(kids[c], k);
      if r.Done? && Underfull(r.t) {
        DeleteExactly(kids[c], q, h - 1, Lo(keys, c, lo), Hi(keys, c, hi), k);
        ChildBack(keys, kids, q, h - 1, lo, hi, c, r.t);
        WithChildAt(kids, c, r.t);
        RepairFits(keys, WithChild(kids, c, r.t), q, h - 1, lo, hi, c);
      }
  }
}
