/** B+trees as values: what a tree of pages holds, and when it is well formed. */
module Trees {
  import opened Keys
  import opened OrderedMap
  import opened Layout
  import Seqs

  datatype Tree = Leaf(es: seq<Entry>) | Node(keys: seq<Key>, kids: seq<Tree>)

  /** The entries of a tree in traversal order. */
  ghost function Entries(t: Tree): seq<Entry>
    decreases t, 1
  {
    match t
    case Leaf(es) => es
    case Node(_, kids) => Flatten(kids)
  }

  ghost function Flatten(ts: seq<Tree>): seq<Entry>
    decreases ts, 0
  {
    if ts == [] then [] else Entries(ts[0]) + Flatten(ts[1..])
  }

  /** The key range of child i: from the separator on its left up to the one on its right. */
  ghost function Lo(keys: seq<Key>, i: int, lo: real): real
    requires 0 <= i <= |keys|
  {
    if i == 0 then lo else Rank(keys[i - 1])
  }

  ghost function Hi(keys: seq<Key>, i: int, hi: real): real
    requires 0 <= i <= |keys|
  {
    if i == |keys| then hi else Rank(keys[i])
  }

  ghost predicate Separators(keys: seq<Key>, q: Limits, lo: real, hi: real) {
    && Increasing(keys)
    && forall i :: 0 <= i < |keys| ==> KeyOk(keys[i], q) && lo < Rank(keys[i]) < hi
  }

  /** Separators and subtrees of one height that may stand in one internal page: every child
      keeps to the range its separators give it. */
  ghost predicate Forest(keys: seq<Key>, kids: seq<Tree>, q: Limits, height: nat, lo: real, hi: real)
    decreases height, 1
  {
    && |kids| == |keys| + 1
    && Separators(keys, q, lo, hi)
    && forall i :: 0 <= i < |kids| ==> Wf(kids[i], q, height, Lo(keys, i, lo), Hi(keys, i, hi))
  }

  ghost predicate LeafOk(es: seq<Entry>, q: Limits, lo: real, hi: real) {
    && Sorted(es)
    && forall i :: 0 <= i < |es| ==> Storable(es[i], q) && lo <= Rank(es[i].key) < hi
  }

  /** A well-formed tree: all leaves at one depth, keys sorted and within the separators around
      them, every page within its 4096 bytes. */
  ghost predicate Wf(t: Tree, q: Limits, height: nat, lo: real, hi: real)
    decreases height, 0
  {
    match t
    case Leaf(es) => height == 0 && LeafOk(es, q, lo, hi) && LeafUsed(es) <= PAGE_SIZE
    case Node(keys, kids) => height > 0 && Forest(keys, kids, q, height - 1, lo, hi) && NodeUsed(keys) <= PAGE_SIZE
  }

  /** A page with at least one cell. */
  predicate Occupied(t: Tree) {
    match t
    case Leaf(es) => es != []
    case Node(keys, _) => keys != []
  }

  /** Every page below the root has at least one cell. */
  ghost predicate Dense(t: Tree) {
    t.Node? ==> forall i :: 0 <= i < |t.kids| ==> Occupied(t.kids[i]) && Dense(t.kids[i])
  }

  const LOWEST: real := 0.0
  const HIGHEST: real := 1.0

  /** Unfolding a well-formed node: its forest, its size, and child c. */
  lemma WfNode(keys: seq<Key>, kids: seq<Tree>, q: Limits, h: nat, lo: real, hi: real, c: nat)
    requires Wf(Node(keys, kids), q, h, lo, hi) && c <= |keys|
    ensures h > 0 && Forest(keys, kids, q, h - 1, lo, hi) && NodeUsed(keys) <= PAGE_SIZE
    ensures |kids| == |keys| + 1 && Separators(keys, q, lo, hi)
    ensures Wf(kids[c], q, h - 1, Lo(keys, c, lo), Hi(keys, c, hi))
  {
    hide Rank, NodeUsed;
  }

  // ---- flattening ----

  lemma {:induction false} FlattenAppend(a: seq<Tree>, b: seq<Tree>)
    ensures Flatten(a + b) == Flatten(a) + Flatten(b)
  {
    if a == [] {
      assert a + b == b;
    } else {
      assert (a + b)[1..] == a[1..] + b;
      FlattenAppend(a[1..], b);
    }
  }

  lemma FlattenOne(t: Tree)
    ensures Flatten([t]) == Entries(t)
  {
    assert [t][1..] == [];
  }

  lemma FlattenTwo(t: Tree, u: Tree)
    ensures Flatten([t, u]) == Entries(t) + Entries(u)
  {
    assert [t, u] == [t] + [u];
    FlattenAppend([t], [u]);
    FlattenOne(t);
    FlattenOne(u);
  }

  /** The entries of a node, with child c singled out. */
  lemma FlattenAround(kids: seq<Tree>, c: nat)
    requires c < |kids|
    ensures Flatten(kids) == Flatten(kids[..c]) + Entries(kids[c]) + Flatten(kids[c + 1..])
  {
    hide Flatten, Entries;
    Seqs.Around(kids, c);
    FlattenAppend(kids[..c] + [kids[c]], kids[c + 1..]);
    FlattenAppend(kids[..c], [kids[c]]);
    FlattenOne(kids[c]);
  }

  lemma FlattenAroundPair(kids: seq<Tree>, i: nat, ts: seq<Tree>)
    requires i + 1 < |kids| && Flatten(ts) == Entries(kids[i]) + Entries(kids[i + 1])
    ensures Flatten(kids[..i] + (ts + kids[i + 2..])) == Flatten(kids)
  {
    hide Flatten, Entries;
    var mid := [kids[i], kids[i + 1]];
    assert kids == kids[..i] + (mid + kids[i + 2..]);
    FlattenAppend(kids[..i], mid + kids[i + 2..]);
    FlattenAppend(mid, kids[i + 2..]);
    FlattenTwo(kids[i], kids[i + 1]);
    FlattenAppend(kids[..i], ts + kids[i + 2..]);
    FlattenAppend(ts, kids[i + 2..]);
  }

  // ---- cutting and joining forests ----

  lemma ForestCut(keys: seq<Key>, kids: seq<Tree>, q: Limits, h: nat, lo: real, hi: real, s: nat)
    requires Forest(keys, kids, q, h, lo, hi) && s < |keys|
    ensures Forest(keys[..s], kids[..s + 1], q, h, lo, Rank(keys[s]))
    ensures Forest(keys[s + 1..], kids[s + 1..], q, h, Rank(keys[s]), hi)
  {
    hide Wf, Rank;
    var k2, t2 := keys[s + 1..], kids[s + 1..];
    forall i | 0 <= i < |t2|
      ensures Wf(t2[i], q, h, Lo(k2, i, Rank(keys[s])), Hi(k2, i, hi))
    {
      assert t2[i] == kids[s + 1 + i];
      assert Lo(k2, i, Rank(keys[s])) == Lo(keys, s + 1 + i, lo);
      assert Hi(k2, i, hi) == Hi(keys, s + 1 + i, hi);
    }
    var k1, t1 := keys[..s], kids[..s + 1];
    forall i | 0 <= i < |t1|
      ensures Wf(t1[i], q, h, Lo(k1, i, lo), Hi(k1, i, Rank(keys[s])))
    {
      assert t1[i] == kids[i];
      assert Lo(k1, i, lo) == Lo(keys, i, lo);
      assert Hi(k1, i, Rank(keys[s])) == Hi(keys, i, hi);
    }
  }

  lemma ForestJoin(k1: seq<Key>, t1: seq<Tree>, k: Key, k2: seq<Key>, t2: seq<Tree>, q: Limits, h: nat, lo: real,
                   hi: real)
    requires lo < Rank(k) < hi && KeyOk(k, q)
    requires Forest(k1, t1, q, h, lo, Rank(k)) && Forest(k2, t2, q, h, Rank(k), hi)
    ensures Forest(k1 + [k] + k2, t1 + t2, q, h, lo, hi)
  {
    hide Wf, Rank;
    var keys, kids := k1 + [k] + k2, t1 + t2;
    assert Separators(keys, q, lo, hi);
    forall i | 0 <= i < |kids|
      ensures Wf(kids[i], q, h, Lo(keys, i, lo), Hi(keys, i, hi))
    {
      if i < |t1| {
        assert kids[i] == t1[i];
        assert Lo(keys, i, lo) == Lo(k1, i, lo) && Hi(keys, i, hi) == Hi(k1, i, Rank(k));
      } else {
        var j := i - |t1|;
        assert kids[i] == t2[j];
        assert Lo(keys, i, lo) == Lo(k2, j, Rank(k)) && Hi(keys, i, hi) == Hi(k2, j, hi);
      }
    }
  }

  lemma ForestOne(t: Tree, q: Limits, h: nat, lo: real, hi: real)
    requires Wf(t, q, h, lo, hi)
    ensures Forest([], [t], q, h, lo, hi)
  {
  }

  lemma ForestExtendRight(keys: seq<Key>, kids: seq<Tree>, q: Limits, h: nat, lo: real, hi: real, c: nat,
                          ks: seq<Key>, ts: seq<Tree>, l: real)
    requires Forest(keys, kids, q, h, lo, hi) && c < |kids| && l <= Lo(keys, c, lo)
    requires Forest(ks, ts, q, h, l, Hi(keys, c, hi))
    ensures Forest(ks + keys[c..], ts + kids[c + 1..], q, h, l, hi)
  {
    hide Wf, Rank;
    if c < |keys| {
      ForestCut(keys, kids, q, h, lo, hi, c);
      ForestJoin(ks, ts, keys[c], keys[c + 1..], kids[c + 1..], q, h, l, hi);
      Seqs.DropFirst(keys, c);
      Seqs.Assoc(ks, [keys[c]], keys[c + 1..]);
    } else {
      Seqs.Empty(ks);
      Seqs.Empty(ts);
    }
  }

  lemma ForestExtendLeft(keys: seq<Key>, kids: seq<Tree>, q: Limits, h: nat, lo: real, hi: real, c: nat, ks: seq<Key>,
                         ts: seq<Tree>)
    requires Forest(keys, kids, q, h, lo, hi) && c < |kids|
    requires Forest(ks, ts, q, h, Lo(keys, c, lo), hi)
    ensures Forest(keys[..c] + ks, kids[..c] + ts, q, h, lo, hi)
  {
    hide Wf, Rank;
    if c > 0 {
      ForestCut(keys, kids, q, h, lo, hi, c - 1);
      ForestJoin(keys[..c - 1], kids[..c], keys[c - 1], ks, ts, q, h, lo, hi);
      Seqs.TakeNext(keys, c - 1);
    } else {
      Seqs.Empty(ks);
      Seqs.Empty(ts);
    }
  }

  /** Replacing child c by a forest over the same range keeps the whole a forest. */
  lemma ForestSplice(keys: seq<Key>, kids: seq<Tree>, q: Limits, h: nat, lo: real, hi: real, c: nat, ks: seq<Key>,
                     ts: seq<Tree>)
    requires Forest(keys, kids, q, h, lo, hi) && c < |kids|
    requires Forest(ks, ts, q, h, Lo(keys, c, lo), Hi(keys, c, hi))
    ensures Forest(keys[..c] + (ks + keys[c..]), kids[..c] + (ts + kids[c + 1..]), q, h, lo, hi)
  {
    hide Wf, Rank;
    ForestExtendRight(keys, kids, q, h, lo, hi, c, ks, ts, Lo(keys, c, lo));
    ForestExtendLeft(keys, kids, q, h, lo, hi, c, ks + keys[c..], ts + kids[c + 1..]);
  }

  /** Replacing two neighbouring children and the separator between them likewise. */
  lemma ForestSplicePair(keys: seq<Key>, kids: seq<Tree>, q: Limits, h: nat, lo: real, hi: real, i: nat, ks: seq<Key>,
                         ts: seq<Tree>)
    requires Forest(keys, kids, q, h, lo, hi) && i < |keys|
    requires Forest(ks, ts, q, h, Lo(keys, i, lo), Hi(keys, i + 1, hi))
    ensures Forest(keys[..i] + (ks + keys[i + 1..]), kids[..i] + (ts + kids[i + 2..]), q, h, lo, hi)
  {
    hide Wf, Rank;
    ForestExtendRight(keys, kids, q, h, lo, hi, i + 1, ks, ts, Lo(keys, i, lo));
    ForestExtendLeft(keys, kids, q, h, lo, hi, i, ks + keys[i + 1..], ts + kids[i + 2..]);
  }

  // ---- the entries of a well-formed tree ----

  lemma {:induction false} ForestEntries(keys: seq<Key>, kids: seq<Tree>, q: Limits, h: nat, lo: real, hi: real)
    requires Forest(keys, kids, q, h, lo, hi)
    ensures LeafOk(Flatten(kids), q, lo, hi)
    decreases h, 1, |kids|
  {
    hide Wf, Rank;
    WfEntries(kids[0], q, h, Lo(keys, 0, lo), Hi(keys, 0, hi));
    if |kids| == 1 {
      FlattenOne(kids[0]);
      assert kids == [kids[0]];
    } else {
      ForestCut(keys, kids, q, h, lo, hi, 0);
      ForestEntries(keys[1..], kids[1..], q, h, Rank(keys[0]), hi);
      LeafOkAppend(Entries(kids[0]), Flatten(kids[1..]), q, lo, Rank(keys[0]), hi);
    }
  }

  lemma LeafOkAppend(a: seq<Entry>, b: seq<Entry>, q: Limits, lo: real, mid: real, hi: real)
    requires LeafOk(a, q, lo, mid) && LeafOk(b, q, mid, hi) && lo <= mid <= hi
    ensures LeafOk(a + b, q, lo, hi)
  {
  }

  /** A leaf cut before its entry s: that entry's key separates the halves. */
  lemma CutLeaf(es: seq<Entry>, q: Limits, lo: real, hi: real, s: nat)
    requires LeafOk(es, q, lo, hi) && 0 < s < |es|
    ensures LeafOk(es[..s], q, lo, Rank(es[s].key)) && LeafOk(es[s..], q, Rank(es[s].key), hi)
    ensures KeyOk(es[s].key, q) && lo < Rank(es[s].key) < hi
    ensures es[..s] + es[s..] == es
  {
    hide Rank;
    assert Rank(es[0].key) < Rank(es[s].key);
  }

  /** A well-formed tree lists its entries in strictly increasing key order, within its range. */
  lemma {:induction false} WfEntries(t: Tree, q: Limits, h: nat, lo: real, hi: real)
    requires Wf(t, q, h, lo, hi)
    ensures LeafOk(Entries(t), q, lo, hi)
    decreases h, 0
  {
    match t
    case Leaf(_) =>
    case Node(keys, kids) => ForestEntries(keys, kids, q, h - 1, lo, hi);
  }

  /** Around child c: entries to its left lie below its range, entries to its right above it. */
  lemma EntriesAround(keys: seq<Key>, kids: seq<Tree>, q: Limits, h: nat, lo: real, hi: real, c: nat)
    requires Forest(keys, kids, q, h, lo, hi) && c < |kids|
    ensures LeafOk(Flatten(kids[..c]), q, lo, Lo(keys, c, lo))
    ensures LeafOk(Flatten(kids[c + 1..]), q, Hi(keys, c, hi), hi)
  {
    hide Wf, Rank;
    if c > 0 {
      ForestCut(keys, kids, q, h, lo, hi, c - 1);
      ForestEntries(keys[..c - 1], kids[..c], q, h, lo, Rank(keys[c - 1]));
    }
    if c < |keys| {
      ForestCut(keys, kids, q, h, lo, hi, c);
      ForestEntries(keys[c + 1..], kids[c + 1..], q, h, Rank(keys[c]), hi);
    }
  }

  // ---- where a key belongs ----

  /** The first slot of a leaf whose key is not below k. */
  function LeafSlot(es: seq<Entry>, k: Key): (i: nat)
    ensures i <= |es|
  {
    if es == [] || Compare(es[0].key, k) >= 0 then 0 else 1 + LeafSlot(es[1..], k)
  }

  /** The child a key belongs to: the number of leading separators not above it. */
  function ChildSlot(keys: seq<Key>, k: Key): (i: nat)
    ensures i <= |keys|
  {
    if keys == [] || Compare(k, keys[0]) < 0 then 0 else 1 + ChildSlot(keys[1..], k)
  }

  lemma {:induction false} LeafSlotBounds(es: seq<Entry>, k: Key)
    requires Sorted(es)
    ensures forall j :: 0 <= j < LeafSlot(es, k) ==> Rank(es[j].key) < Rank(k)
    ensures forall j :: LeafSlot(es, k) <= j < |es| ==> Rank(k) <= Rank(es[j].key)
  {
    if es != [] {
      RankOrder(es[0].key, k);
      if Compare(es[0].key, k) < 0 {
        LeafSlotBounds(es[1..], k);
        forall j | 0 <= j < LeafSlot(es, k) ensures Rank(es[j].key) < Rank(k) {
          if j > 0 { assert es[j] == es[1..][j - 1]; }
        }
        forall j | LeafSlot(es, k) <= j < |es| ensures Rank(k) <= Rank(es[j].key) {
          assert es[j] == es[1..][j - 1];
        }
      }
    }
  }

  /** LeafSlot finds a key exactly when the leaf has it. */
  lemma LeafSlotFinds(es: seq<Entry>, k: Key)
    requires Sorted(es)
    ensures Has(es, k) <==> LeafSlot(es, k) < |es| && es[LeafSlot(es, k)].key == k
  {
    LeafSlotBounds(es, k);
    if Has(es, k) {
      var j :| 0 <= j < |es| && es[j].key == k;
      assert j == LeafSlot(es, k);
    }
  }

  lemma {:induction false} ChildSlotBounds(keys: seq<Key>, k: Key)
    requires Increasing(keys)
    ensures var c := ChildSlot(keys, k);
      && (forall i :: 0 <= i < c ==> Rank(keys[i]) <= Rank(k))
      && (forall i :: c <= i < |keys| ==> Rank(k) < Rank(keys[i]))
  {
    if keys != [] {
      RankOrder(k, keys[0]);
      if Compare(k, keys[0]) >= 0 {
        ChildSlotBounds(keys[1..], k);
        var c := ChildSlot(keys, k);
        forall i | 0 <= i < c ensures Rank(keys[i]) <= Rank(k) {
          if i > 0 { assert keys[i] == keys[1..][i - 1]; }
        }
        forall i | c <= i < |keys| ensures Rank(k) < Rank(keys[i]) {
          assert keys[i] == keys[1..][i - 1];
        }
      }
    }
  }

  /** The chosen child's range contains the key. */
  lemma ChildSlotRange(keys: seq<Key>, k: Key, q: Limits, lo: real, hi: real)
    requires Separators(keys, q, lo, hi) && lo <= Rank(k) < hi
    ensures Lo(keys, ChildSlot(keys, k), lo) <= Rank(k) < Hi(keys, ChildSlot(keys, k), hi)
  {
    ChildSlotBounds(keys, k);
  }

  /** A key is in a node exactly when it is in the child it belongs to. */
  lemma HasInChild(keys: seq<Key>, kids: seq<Tree>, q: Limits, h: nat, lo: real, hi: real, k: Key)
    requires Forest(keys, kids, q, h, lo, hi) && lo <= Rank(k) < hi
    ensures Has(Flatten(kids), k) <==> Has(Entries(kids[ChildSlot(keys, k)]), k)
  {
    var c := ChildSlot(keys, k);
    ChildSlotRange(keys, k, q, lo, hi);
    EntriesAround(keys, kids, q, h, lo, hi, c);
    FlattenAround(kids, c);
    HasWithin(Flatten(kids[..c]), Entries(kids[c]), Flatten(kids[c + 1..]), k);
  }

  lemma HasWithin(a: seq<Entry>, b: seq<Entry>, c: seq<Entry>, k: Key)
    requires AllBelow(a, Rank(k)) && AllAbove(c, Rank(k))
    ensures Has(a + b + c, k) <==> Has(b, k)
  {
    var all := a + b + c;
    if Has(all, k) {
      var i :| 0 <= i < |all| && all[i].key == k;
      assert |a| <= i < |a| + |b|;
      assert b[i - |a|].key == k;
    }
    if Has(b, k) {
      var i :| 0 <= i < |b| && b[i].key == k;
      assert all[|a| + i].key == k;
    }
  }
}
