/** What the bulk loader builds, as a function of the appended entries: the right spine of the tree, level
    by level, and the proof that it holds exactly the appended list. */
module TreeBulk {
  import opened Keys
  import opened OrderedMap
  import opened Layout
  import opened Trees
  import Hist = TreeHistory
  import KeyOrder
  import Seqs

  /** An internal page of the spine: its separators and every child but the rightmost, which is the
      spine page one level down. */
  datatype Level = Level(keys: seq<Key>, kids: seq<Tree>)

  /** The spine: the open leaf, and the levels above it from the bottom up. */
  datatype Spine = Empty | Open(es: seq<Entry>, up: seq<Level>)

  predicate RollLeaf(es: seq<Entry>, e: Entry, target: nat) {
    es != [] && (PAGE_SIZE - LeafUsed(es) < EntryCost(e) || LeafUsed(es) + EntryCost(e) > target)
  }

  predicate RollInternal(keys: seq<Key>, sep: Key, target: nat) {
    keys != [] && (PAGE_SIZE - NodeUsed(keys) < SepCost(sep) || NodeUsed(keys) + SepCost(sep) > target)
  }

  /** promote: child l is complete, and a new child starts at sep. */
  function Promote(up: seq<Level>, l: Tree, sep: Key, target: nat): seq<Level> {
    if up == [] then [Level([sep], [l])]
    else if RollInternal(up[0].keys, sep, target) then
      [Level([], [])] + Promote(up[1..], Node(up[0].keys, up[0].kids + [l]), sep, target)
    else [Level(up[0].keys + [sep], up[0].kids + [l])] + up[1..]
  }

  function Append(s: Spine, e: Entry, target: nat): Spine {
    match s
    case Empty => Open([e], [])
    case Open(es, up) =>
      if RollLeaf(es, e, target) then Open([e], Promote(up, Leaf(es), e.key, target)) else Open(es + [e], up)
  }

  function AppendAll(s: Spine, es: seq<Entry>, target: nat): Spine
    decreases |es|
  {
    if es == [] then s else AppendAll(Append(s, es[0], target), es[1..], target)
  }

  /** The tree below the top of the spine: each level closed with the tree of the level under it. */
  function Build(up: seq<Level>, t: Tree): Tree {
    if up == [] then t else Build(up[1..], Node(up[0].keys, up[0].kids + [t]))
  }

  // ---- correctness ----

  ghost function Listed(up: seq<Level>): seq<Entry> {
    if up == [] then [] else Listed(up[1..]) + Flatten(up[0].kids)
  }

  ghost function Contents(s: Spine): seq<Entry> {
    if s.Empty? then [] else Listed(s.up) + s.es
  }

  ghost function FloorOf(lv: Level, lo: real): real {
    if lv.keys == [] then lo else Rank(lv.keys[|lv.keys| - 1])
  }

  /** Where the range of the open child below these levels begins. */
  ghost function Floor(up: seq<Level>): real {
    if up == [] then LOWEST else FloorOf(up[0], Floor(up[1..]))
  }

  /** Every page within the fill target, and no leaf empty. */
  ghost predicate Filled(t: Tree, target: nat) {
    match t
    case Leaf(es) => es != [] && LeafUsed(es) <= target
    case Node(keys, kids) => NodeUsed(keys) <= target && forall i :: 0 <= i < |kids| ==> Filled(kids[i], target)
  }

  /** The children of one level are a forest up to its last separator. */
  ghost predicate LevelOk(lv: Level, q: Limits, h: nat, lo: real, target: nat) {
    && |lv.kids| == |lv.keys| && NodeUsed(lv.keys) <= target
       && (forall i :: 0 <= i < |lv.kids| ==> Filled(lv.kids[i], target))
    && (lv.keys != [] ==>
          var n := |lv.keys| - 1;
          lo < Rank(lv.keys[n]) < HIGHEST && KeyOk(lv.keys[n], q)
              && Forest(lv.keys[..n], lv.kids, q, h, lo, Rank(lv.keys[n])))
  }

  ghost predicate LevelsOk(up: seq<Level>, q: Limits, h: nat, target: nat)
    decreases |up|
  {
    up == [] || (LevelOk(up[0], q, h, Floor(up[1..]), target) && LevelsOk(up[1..], q, h + 1, target))
  }

  ghost predicate SpineOk(s: Spine, q: Limits, target: nat) {
    s.Open? ==>
      && LevelsOk(s.up, q, 0, target) && s.es != [] && LeafUsed(s.es) <= target
      && LeafOk(s.es, q, Floor(s.up), HIGHEST)
  }

  predicate Target(target: nat) { 1228 <= target <= PAGE_SIZE }

  /** A level with one more child, closed at r. */
  lemma CloseLevel(lv: Level, q: Limits, h: nat, lo: real, target: nat, l: Tree, r: real)
    requires LevelOk(lv, q, h, lo, target) && Wf(l, q, h, FloorOf(lv, lo), r) && FloorOf(lv, lo) < r <= HIGHEST
    ensures Forest(lv.keys, lv.kids + [l], q, h, lo, r)
  {
    hide Rank, Wf, Forest, Filled, NodeUsed;
    if lv.keys == [] {
      ForestOne(l, q, h, lo, r);
      Seqs.Empty([l]);
    } else {
      var n := |lv.keys| - 1;
      ForestOne(l, q, h, Rank(lv.keys[n]), r);
      ForestJoin(lv.keys[..n], lv.kids, lv.keys[n], [], [l], q, h, lo, r);
      Seqs.TakeNext(lv.keys, n);
      Seqs.TakeAll(lv.keys);
      Seqs.Empty(lv.keys[..n] + [lv.keys[n]]);
    }
  }

  lemma OpenFloor(up: seq<Level>, q: Limits, h: nat, target: nat)
    requires LevelsOk(up, q, h, target) && up != []
    ensures Floor(up[1..]) <= Floor(up)
  {
    hide Rank, Forest, Filled, NodeUsed;
  }

  lemma FilledKids(kids: seq<Tree>, l: Tree, target: nat)
    requires Filled(l, target) && forall i :: 0 <= i < |kids| ==> Filled(kids[i], target)
    ensures forall i :: 0 <= i < |kids + [l]| ==> Filled((kids + [l])[i], target)
  {
    hide Filled;
  }

  lemma OneSeparator(sep: Key)
    requires |sep| <= MAX_KEY
    ensures NodeUsed([sep]) == INTERNAL_HEADER + SepCost(sep) <= 1228 && NodeUsed([]) == INTERNAL_HEADER
  {
    assert SepCosts([sep]) == [SepCost(sep)];
    SumOne(SepCost(sep));
    assert SepCosts([]) == [];
  }

  lemma MoreSeparators(keys: seq<Key>, sep: Key)
    ensures NodeUsed(keys + [sep]) == NodeUsed(keys) + SepCost(sep)
  {
    hide Sum;
    SepCostsAppend(keys, [sep]);
    assert SepCosts([sep]) == [SepCost(sep)];
    SumOne(SepCost(sep));
  }

  /** Promote keeps every level in order and adds exactly the finished child's entries. */
  lemma {:induction false} PromoteOk(up: seq<Level>, l: Tree, sep: Key, q: Limits, h: nat, target: nat)
    requires Target(target) && LevelsOk(up, q, h, target) && Filled(l, target) && KeyOk(sep, q)
    requires Wf(l, q, h, Floor(up), Rank(sep)) && Floor(up) < Rank(sep) < HIGHEST
    ensures LevelsOk(Promote(up, l, sep, target), q, h, target)
    ensures Floor(Promote(up, l, sep, target)) == Rank(sep)
    ensures Listed(Promote(up, l, sep, target)) == Listed(up) + Entries(l)
    decreases |up|
  {
    hide Rank, Wf, Forest, Filled, NodeUsed, RollInternal, LevelOk, Entries, Flatten;
    if up == [] {
      PromoteTop(l, sep, q, h, target);
    } else {
      var lv, lo := up[0], Floor(up[1..]);
      CloseLevel(lv, q, h, lo, target, l, Rank(sep));
      if RollInternal(lv.keys, sep, target) {
        var node := Node(lv.keys, lv.kids + [l]);
        OpenFloor(up, q, h, target);
        ClosedOk(lv, l, q, h, lo, Rank(sep), target);
        PromoteOk(up[1..], node, sep, q, h + 1, target);
        PromoteRolled(up, l, sep, q, h, target);
      } else {
        PromoteHere(up, l, sep, q, h, target);
      }
    }
  }

  lemma PromoteTop(l: Tree, sep: Key, q: Limits, h: nat, target: nat)
    requires Target(target) && Filled(l, target) && KeyOk(sep, q) && Wf(l, q, h, LOWEST, Rank(sep))
             && LOWEST < Rank(sep) < HIGHEST
    ensures LevelsOk([Level([sep], [l])], q, h, target) && Floor([Level([sep], [l])]) == Rank(sep)
            && Listed([Level([sep], [l])]) == Entries(l)
  {
    hide Rank, Wf, Filled, NodeUsed, Entries, Flatten;
    OneSeparator(sep);
    ForestOne(l, q, h, LOWEST, Rank(sep));
    FlattenOne(l);
    var up := [Level([sep], [l])];
    assert [sep][..0] == [] && up[1..] == [];
  }

  lemma ClosedOk(lv: Level, l: Tree, q: Limits, h: nat, lo: real, r: real, target: nat)
    requires LevelOk(lv, q, h, lo, target) && Forest(lv.keys, lv.kids + [l], q, h, lo, r) && Filled(l, target)
             && target <= PAGE_SIZE
    ensures var node := Node(lv.keys, lv.kids + [l]);
      Wf(node, q, h + 1, lo, r) && Filled(node, target) && Entries(node) == Flatten(lv.kids) + Entries(l)
  {
    FilledKids(lv.kids, l, target);
    FlattenAppend(lv.kids, [l]);
    FlattenOne(l);
    hide Rank, Forest, NodeUsed, Flatten;
  }

  lemma PromoteRolled(up: seq<Level>, l: Tree, sep: Key, q: Limits, h: nat, target: nat)
    requires up != [] && RollInternal(up[0].keys, sep, target) && Target(target) && |sep| <= MAX_KEY
    requires var node := Node(up[0].keys, up[0].kids + [l]);
      var rest := Promote(up[1..], node, sep, target);
      && LevelsOk(rest, q, h + 1, target) && Floor(rest) == Rank(sep)
      && Listed(rest) == Listed(up[1..]) + Entries(node) && Entries(node) == Flatten(up[0].kids) + Entries(l)
    ensures var all := Promote(up, l, sep, target);
      LevelsOk(all, q, h, target) && Floor(all) == Rank(sep) && Listed(all) == Listed(up) + Entries(l)
  {
    hide Rank, Forest, NodeUsed, RollInternal, Entries, Filled;
    OneSeparator(sep);
    var rest := Promote(up[1..], Node(up[0].keys, up[0].kids + [l]), sep, target);
    var all := [Level([], [])] + rest;
    assert all[1..] == rest;
    Seqs.Assoc(Listed(up[1..]), Flatten(up[0].kids), Entries(l));
    Seqs.Empty(Listed(rest));
  }

  lemma PromoteHere(up: seq<Level>, l: Tree, sep: Key, q: Limits, h: nat, target: nat)
    requires up != [] && !RollInternal(up[0].keys, sep, target) && Target(target) && LevelsOk(up, q, h, target)
             && Filled(l, target) && KeyOk(sep, q)
    requires Forest(up[0].keys, up[0].kids + [l], q, h, Floor(up[1..]), Rank(sep)) && Floor(up) < Rank(sep) < HIGHEST
    ensures var all := Promote(up, l, sep, target);
      LevelsOk(all, q, h, target) && Floor(all) == Rank(sep) && Listed(all) == Listed(up) + Entries(l)
  {
    hide Rank, Forest, Filled, NodeUsed, Entries, Flatten;
    var lv := up[0];
    var lv' := Level(lv.keys + [sep], lv.kids + [l]);
    var all := [lv'] + up[1..];
    assert all[1..] == up[1..];
    Seqs.Snoc(lv.keys, sep);
    OpenFloor(up, q, h, target);
    MoreSeparators(lv.keys, sep);
    OneSeparator(sep);
    Seqs.Empty([sep]);
    FilledKids(lv.kids, l, target);
    FlattenAppend(lv.kids, [l]);
    FlattenOne(l);
    Seqs.Assoc(Listed(up[1..]), Flatten(lv.kids), Entries(l));
  }

  lemma OneEntryUsed(e: Entry, q: Limits)
    requires Storable(e, q)
    ensures LeafUsed([e]) <= 1228
  {
    CellBounds(e, q);
    assert EntryCosts([e]) == [EntryCost(e)];
    SumOne(EntryCost(e));
  }

  lemma MoreEntries(es: seq<Entry>, e: Entry)
    ensures LeafUsed(es + [e]) == LeafUsed(es) + EntryCost(e)
  {
    hide Sum, EntryCost;
    EntryCostsAppend(es, [e]);
    assert EntryCosts([e]) == [EntryCost(e)];
    SumOne(EntryCost(e));
  }

  lemma NarrowLeaf(es: seq<Entry>, q: Limits, lo: real, hi: real, r: real)
    requires LeafOk(es, q, lo, hi) && AllBelow(es, r) && es != []
    ensures LeafOk(es, q, lo, r) && lo < r
  {
    hide Rank, Storable;
    assert lo <= Rank(es[0].key) < r;
  }

  lemma OneLeaf(e: Entry, q: Limits, lo: real, hi: real)
    requires Storable(e, q) && lo <= Rank(e.key) < hi
    ensures LeafOk([e], q, lo, hi)
  {
  }

  /** One accepted append: the spine stays in order and the list grows by the entry. */
  lemma AppendOk(s: Spine, e: Entry, q: Limits, target: nat)
    requires Target(target) && SpineOk(s, q, target) && Storable(e, q)
    requires AllBelow(Contents(s), Rank(e.key))
    ensures SpineOk(Append(s, e, target), q, target) && Contents(Append(s, e, target)) == Contents(s) + [e]
  {
    hide Rank, LeafUsed, Storable, EntryCost, LevelsOk, LeafOk, AllBelow, Floor, Promote, Listed, Filled, Wf, NodeUsed;
    OneEntryUsed(e, q);
    Hist.KeyInRange(e.key);
    if s.Empty? {
      BottomFloor();
      OneLeaf(e, q, LOWEST, HIGHEST);
    } else {
      BelowRight(Listed(s.up), s.es, Rank(e.key));
      NarrowLeaf(s.es, q, Floor(s.up), HIGHEST, Rank(e.key));
      if RollLeaf(s.es, e, target) {
        ClosedLeaf(s.es, e, q, Floor(s.up), target);
        PromoteOk(s.up, Leaf(s.es), e.key, q, 0, target);
        OneLeaf(e, q, Rank(e.key), HIGHEST);
      } else {
        MoreEntries(s.es, e);
        OneLeaf(e, q, Rank(e.key), HIGHEST);
        LeafOkAppend(s.es, [e], q, Floor(s.up), Rank(e.key), HIGHEST);
        Seqs.Assoc(Listed(s.up), s.es, [e]);
      }
    }
  }

  lemma BottomFloor()
    ensures Floor([]) == LOWEST && Listed([]) == [] && forall q: Limits, target: nat :: LevelsOk([], q, 0, target)
  {
  }

  lemma BelowRight(a: seq<Entry>, b: seq<Entry>, r: real)
    requires AllBelow(a + b, r)
    ensures AllBelow(b, r)
  {
    hide Rank;
    forall i | 0 <= i < |b| ensures Rank(b[i].key) < r { assert (a + b)[|a| + i] == b[i]; }
  }

  lemma ClosedLeaf(es: seq<Entry>, e: Entry, q: Limits, lo: real, target: nat)
    requires LeafOk(es, q, lo, Rank(e.key)) && es != [] && LeafUsed(es) <= target <= PAGE_SIZE && Storable(e, q)
    ensures Wf(Leaf(es), q, 0, lo, Rank(e.key)) && Filled(Leaf(es), target) && KeyOk(e.key, q)
            && Entries(Leaf(es)) == es
  {
    hide Rank, LeafUsed;
  }

  // ---- contents, whatever the order of the keys ----

  lemma {:induction false} PromoteListed(up: seq<Level>, l: Tree, sep: Key, target: nat)
    ensures Listed(Promote(up, l, sep, target)) == Listed(up) + Entries(l)
    decreases |up|
  {
    hide NodeUsed, Flatten, Entries, RollInternal;
    if up == [] {
      FlattenOne(l);
      ListedCons(Level([sep], [l]), []);
    } else {
      var lv := up[0];
      ListedCons(lv, up[1..]);
      assert [lv] + up[1..] == up;
      FlattenAppend(lv.kids, [l]);
      FlattenOne(l);
      Seqs.Assoc(Listed(up[1..]), Flatten(lv.kids), Entries(l));
      if RollInternal(lv.keys, sep, target) {
        var node := Node(lv.keys, lv.kids + [l]);
        PromoteListed(up[1..], node, sep, target);
        EntriesNode(lv.keys, lv.kids + [l]);
        ListedCons(Level([], []), Promote(up[1..], node, sep, target));
      } else {
        ListedCons(Level(lv.keys + [sep], lv.kids + [l]), up[1..]);
      }
    }
  }

  lemma ListedCons(lv: Level, up: seq<Level>)
    ensures Listed([lv] + up) == Listed(up) + Flatten(lv.kids) && Listed([]) == []
    ensures lv.kids == [] ==> Listed([lv] + up) == Listed(up)
  {
    assert ([lv] + up)[1..] == up;
  }

  lemma EntriesNode(keys: seq<Key>, kids: seq<Tree>)
    ensures Entries(Node(keys, kids)) == Flatten(kids)
  {
  }

  /** Every append that is carried out adds its entry at the end, in order or not. */
  /** The top of the spine has a separator. */
  predicate Topped(up: seq<Level>) { up != [] ==> up[|up| - 1].keys != [] }

  lemma {:induction false} PromoteTopped(up: seq<Level>, l: Tree, sep: Key, target: nat)
    requires Topped(up)
    ensures Topped(Promote(up, l, sep, target)) && Promote(up, l, sep, target) != []
    decreases |up|
  {
    hide RollInternal;
    if up != [] && RollInternal(up[0].keys, sep, target) {
      PromoteTopped(up[1..], Node(up[0].keys, up[0].kids + [l]), sep, target);
    }
  }

  lemma AppendTopped(s: Spine, e: Entry, target: nat)
    requires s.Open? ==> Topped(s.up)
    ensures Append(s, e, target).Open? && Topped(Append(s, e, target).up)
  {
    hide Topped, RollLeaf, Promote;
    match s
    case Empty => NoneTopped();
    case Open(es, up) => PromoteTopped(up, Leaf(es), e.key, target);
  }

  lemma NoneTopped()
    ensures Topped([])
  {
  }

  lemma AppendContents(s: Spine, e: Entry, target: nat)
    ensures Contents(Append(s, e, target)) == Contents(s) + [e]
  {
    hide Promote, Listed, RollLeaf;
    match s
    case Empty => ListedCons(Level([], []), []);
    case Open(es, up) =>
      PromoteListed(up, Leaf(es), e.key, target);
      Seqs.Assoc(Listed(up), es, [e]);
  }

  lemma {:induction false} BuildEntries(up: seq<Level>, t: Tree)
    ensures Entries(Build(up, t)) == Listed(up) + Entries(t)
    decreases |up|
  {
    hide Entries, Flatten;
    if up != [] {
      BuildEntries(up[1..], Node(up[0].keys, up[0].kids + [t]));
      EntriesNode(up[0].keys, up[0].kids + [t]);
      FlattenAppend(up[0].kids, [t]);
      FlattenOne(t);
      Seqs.Assoc(Listed(up[1..]), Flatten(up[0].kids), Entries(t));
    }
  }

  /** In a spine that is in order, nothing lies above the last key. */
  lemma LastIsGreatest(s: Spine, q: Limits, target: nat, k: Key)
    requires SpineOk(s, q, target) && target <= PAGE_SIZE && s.Open? && Rank(s.es[|s.es| - 1].key) < Rank(k)
    ensures AllBelow(Contents(s), Rank(k)) && Sorted(Contents(s))
  {
    FinishOk(s, q, target);
    WfEntries(Tree(s), q, |s.up|, LOWEST, HIGHEST);
    hide Rank, Wf, Entries, Filled, SpineOk, Listed, Storable;
    var all := Contents(s);
    assert all[|all| - 1] == s.es[|s.es| - 1];
    forall i | 0 <= i < |all| ensures Rank(all[i].key) < Rank(k) {
      if i < |all| - 1 { assert Rank(all[i].key) < Rank(all[|all| - 1].key); }
    }
  }

  /** The finished tree: what the open child holds behind everything the levels hold. */
  lemma {:induction false} BuildOk(up: seq<Level>, t: Tree, q: Limits, h: nat, target: nat)
    requires LevelsOk(up, q, h, target) && Wf(t, q, h, Floor(up), HIGHEST) && Filled(t, target) && Floor(up) < HIGHEST
             && target <= PAGE_SIZE
    ensures Wf(Build(up, t), q, h + |up|, LOWEST, HIGHEST) && Filled(Build(up, t), target)
    ensures Entries(Build(up, t)) == Listed(up) + Entries(t)
    decreases |up|
  {
    hide Rank, Wf, Forest, Filled, LevelOk, Entries, Flatten;
    if up != [] {
      CloseLevel(up[0], q, h, Floor(up[1..]), target, t, HIGHEST);
      ClosedOk(up[0], t, q, h, Floor(up[1..]), HIGHEST, target);
      OpenFloor(up, q, h, target);
      BuildOk(up[1..], Node(up[0].keys, up[0].kids + [t]), q, h + 1, target);
      Seqs.Assoc(Listed(up[1..]), Flatten(up[0].kids), Entries(t));
    }
  }

  function Tree(s: Spine): Tree
    requires s.Open?
  {
    Build(s.up, Leaf(s.es))
  }

  /** Finish: the tree at the top of the spine is well formed, holds exactly the appended entries, and
      keeps every page within the fill target. */
  lemma FinishOk(s: Spine, q: Limits, target: nat)
    requires SpineOk(s, q, target) && s.Open? && target <= PAGE_SIZE
    ensures Wf(Tree(s), q, |s.up|, LOWEST, HIGHEST) && Filled(Tree(s), target) && Entries(Tree(s)) == Contents(s)
  {
    hide Rank, LevelsOk, Floor, Build, Listed, LeafUsed, Storable;
    assert Floor(s.up) <= Rank(s.es[0].key) < HIGHEST;
    BuildOk(s.up, Leaf(s.es), q, 0, target);
  }

  /** Bulk loading any strictly increasing list of storable entries, with any target the fill factor can
      give, builds a tree that holds exactly that list. */
  lemma {:induction false} BulkLoadOk(s: Spine, es: seq<Entry>, q: Limits, target: nat)
    requires Target(target) && SpineOk(s, q, target) && Sorted(Contents(s) + es)
    requires forall i :: 0 <= i < |es| ==> Storable(es[i], q)
    ensures SpineOk(AppendAll(s, es, target), q, target) && Contents(AppendAll(s, es, target)) == Contents(s) + es
    decreases |es|
  {
    hide Rank, SpineOk, Contents, Append, Storable;
    if es == [] {
      Seqs.Empty(Contents(s));
    } else {
      var before := Contents(s);
      forall i | 0 <= i < |before| ensures Rank(before[i].key) < Rank(es[0].key) {
        assert (before + es)[i] == before[i] && (before + es)[|before|] == es[0];
      }
      AppendOk(s, es[0], q, target);
      assert before + es == before + [es[0]] + es[1..];
      BulkLoadOk(Append(s, es[0], target), es[1..], q, target);
    }
  }

  /** A whole load: whatever list of storable entries the order test accepts, with no empty key after the
      first, the finished tree is well formed at uniform depth and holds exactly that list, every page
      within the fill target. */
  lemma LoadOk(es: seq<Entry>, q: Limits, target: nat)
    requires Target(target) && KeyOrder.KeysAfterFirst(es) && KeyOrder.Accepted(es) && forall i :: 0 <= i < |es| ==>
               Storable(es[i], q)
    ensures var s := AppendAll(Empty, es, target);
      && (s.Empty? <==> es == [])
      && (s.Open? ==> Wf(Tree(s), q, |s.up|, LOWEST, HIGHEST) && Filled(Tree(s), target) && Entries(Tree(s)) == es)
  {
    hide Rank, Wf, Filled, Entries, Storable, Sorted, Build;
    KeyOrder.AcceptedSorted(es);
    Seqs.Empty(es);
    var s := AppendAll(Empty, es, target);
    BulkLoadOk(Empty, es, q, target);
    if s.Open? { FinishOk(s, q, target); HoldsSome(s, q, target); }
  }

  lemma HoldsSome(s: Spine, q: Limits, target: nat)
    requires SpineOk(s, q, target) && s.Open?
    ensures Contents(s) != []
  {
  }

  // ---- which loaded trees a delete can take ----

  /** Delete on a loaded tree: whatever list was accepted, a completed delete leaves exactly the other entries, and
      the tree left is well formed if and only if the delete is sound. */
  lemma LoadedDelete(es: seq<Entry>, q: Limits, target: nat, k: Key)
    requires Target(target) && KeyOrder.KeysAfterFirst(es) && KeyOrder.Accepted(es) && forall i :: 0 <= i < |es| ==>
               Storable(es[i], q)
    ensures var s := AppendAll(Empty, es, target);
      s.Open? ==>
          Hist.DeletesSoundly(Hist.At(Tree(s)), Hist.DeleteRoot(Hist.At(Tree(s)), k), q, k)
          && Hist.Contents(Hist.At(Tree(s))) == es
  {
    hide Wf, Filled, Entries, Storable, Build, Hist.DeletesSoundly, Hist.DeleteRoot, KeyOrder.Accepted,
         KeyOrder.KeysAfterFirst, AppendAll;
    LoadOk(es, q, target);
    var s := AppendAll(Empty, es, target);
    if s.Open? {
      Hist.WfRoot(Tree(s), q, |s.up|);
      Hist.DeleteRootSoundly(Hist.At(Tree(s)), q, k);
    }
  }

  ghost predicate Solid(t: Tree) { Occupied(t) && Dense(t) }

  ghost predicate LevelsSolid(up: seq<Level>) {
    forall i, j :: 0 <= i < |up| && 0 <= j < |up[i].kids| ==> Solid(up[i].kids[j])
  }

  lemma {:induction false} PromoteSolid(up: seq<Level>, l: Tree, sep: Key, target: nat)
    requires LevelsSolid(up) && Solid(l)
    ensures LevelsSolid(Promote(up, l, sep, target))
    decreases |up|
  {
    hide Solid, NodeUsed;
    if up != [] {
      var lv := up[0];
      assert forall j :: 0 <= j < |lv.kids| ==> Solid(lv.kids[j]);
      if RollInternal(lv.keys, sep, target) {
        var node := Node(lv.keys, lv.kids + [l]);
        SolidNode(lv.keys, lv.kids, l);
        assert forall i, j :: 0 <= i < |up[1..]| && 0 <= j < |up[1..][i].kids| ==>
                 up[1..][i].kids[j] == up[i + 1].kids[j];
        PromoteSolid(up[1..], node, sep, target);
        SolidCons(Level([], []), Promote(up[1..], node, sep, target));
      } else {
        SolidTail(up);
        SolidCons(Level(lv.keys + [sep], lv.kids + [l]), up[1..]);
      }
    }
  }

  lemma SolidTail(up: seq<Level>)
    requires LevelsSolid(up) && up != []
    ensures LevelsSolid(up[1..])
  {
    hide Solid;
    assert forall i, j :: 0 <= i < |up[1..]| && 0 <= j < |up[1..][i].kids| ==> up[1..][i].kids[j] == up[i + 1].kids[j];
  }

  lemma SolidCons(lv: Level, up: seq<Level>)
    requires LevelsSolid(up) && forall j :: 0 <= j < |lv.kids| ==> Solid(lv.kids[j])
    ensures LevelsSolid([lv] + up)
  {
    hide Solid;
    var all := [lv] + up;
    forall i, j | 0 <= i < |all| && 0 <= j < |all[i].kids| ensures Solid(all[i].kids[j]) {
      if i > 0 { assert all[i] == up[i - 1]; }
    }
  }

  lemma SolidNode(keys: seq<Key>, kids: seq<Tree>, l: Tree)
    requires forall j :: 0 <= j < |kids| ==> Solid(kids[j])
    ensures Solid(Node(keys, kids + [l])) <==> keys != [] && Solid(l)
  {
    var all := kids + [l];
    assert all[|kids|] == l;
    if Solid(l) {
      forall i | 0 <= i < |all| ensures Occupied(all[i]) && Dense(all[i]) {
        if i < |kids| { assert all[i] == kids[i] && Solid(kids[i]); }
      }
    }
  }

  /** A spine closed over a page with cells: no page is empty if and only if every level has a separator. */
  lemma {:induction false} BuildSolid(up: seq<Level>, t: Tree)
    requires LevelsSolid(up)
    ensures Solid(Build(up, t)) <==> Solid(t) && forall i :: 0 <= i < |up| ==> up[i].keys != []
    decreases |up|
  {
    hide Solid;
    if up != [] {
      assert forall j :: 0 <= j < |up[0].kids| ==> Solid(up[0].kids[j]);
      SolidNode(up[0].keys, up[0].kids, t);
      SolidTail(up);
      BuildSolid(up[1..], Node(up[0].keys, up[0].kids + [t]));
      assert forall i :: 0 <= i < |up| ==> (i == 0 || up[i] == up[1..][i - 1]);
      assert forall i :: 0 <= i < |up[1..]| ==> up[1..][i] == up[i + 1];
    }
  }

  ghost predicate SpineSolid(s: Spine) { s.Open? ==> s.es != [] && LevelsSolid(s.up) }

  lemma {:induction false} LoadSolid(s: Spine, es: seq<Entry>, target: nat)
    requires SpineSolid(s)
    ensures SpineSolid(AppendAll(s, es, target))
    decreases |es|
  {
    hide LevelsSolid, Promote;
    if es != [] {
      if s.Open? { PromoteSolid(s.up, Leaf(s.es), es[0].key, target); }
      NoLevelsSolid();
      LoadSolid(Append(s, es[0], target), es[1..], target);
    }
  }

  lemma NoLevelsSolid()
    ensures LevelsSolid([])
  {
  }

  /** A loaded tree is one that delete can take, every page with cells, if and only if no page of the right
      spine was left without a separator. */
  lemma LoadedDense(es: seq<Entry>, target: nat)
    ensures var s := AppendAll(Empty, es, target);
      s.Open? ==> (Hist.RootDense(Hist.At(Tree(s))) <==> forall i :: 0 <= i < |s.up| ==> s.up[i].keys != [])
  {
    hide LevelsSolid, Build;
    LoadSolid(Empty, es, target);
    var s := AppendAll(Empty, es, target);
    if s.Open? { BuildSolid(s.up, Leaf(s.es)); }
  }

  // ---- pages are closed only when they are full ----

  /** The leaves below, in order. */
  ghost function Leaves(t: Tree): seq<seq<Entry>>
    decreases t, 1
  {
    match t
    case Leaf(es) => [es]
    case Node(_, kids) => LeavesAll(kids)
  }

  ghost function LeavesAll(ts: seq<Tree>): seq<seq<Entry>>
    decreases ts, 0
  {
    if ts == [] then [] else Leaves(ts[0]) + LeavesAll(ts[1..])
  }

  ghost function ClosedLeaves(up: seq<Level>): seq<seq<Entry>> {
    if up == [] then [] else ClosedLeaves(up[1..]) + LeavesAll(up[0].kids)
  }

  /** No leaf could have taken the first entry of the next one without passing the fill target. */
  ghost predicate Packed(ls: seq<seq<Entry>>, target: nat) {
    && (forall i :: 0 <= i < |ls| ==> ls[i] != [])
    && (forall i :: 0 <= i < |ls| - 1 ==> 5 + Sum(EntryCosts(ls[i])) + EntryCost(ls[i + 1][0]) > target)
  }

  lemma {:induction false} LeavesAppend(a: seq<Tree>, b: seq<Tree>)
    ensures LeavesAll(a + b) == LeavesAll(a) + LeavesAll(b)
    decreases |a|
  {
    hide Leaves;
    if a == [] {
      assert a + b == b;
    } else {
      assert (a + b)[1..] == a[1..] + b;
      LeavesAppend(a[1..], b);
      Seqs.Assoc(Leaves(a[0]), LeavesAll(a[1..]), LeavesAll(b));
    }
  }

  lemma LeavesOne(t: Tree)
    ensures LeavesAll([t]) == Leaves(t)
  {
    assert [t][1..] == [];
  }

  lemma ClosedCons(lv: Level, up: seq<Level>)
    ensures ClosedLeaves([lv] + up) == ClosedLeaves(up) + LeavesAll(lv.kids)
  {
    assert ([lv] + up)[1..] == up;
  }

  lemma {:induction false} PromoteLeaves(up: seq<Level>, l: Tree, sep: Key, target: nat)
    ensures ClosedLeaves(Promote(up, l, sep, target)) == ClosedLeaves(up) + Leaves(l)
    decreases |up|
  {
    hide Leaves, LeavesAll, RollInternal, ClosedLeaves;
    LeavesOne(l);
    if up == [] {
      ClosedCons(Level([sep], [l]), []);
      assert [Level([sep], [l])] + [] == [Level([sep], [l])] && ClosedLeaves([]) == [] by { NoneClosed(); }
    } else {
      var lv, rest := up[0], up[1..];
      assert [lv] + rest == up;
      ClosedCons(lv, rest);
      LeavesAppend(lv.kids, [l]);
      Seqs.Assoc(ClosedLeaves(rest), LeavesAll(lv.kids), Leaves(l));
      if RollInternal(lv.keys, sep, target) {
        var node := Node(lv.keys, lv.kids + [l]);
        PromoteLeaves(rest, node, sep, target);
        NodeLeaves(lv.keys, lv.kids + [l]);
        ClosedCons(Level([], []), Promote(rest, node, sep, target));
        NoLeaves();
      } else {
        ClosedCons(Level(lv.keys + [sep], lv.kids + [l]), rest);
      }
    }
  }

  lemma NoneClosed()
    ensures ClosedLeaves([]) == []
  {
  }

  lemma NoLeaves()
    ensures LeavesAll([]) == []
  {
  }

  lemma NodeLeaves(keys: seq<Key>, kids: seq<Tree>)
    ensures Leaves(Node(keys, kids)) == LeavesAll(kids)
  {
  }

  lemma {:induction false} BuildLeaves(up: seq<Level>, t: Tree)
    ensures Leaves(Build(up, t)) == ClosedLeaves(up) + Leaves(t)
    decreases |up|
  {
    hide Leaves, LeavesAll;
    if up != [] {
      var node := Node(up[0].keys, up[0].kids + [t]);
      BuildLeaves(up[1..], node);
      NodeLeaves(up[0].keys, up[0].kids + [t]);
      LeavesAppend(up[0].kids, [t]);
      LeavesOne(t);
      Seqs.Assoc(ClosedLeaves(up[1..]), LeavesAll(up[0].kids), Leaves(t));
    }
  }

  ghost predicate PackedSpine(s: Spine, target: nat) {
    s.Open? ==> Packed(ClosedLeaves(s.up) + [s.es], target)
  }

  lemma AppendPacked(s: Spine, e: Entry, target: nat)
    requires Target(target) && PackedSpine(s, target)
    ensures PackedSpine(Append(s, e, target), target)
  {
    hide ClosedLeaves, Sum, Promote, EntryCost;
    match s
    case Empty =>
      NoneClosed();
      FirstPacked([e], target);
    case Open(es, up) =>
      var ls := ClosedLeaves(up);
      if RollLeaf(es, e, target) {
        PromoteLeaves(up, Leaf(es), e.key, target);
        assert Leaves(Leaf(es)) == [es];
        PackedNext(ls, es, e, target);
      } else {
        PackedLast(ls, es, es + [e], target);
      }
  }

  lemma FirstPacked(es: seq<Entry>, target: nat)
    requires es != []
    ensures Packed([] + [es], target)
  {
  }

  lemma PackedNext(ls: seq<seq<Entry>>, es: seq<Entry>, e: Entry, target: nat)
    requires Packed(ls + [es], target) && 5 + Sum(EntryCosts(es)) + EntryCost(e) > target
    ensures Packed(ls + [es] + [[e]], target)
  {
    hide Sum, EntryCost;
    var a, b := ls + [es], ls + [es] + [[e]];
    forall i | 0 <= i < |b| - 1 ensures 5 + Sum(EntryCosts(b[i])) + EntryCost(b[i + 1][0]) > target {
      if i < |a| - 1 { assert b[i] == a[i] && b[i + 1] == a[i + 1]; }
    }
  }

  lemma PackedLast(ls: seq<seq<Entry>>, es: seq<Entry>, es': seq<Entry>, target: nat)
    requires Packed(ls + [es], target) && es' != [] && (es != [] ==> es'[0] == es[0])
    ensures Packed(ls + [es'], target)
  {
    hide Sum, EntryCost;
    var a, b := ls + [es], ls + [es'];
    assert a[|ls|] == es && b[|ls|] == es';
    forall i | 0 <= i < |b| ensures b[i] != [] {
      if i < |ls| { assert b[i] == a[i]; }
    }
    forall i | 0 <= i < |b| - 1 ensures 5 + Sum(EntryCosts(b[i])) + EntryCost(b[i + 1][0]) > target {
      assert b[i] == a[i] && (i + 1 < |ls| ==> b[i + 1] == a[i + 1]);
    }
  }

  lemma {:induction false} LoadPacked(s: Spine, es: seq<Entry>, target: nat)
    requires Target(target) && PackedSpine(s, target)
    ensures PackedSpine(AppendAll(s, es, target), target)
    decreases |es|
  {
    hide PackedSpine, Append;
    if es != [] {
      AppendPacked(s, es[0], target);
      LoadPacked(Append(s, es[0], target), es[1..], target);
    }
  }

  /** In a loaded tree every leaf is as full as the fill target lets it be: with the first entry of the next leaf it
      would have passed the target. */
  lemma LeavesPacked(es: seq<Entry>, target: nat)
    requires Target(target)
    ensures var s := AppendAll(Empty, es, target); s.Open? ==> Packed(Leaves(Tree(s)), target)
  {
    LoadPacked(Empty, es, target);
    hide Packed, AppendAll, Leaves, Build;
    var s := AppendAll(Empty, es, target);
    if s.Open? {
      BuildLeaves(s.up, Leaf(s.es));
      OneLeafTree(s.es);
    }
  }

  lemma OneLeafTree(es: seq<Entry>)
    ensures Leaves(Leaf(es)) == [es]
  {
  }

  /** And an internal page of the spine is closed if and only if the next separator would pass the target. */
  lemma ClosesWhenFull(up: seq<Level>, l: Tree, sep: Key, target: nat)
    requires Target(target) && up != []
    ensures Promote(up, l, sep, target) != []
    ensures var full := up[0].keys != [] && 13 + Sum(SepCosts(up[0].keys)) + 12 + |sep| > target;
      Promote(up, l, sep, target)[0] == if full then Level([], []) else Level(up[0].keys + [sep], up[0].kids + [l])
  {
    hide Sum;
  }
}
