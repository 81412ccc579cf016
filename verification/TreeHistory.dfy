/** Whole trees, from the root down, and whole histories of writes and deletes. */
module TreeHistory {
  import opened Keys
  import opened OrderedMap
  import opened Layout
  import opened Trees
  import Upd = TreeUpdate
  import Del = TreeDelete
  import opened Values
  import opened TreeCapacity
  import Sound = TreeSound

  /** A tree's root: page id 0 means there is no tree at all. */
  datatype Root = Empty | At(t: Tree)

  ghost function Contents(r: Root): seq<Entry> { if r.Empty? then [] else Entries(r.t) }

  /** The finite map that reads back from a tree. */
  ghost function AsMap(r: Root): map<Key, Bytes> { ToMap(AllRead(Contents(r))) }

  function Height(t: Tree): nat { if t.Leaf? || t.kids == [] then 0 else 1 + Height(t.kids[0]) }

  ghost predicate RootWf(r: Root, q: Limits) {
    r.At? ==> Wf(r.t, q, Height(r.t), LOWEST, HIGHEST)
  }

  /** Every page of the tree has cells. */
  ghost predicate RootDense(r: Root) {
    r.At? ==> Occupied(r.t) && Dense(r.t)
  }

  lemma {:induction false} WfHeight(t: Tree, q: Limits, h: nat, lo: real, hi: real)
    requires Wf(t, q, h, lo, hi)
    ensures h == Height(t)
    decreases h
  {
    hide Rank, LeafUsed, NodeUsed;
    if t.Node? {
      WfHeight(t.kids[0], q, h - 1, lo, Hi(t.keys, 0, hi));
    }
  }

  lemma WfRoot(t: Tree, q: Limits, h: nat)
    requires Wf(t, q, h, LOWEST, HIGHEST)
    ensures RootWf(At(t), q)
  {
    WfHeight(t, q, h, LOWEST, HIGHEST);
  }

  datatype Outcome = Ok(root: Root) | KeyExists | KeyNotFound | KeyTooBig

  /** Update from the root down: a split root gets a new root above it. */
  function UpdateRoot(r: Root, k: Key, v: Bytes, mode: Upd.Mode): Outcome {
    if |k| > MAX_KEY then KeyTooBig
    else if r.Empty? then
      if mode == Upd.Update then KeyNotFound else Ok(At(Leaf([Entry(k, v)])))
    else
      match Upd.UpdateNode(r.t, k, v, mode)
      case Same => Ok(r)
      case KeyExists => KeyExists
      case KeyNotFound => KeyNotFound
      case Changed(One(t)) => Ok(At(t))
      case Changed(Two(l, s, u)) => Ok(At(Node([s], [l, u])))
  }

  datatype Deletion = Absent | Broken | Removed(root: Root)

  /** Delete from the root down: an empty leaf root disappears, a root without separators gives way
      to its only child. */
  function DeleteRoot(r: Root, k: Key): Deletion {
    if r.Empty? then Absent
    else
      match Del.DeleteNode(r.t, k)
      case Missing => Absent
      case Overflow => Broken
      case Done(Leaf(es)) => if es == [] then Removed(Empty) else Removed(At(Leaf(es)))
      case Done(Node(keys, kids)) =>
        if keys == [] && |kids| == 1 then Removed(At(kids[0])) else Removed(At(Node(keys, kids)))
  }

  lemma KeyInRange(k: Key)
    ensures LOWEST <= Rank(k) < HIGHEST
  {
  }

  lemma ContentsSorted(r: Root, q: Limits)
    requires RootWf(r, q)
    ensures Sorted(Contents(r))
  {
    if r.At? { WfEntries(r.t, q, Height(r.t), LOWEST, HIGHEST); }
    hide Rank, Wf, Entries;
  }

  lemma NewRootOk(l: Tree, s: Key, u: Tree, q: Limits, h: nat)
    requires Upd.GrownOk(Upd.Two(l, s, u), q, h, LOWEST, HIGHEST)
    ensures Wf(Node([s], [l, u]), q, h + 1, LOWEST, HIGHEST)
    ensures Entries(Node([s], [l, u])) == Entries(l) + Entries(u)
  {
    hide Rank, Flatten;
    ForestOne(l, q, h, LOWEST, Rank(s));
    ForestOne(u, q, h, Rank(s), HIGHEST);
    ForestJoin([], [l], s, [], [u], q, h, LOWEST, HIGHEST);
    assert [] + [s] + [] == [s];
    assert [l] + [u] == [l, u];
    FlattenTwo(l, u);
    assert SepCosts([s]) == [SepCost(s)];
    SumOne(SepCost(s));
  }

  lemma FirstLeafOk(e: Entry, q: Limits)
    requires Storable(e, q)
    ensures Wf(Leaf([e]), q, 0, LOWEST, HIGHEST)
  {
    KeyInRange(e.key);
    CellBounds(e, q);
    assert EntryCosts([e]) == [EntryCost(e)];
    SumOne(EntryCost(e));
  }

  /** Update on a whole tree is update on the finite map it holds, and the mode and the key's presence
      alone decide which calls are refused; a refused call returns no new root. */
  lemma UpdateRootRefines(r: Root, q: Limits, k: Key, v: Bytes, mode: Upd.Mode)
    requires RootWf(r, q) && Storable(Entry(k, v), q)
    ensures var o := UpdateRoot(r, k, v, mode);
      && (o.KeyExists? <==> mode == Upd.Insert && Has(Contents(r), k))
      && (o.KeyNotFound? <==> mode == Upd.Update && !Has(Contents(r), k))
      && !o.KeyTooBig?
      && (o.Ok? ==> RootWf(o.root, q) && Contents(o.root) == WriteTo(Contents(r), k, v))
      && (o.Ok? && o.root == r ==> WriteTo(Contents(r), k, v) == Contents(r))
  {
    hide Rank, Put, Has, Wf, Entries, Upd.UpdateNode, Upd.GrownOk, Height, Reads;
    KeyInRange(k);
    if r.Empty? {
      FirstLeafOk(Entry(k, v), q);
      EmptyPut(k, v);
      if mode != Upd.Update { WfRoot(Leaf([Entry(k, v)]), q, 0); EntriesLeaf([Entry(k, v)]); }
    } else {
      var h := Height(r.t);
      Upd.UpdateRefines(r.t, q, h, LOWEST, HIGHEST, k, v, mode);
      var u := Upd.UpdateNode(r.t, k, v, mode);
      if u.Changed? && u.g.One? {
        OneOk(u.g, q, h);
        WfRoot(u.g.t, q, h);
      } else if u.Changed? {
        NewRootOk(u.g.left, u.g.sep, u.g.right, q, h);
        WfRoot(Node([u.g.sep], [u.g.left, u.g.right]), q, h + 1);
      }
    }
  }

  lemma OneOk(g: Upd.Grown, q: Limits, h: nat)
    requires g.One? && Upd.GrownOk(g, q, h, LOWEST, HIGHEST)
    ensures Wf(g.t, q, h, LOWEST, HIGHEST)
  {
  }

  lemma EntriesLeaf(es: seq<Entry>)
    ensures Entries(Leaf(es)) == es
  {
  }

  lemma EmptyPut(k: Key, v: Bytes)
    ensures Put([], k, v) == [Entry(k, v)] && !Has([], k) && !Reads([], k, v)
  {
  }

  lemma UpdateRootDense(r: Root, q: Limits, k: Key, v: Bytes, mode: Upd.Mode)
    requires RootWf(r, q) && RootDense(r) && Storable(Entry(k, v), q)
    ensures UpdateRoot(r, k, v, mode).Ok? ==> RootDense(UpdateRoot(r, k, v, mode).root)
  {
    if r.At? {
      KeyInRange(k);
      Upd.UpdateDense(r.t, q, Height(r.t), LOWEST, HIGHEST, k, v, mode);
    }
    hide Rank, Wf, Upd.UpdateNode;
  }

  /** Roots without separators give way to their only child, so soundness is asked of the first page that has
      separators. */
  predicate SoundTop(t: Tree, k: Key) {
    if t.Node? && t.keys == [] && |t.kids| == 1 then SoundTop(t.kids[0], k) else Sound.SoundToDelete(t, k)
  }

  predicate SoundRoot(r: Root, k: Key) { r.At? ==> SoundTop(r.t, k) }

  /** What delete promises of a whole tree, whether it has pages without cells or not: an absent key is reported
      and changes nothing, a completed delete leaves exactly the other entries, and the tree left is well
      formed if and only if the delete is sound. */
  ghost predicate DeletesSoundly(r: Root, d: Deletion, q: Limits, k: Key) {
    && (d.Absent? <==> !Has(Contents(r), k))
    && (d.Removed? ==> Contents(d.root) == Remove(Contents(r), k))
    && (Has(Contents(r), k) ==> (SoundRoot(r, k) <==> d.Removed? && RootWf(d.root, q)))
  }

  lemma DeleteRootSoundly(r: Root, q: Limits, k: Key)
    requires RootWf(r, q)
    ensures DeletesSoundly(r, DeleteRoot(r, k), q, k)
  {
    hide DeletesSoundly, RootWf, DeleteRoot;
    match r
    case Empty => NothingDeleted(q, k);
    case At(t) => TreeSoundly(t, q, k);
  }

  lemma NothingDeleted(q: Limits, k: Key)
    ensures DeletesSoundly(Empty, DeleteRoot(Empty, k), q, k)
  {
    EmptyHas(k);
    hide Has;
  }

  lemma {:induction false} TreeSoundly(t: Tree, q: Limits, k: Key)
    requires RootWf(At(t), q)
    ensures DeletesSoundly(At(t), DeleteRoot(At(t), k), q, k)
    decreases t
  {
    hide Rank, Wf, Height, Has, Remove, Entries;
    if t.Node? && t.keys == [] {
      hide DeleteRoot;
      CollapseOk(t.kids, q, Height(t));
      assert t.kids == [t.kids[0]];
      SameBelow(t.kids[0], k);
      TreeSoundly(t.kids[0], q, k);
    } else {
      TopSoundly(t, q, k);
    }
  }

  /** A root without separators might as well not be there. */
  lemma SameBelow(t: Tree, k: Key)
    ensures DeleteRoot(At(Node([], [t])), k) == DeleteRoot(At(t), k)
  {
    hide Del.DeleteNode;
    Del.UnfoldDelete([], [t], k);
    var r := Del.DeleteNode(t, k);
    if r.Done? { assert Del.WithChild([t], 0, r.t) == [r.t]; }
  }

  lemma TopSoundly(t: Tree, q: Limits, k: Key)
    requires Wf(t, q, Height(t), LOWEST, HIGHEST) && (t.Node? ==> t.keys != [])
    ensures DeletesSoundly(At(t), DeleteRoot(At(t), k), q, k)
  {
    hide Rank, Remove, Has, Wf, Entries, Height, Del.DeleteNode, Sound.SoundToDelete, Sound.Uneven, Sound.Off;
    KeyInRange(k);
    if t.Leaf? { Sound.LeafSound(t.es, k); }
    Sound.DeleteRefines(t, q, Height(t), LOWEST, HIGHEST, k);
    var d := Del.DeleteNode(t, k);
    if d.Done? {
      CollapsedContents(d.t);
      if Sound.SoundToDelete(t, k) {
        CollapsedWf(d.t, q, Height(t));
      } else {
        CollapsedUneven(d.t, q);
      }
    }
  }

  function Collapsed(t: Tree): Root {
    match t
    case Leaf(es) => if es == [] then Empty else At(t)
    case Node(keys, kids) => if keys == [] && |kids| == 1 then At(kids[0]) else At(t)
  }

  lemma UnfoldDeleteRoot(t: Tree, k: Key)
    ensures DeleteRoot(At(t), k) ==
            match Del.DeleteNode(t, k)
            case Missing => Absent
            case Overflow => Broken
            case Done(u) => Removed(Collapsed(u))
  {
    hide Del.DeleteNode;
  }

  lemma CollapsedContents(t: Tree)
    ensures Contents(Collapsed(t)) == Entries(t)
  {
    hide Flatten;
    if t.Node? && t.keys == [] && |t.kids| == 1 {
      FlattenOne(t.kids[0]);
      assert t.kids == [t.kids[0]];
    }
  }

  lemma CollapsedWf(t: Tree, q: Limits, h: nat)
    requires Wf(t, q, h, LOWEST, HIGHEST)
    ensures RootWf(Collapsed(t), q)
  {
    hide Wf, Height;
    WfRoot(t, q, h);
    if t.Node? && t.keys == [] { CollapseOk(t.kids, q, h); }
  }

  lemma CollapsedUneven(t: Tree, q: Limits)
    requires Sound.Uneven(t)
    ensures !RootWf(Collapsed(t), q)
  {
    hide Wf;
    Sound.UnevenNode(t);
    var u := Collapsed(t).t;
    assert Sound.Uneven(u) by {
      if u != t {
        forall g: nat ensures !Sound.Even(u, g) {
          if Sound.Even(u, g) { EvenAbove(t, u, g); }
        }
      }
    }
    if Wf(u, q, Height(u), LOWEST, HIGHEST) { Sound.WfEven(u, q, Height(u), LOWEST, HIGHEST); }
  }

  lemma EvenAbove(t: Tree, u: Tree, g: nat)
    requires t == Node([], [u]) && Sound.Even(u, g)
    ensures Sound.Even(t, g + 1)
  {
  }

  lemma EmptyHas(k: Key)
    ensures !Has([], k)
  {
  }

  /** A root whose last separator is gone: its only child is the whole tree. */
  lemma CollapseOk(kids: seq<Tree>, q: Limits, h: nat)
    requires Wf(Node([], kids), q, h, LOWEST, HIGHEST)
    ensures |kids| == 1 && RootWf(At(kids[0]), q) && Entries(kids[0]) == Entries(Node([], kids))
  {
    hide Rank, Flatten, NodeUsed;
    assert kids == [kids[0]];
    FlattenOne(kids[0]);
    WfRoot(kids[0], q, h - 1);
  }

  /** Delete on a whole tree without empty pages is removal from the finite map it holds, and leaves no empty
      page; it fails exactly when it is not sound, for lack of room on its path. */
  lemma DeleteRootRefines(r: Root, q: Limits, k: Key)
    requires RootWf(r, q) && RootDense(r)
    ensures var d := DeleteRoot(r, k);
      && (d.Absent? <==> !Has(Contents(r), k))
      && (d.Removed? ==> RootWf(d.root, q) && RootDense(d.root) && Contents(d.root) == Remove(Contents(r), k))
      && (Has(Contents(r), k) ==> (SoundRoot(r, k) <==> d.Removed?))
  {
    hide Rank, Remove, Has, Wf, Entries, Height, Del.DeleteNode, Dense, RootWf, SoundTop;
    DeleteRootSoundly(r, q, k);
    if r.At? {
      DenseRemoved(r.t, q, k);
    }
  }

  lemma DenseRemoved(t: Tree, q: Limits, k: Key)
    requires RootWf(At(t), q) && Dense(t) && Occupied(t)
    ensures DeleteRoot(At(t), k).Removed? ==>
              RootWf(DeleteRoot(At(t), k).root, q) && RootDense(DeleteRoot(At(t), k).root)
  {
    hide Rank, Wf, Height, Del.DeleteNode, Dense, Occupied, Entries, Has, RoomToDelete, Sound.SoundToDelete,
         DeleteRoot, RootDense, Collapsed;
    KeyInRange(k);
    UnfoldDeleteRoot(t, k);
    Sound.DeleteExactly(t, q, Height(t), LOWEST, HIGHEST, k);
    Sound.DeleteDense(t, k);
    var d := Del.DeleteNode(t, k);
    if d.Done? {
      CollapsedWf(d.t, q, Height(t));
      CollapsedDense(d.t, q, Height(t));
    }
  }

  lemma CollapsedDense(t: Tree, q: Limits, h: nat)
    requires Dense(t) && Wf(t, q, h, LOWEST, HIGHEST)
    ensures RootDense(Collapsed(t))
  {
    hide Wf;
    if t.Node? && t.keys == [] { CollapseOk(t.kids, q, h); }
  }

  // ---- histories ----

  datatype Op = Write(k: Key, v: Bytes, mode: Upd.Mode) | Erase(k: Key)

  /** Values count as far as they read back. */
  function Applies(m: map<Key, Bytes>, op: Op): map<Key, Bytes> {
    match op
    case Erase(k) => m - {k}
    case Write(k, v, Upsert) => m[k := AsRead(v)]
    case Write(k, v, Insert) => if k in m then m else m[k := AsRead(v)]
    case Write(k, v, Update) => if k in m then m[k := AsRead(v)] else m
  }

  function RunMap(m: map<Key, Bytes>, ops: seq<Op>): map<Key, Bytes>
    decreases |ops|
  {
    if ops == [] then m else RunMap(Applies(m, ops[0]), ops[1..])
  }

  datatype State = Intact(root: Root) | Damaged

  function Step(r: Root, op: Op): State {
    match op
    case Write(k, v, mode) =>
      var o := UpdateRoot(r, k, v, mode);
      Intact(if o.Ok? then o.root else r)
    case Erase(k) =>
      match DeleteRoot(r, k)
      case Absent => Intact(r)
      case Broken => Damaged
      case Removed(r') => Intact(r')
  }

  /** A history of calls on one tree; it stops at a delete whose repair does not fit. */
  function Run(r: Root, ops: seq<Op>): State
    decreases |ops|
  {
    if ops == [] then Intact(r)
    else
      var s := Step(r, ops[0]);
      if s.Damaged? then Damaged else Run(s.root, ops[1..])
  }

  predicate OpOk(op: Op, q: Limits) { op.Write? ==> Storable(Entry(op.k, op.v), q) }

  ghost predicate RootOk(r: Root, q: Limits) { RootWf(r, q) && RootDense(r) }

  lemma StepRefines(r: Root, q: Limits, op: Op)
    requires RootOk(r, q) && OpOk(op, q)
    ensures Step(r, op).Intact? ==> RootOk(Step(r, op).root, q) && AsMap(Step(r, op).root) == Applies(AsMap(r), op)
  {
    hide Rank, Put, Remove, Has, RootWf, RootDense, Contents, UpdateRoot, DeleteRoot, ToMap, WriteTo, AsRead, AllRead,
         Sorted, SoundRoot;
    ContentsSorted(r, q);
    AllReadHas(Contents(r), op.k);
    ToMapKeys(AllRead(Contents(r)), op.k);
    match op
    case Write(k, v, mode) =>
      UpdateRootRefines(r, q, k, v, mode);
      UpdateRootDense(r, q, k, v, mode);
      WriteIsUpdate(Contents(r), k, v);
    case Erase(k) =>
      DeleteRootRefines(r, q, k);
      RemoveFromMap(Contents(r), k);
  }

  /** Every history that is not stopped by a full page leaves exactly the map the same operations
      build, in a well-formed tree without empty pages. */
  lemma {:induction false} RunRefines(r: Root, q: Limits, ops: seq<Op>)
    requires RootOk(r, q) && forall i :: 0 <= i < |ops| ==> OpOk(ops[i], q)
    ensures Run(r, ops).Intact? ==> RootOk(Run(r, ops).root, q) && AsMap(Run(r, ops).root) == RunMap(AsMap(r), ops)
    decreases |ops|
  {
    hide Rank, RootOk, Step, ToMap, Applies, OpOk;
    if ops != [] {
      StepRefines(r, q, ops[0]);
      var s := Step(r, ops[0]);
      if s.Intact? { RunRefines(s.root, q, ops[1..]); }
    }
  }

  lemma StepIntact(r: Root, q: Limits, op: Op)
    requires RootOk(r, q) && OpOk(op, q) && Modest(q) && q.minKey == q.maxKey
    ensures Step(r, op).Intact?
  {
    hide Rank, Wf, Del.DeleteNode, Upd.UpdateNode, Roomy, Dense, Height;
    if op.Erase? && r.At? {
      KeyInRange(op.k);
      FixedLengthRoomy(r.t, q, Height(r.t), LOWEST, HIGHEST);
      Sound.DeleteFits(r.t, q, Height(r.t), LOWEST, HIGHEST, op.k);
    }
  }

  /** With keys of one length and modest cells, no history is ever stopped: every sequence of writes
      and deletes, from any well-formed tree, does exactly what it does to a map. */
  lemma {:induction false} FixedLengthRun(r: Root, q: Limits, ops: seq<Op>)
    requires RootOk(r, q) && forall i :: 0 <= i < |ops| ==> OpOk(ops[i], q)
    requires Modest(q) && q.minKey == q.maxKey
    ensures Run(r, ops).Intact? && RootOk(Run(r, ops).root, q)
    ensures AsMap(Run(r, ops).root) == RunMap(AsMap(r), ops)
    decreases |ops|
  {
    RunRefines(r, q, ops);
    hide Rank, RootOk, Step, ToMap, Applies, OpOk, RunMap;
    if ops != [] {
      StepIntact(r, q, ops[0]);
      StepRefines(r, q, ops[0]);
      FixedLengthRun(Step(r, ops[0]).root, q, ops[1..]);
    }
  }
}
