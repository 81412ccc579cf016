/** What Update does to a tree, as a function on trees, and the proof that it refines map update. */
module TreeUpdate {
  import opened Keys
  import opened OrderedMap
  import opened Layout
  import opened Trees
  import opened Values
  import Seqs

  datatype Mode = Upsert | Insert | Update

  /** A rewritten subtree: one page in place of the old, or two with a separator between them. */
  datatype Grown = One(t: Tree) | Two(left: Tree, sep: Key, right: Tree)

  datatype Result = Same | KeyExists | KeyNotFound | Changed(g: Grown)

  /** A leaf holding es, or two leaves if es is too large for one page. */
  function GrowLeaf(es: seq<Entry>): Grown {
    if LeafUsed(es) <= PAGE_SIZE then One(Leaf(es))
    else
      var s := LeafSplit(EntryCosts(es));
      Two(Leaf(es[..s]), es[s].key, Leaf(es[s..]))
  }

  function GrowNode(keys: seq<Key>, kids: seq<Tree>): Grown
    requires |kids| == |keys| + 1
  {
    if NodeUsed(keys) <= PAGE_SIZE then One(Node(keys, kids))
    else
      var s := InternalSplit(SepCosts(keys));
      Two(Node(keys[..s], kids[..s + 1]), keys[s], Node(keys[s + 1..], kids[s + 1..]))
  }

  function UpdateLeaf(es: seq<Entry>, k: Key, v: Bytes, mode: Mode): Result {
    var i := LeafSlot(es, k);
    if i < |es| && es[i].key == k then
      if mode == Insert then KeyExists
      else if AsRead(es[i].value) == v then Same
      else Changed(GrowLeaf(es[..i] + [Entry(k, v)] + es[i + 1..]))
    else
      if mode == Update then KeyNotFound
      else Changed(GrowLeaf(es[..i] + [Entry(k, v)] + es[i..]))
  }

  /** Separators and children of a node once child c has been replaced by what it grew into. */
  function Separators'(keys: seq<Key>, c: nat, g: Grown): seq<Key>
    requires c <= |keys|
  {
    if g.One? then keys else keys[..c] + ([g.sep] + keys[c..])
  }

  function Children'(kids: seq<Tree>, c: nat, g: Grown): seq<Tree>
    requires c < |kids|
  {
    if g.One? then kids[..c] + ([g.t] + kids[c + 1..]) else kids[..c] + ([g.left, g.right] + kids[c + 1..])
  }

  /** The effect of writing (k, v) below a node, in the given mode. */
  function UpdateNode(t: Tree, k: Key, v: Bytes, mode: Mode): Result {
    match t
    case Leaf(es) => UpdateLeaf(es, k, v, mode)
    case Node(keys, kids) =>
      if |kids| != |keys| + 1 then Same else
      var c := ChildSlot(keys, k);
      var r := UpdateNode(kids[c], k, v, mode);
      if r.Changed? then Changed(GrowNode(Separators'(keys, c, r.g), Children'(kids, c, r.g))) else r
  }

  lemma UnfoldUpdate(keys: seq<Key>, kids: seq<Tree>, k: Key, v: Bytes, mode: Mode)
    requires |kids| == |keys| + 1
    ensures var c := ChildSlot(keys, k);
      var r := UpdateNode(kids[c], k, v, mode);
      UpdateNode(Node(keys, kids), k, v, mode) ==
        if r.Changed? then Changed(GrowNode(Separators'(keys, c, r.g), Children'(kids, c, r.g))) else r
  {
    hide ChildSlot, GrowNode;
  }

  // ---- correctness ----

  ghost predicate GrownOk(g: Grown, q: Limits, h: nat, lo: real, hi: real) {
    match g
    case One(t) => Wf(t, q, h, lo, hi)
    case Two(l, s, r) =>
      && KeyOk(s, q) && lo < Rank(s) < hi
      && Wf(l, q, h, lo, Rank(s)) && Wf(r, q, h, Rank(s), hi)
  }

  ghost function GrownEntries(g: Grown): seq<Entry> {
    match g
    case One(t) => Entries(t)
    case Two(l, _, r) => Entries(l) + Entries(r)
  }

  ghost predicate GrownDense(g: Grown) {
    match g
    case One(t) => Occupied(t) && Dense(t)
    case Two(l, _, r) => Occupied(l) && Dense(l) && Occupied(r) && Dense(r)
  }

  lemma CostBounds(es: seq<Entry>, q: Limits, lo: real, hi: real)
    requires LeafOk(es, q, lo, hi)
    ensures forall i :: 0 <= i < |es| ==> EntryCosts(es)[i] <= 1023
  {
    forall i | 0 <= i < |es| ensures EntryCosts(es)[i] <= 1023 { CellBounds(es[i], q); }
  }

  /** A leaf that one write made too large splits into two leaves that fit. */
  lemma GrowLeafOk(es: seq<Entry>, q: Limits, lo: real, hi: real)
    requires LeafOk(es, q, lo, hi) && es != []
    requires LeafUsed(es) <= PAGE_SIZE + 1023
    ensures GrownOk(GrowLeaf(es), q, 0, lo, hi)
    ensures GrownEntries(GrowLeaf(es)) == es
    ensures GrownDense(GrowLeaf(es))
  {
    hide Rank, Sum, LeafSplit, LeafOk;
    if LeafUsed(es) > PAGE_SIZE {
      var cs := EntryCosts(es);
      CostBounds(es, q, lo, hi);
      LeafSplitFits(cs);
      var s := LeafSplit(cs);
      assert EntryCosts(es[..s]) == cs[..s];
      assert EntryCosts(es[s..]) == cs[s..];
      CutLeaf(es, q, lo, hi, s);
    }
  }

  lemma GrowNodeOk(keys: seq<Key>, kids: seq<Tree>, q: Limits, h: nat, lo: real, hi: real)
    requires Forest(keys, kids, q, h, lo, hi)
    requires NodeUsed(keys) <= PAGE_SIZE + 1020
    ensures GrownOk(GrowNode(keys, kids), q, h + 1, lo, hi)
    ensures GrownEntries(GrowNode(keys, kids)) == Flatten(kids)
  {
    hide Rank, Sum, InternalSplit, Flatten;
    if NodeUsed(keys) > PAGE_SIZE {
      var s := SplitPoint(keys);
      ForestCut(keys, kids, q, h, lo, hi, s);
      Seqs.Parts(kids, s + 1);
      FlattenAppend(kids[..s + 1], kids[s + 1..]);
    }
  }

  /** Both halves of a split internal page fit, and keep two separators each. */
  lemma SplitPoint(keys: seq<Key>) returns (s: nat)
    requires forall i :: 0 <= i < |keys| ==> |keys[i]| <= MAX_KEY
    requires PAGE_SIZE < NodeUsed(keys) <= PAGE_SIZE + 1020
    ensures s == InternalSplit(SepCosts(keys)) && 2 <= s < |keys| - 2
    ensures NodeUsed(keys[..s]) <= PAGE_SIZE && NodeUsed(keys[s + 1..]) <= PAGE_SIZE
  {
    hide Sum, InternalSplit;
    var cs := SepCosts(keys);
    InternalSplitFits(cs);
    s := InternalSplit(cs);
    assert SepCosts(keys[..s]) == cs[..s];
    assert SepCosts(keys[s + 1..]) == cs[s + 1..];
  }

  lemma GrowNodeDense(keys: seq<Key>, kids: seq<Tree>, q: Limits, h: nat, lo: real, hi: real)
    requires Forest(keys, kids, q, h, lo, hi) && keys != []
    requires NodeUsed(keys) <= PAGE_SIZE + 1020
    requires forall i :: 0 <= i < |kids| ==> Occupied(kids[i]) && Dense(kids[i])
    ensures GrownDense(GrowNode(keys, kids))
  {
    hide Rank, Sum, InternalSplit, Wf;
    if NodeUsed(keys) > PAGE_SIZE {
      var s := SplitPoint(keys);
      var upper := kids[s + 1..];
      forall i | 0 <= i < |upper| ensures Occupied(upper[i]) && Dense(upper[i]) {
        assert upper[i] == kids[s + 1 + i];
      }
    }
  }

  /** The leaf itself: a new cell grows the page by at most one cell. */
  lemma LeafGrowth(a: seq<Entry>, was: seq<Entry>, e: Entry, c: seq<Entry>, q: Limits)
    requires Storable(e, q)
    ensures LeafUsed(a + [e] + c) <= LeafUsed(a + was + c) + 1023
  {
    hide Sum;
    CellBounds(e, q);
    EntryCostsAppend(a + [e], c);
    EntryCostsAppend(a, [e]);
    EntryCostsAppend(a + was, c);
    EntryCostsAppend(a, was);
    assert EntryCosts([e]) == [EntryCost(e)];
    SumOne(EntryCost(e));
  }

  /** Writing an entry into its slot of a leaf is Put on the leaf's entries. */
  lemma LeafPut(es: seq<Entry>, k: Key, v: Bytes)
    requires Sorted(es)
    ensures var i := LeafSlot(es, k);
      Put(es, k, v) == es[..i] + [Entry(k, v)] + (if i < |es| && es[i].key == k then es[i + 1..] else es[i..])
  {
    var i := LeafSlot(es, k);
    LeafSlotBounds(es, k);
    hide Rank, LeafSlot, Sorted, Put;
    PutInto(es[..i], es[i..], k, v);
    Seqs.Parts(es, i);
  }

  lemma PutInto(a: seq<Entry>, b: seq<Entry>, k: Key, v: Bytes)
    requires AllBelow(a, Rank(k)) && AllFrom(b, Rank(k))
    ensures Put(a + b, k, v) == a + [Entry(k, v)] + (if b != [] && b[0].key == k then b[1..] else b)
  {
    PutAfter(a, b, k, v);
    hide Rank;
  }

  lemma {:induction false} PutMembers(es: seq<Entry>, k: Key, v: Bytes, i: nat)
    requires i < |Put(es, k, v)|
    ensures Put(es, k, v)[i] == Entry(k, v) || Put(es, k, v)[i] in es
  {
    hide Rank;
    if es != [] && Rank(es[0].key) < Rank(k) && i > 0 {
      PutMembers(es[1..], k, v, i - 1);
    }
  }

  lemma LeafPutOk(es: seq<Entry>, k: Key, v: Bytes, q: Limits, lo: real, hi: real)
    requires LeafOk(es, q, lo, hi) && lo <= Rank(k) < hi && Storable(Entry(k, v), q)
    ensures LeafOk(Put(es, k, v), q, lo, hi)
  {
    PutSorted(es, k, v);
    hide Rank, Put, Sorted;
    var put := Put(es, k, v);
    forall i | 0 <= i < |put| ensures Storable(put[i], q) && lo <= Rank(put[i].key) < hi {
      PutMembers(es, k, v, i);
    }
  }

  lemma LeafPutGrowth(es: seq<Entry>, k: Key, v: Bytes, q: Limits)
    requires Sorted(es) && Storable(Entry(k, v), q)
    ensures LeafUsed(Put(es, k, v)) <= LeafUsed(es) + 1023 && Put(es, k, v) != []
  {
    var i := LeafSlot(es, k);
    LeafPut(es, k, v);
    hide Rank, LeafSlot, LeafUsed, Sorted, Put;
    if i < |es| && es[i].key == k {
      LeafGrowth(es[..i], [es[i]], Entry(k, v), es[i + 1..], q);
      Seqs.Around(es, i);
    } else {
      LeafGrowth(es[..i], [], Entry(k, v), es[i..], q);
      Seqs.Parts(es, i);
      Seqs.Empty(es[..i]);
    }
  }

  /** What Update promises below one node: the outcome is decided by the mode and by whether the key is
      present, and the entries become exactly Put of the old ones, unless the key already reads so. */
  ghost predicate Refines(r: Result, es: seq<Entry>, k: Key, v: Bytes, mode: Mode, q: Limits, h: nat, lo: real,
                          hi: real) {
    match r
    case KeyExists => mode == Insert && Has(es, k)
    case KeyNotFound => mode == Update && !Has(es, k)
    case Same => mode != Insert && Has(es, k) && Reads(es, k, v)
    case Changed(g) =>
      && (if Has(es, k) then mode != Insert else mode != Update) && !Reads(es, k, v)
      && GrownOk(g, q, h, lo, hi) && GrownEntries(g) == Put(es, k, v)
  }

  lemma UpdateLeafRefines(es: seq<Entry>, q: Limits, lo: real, hi: real, k: Key, v: Bytes, mode: Mode)
    requires Wf(Leaf(es), q, 0, lo, hi)
    requires lo <= Rank(k) < hi && Storable(Entry(k, v), q)
    ensures Refines(UpdateLeaf(es, k, v, mode), es, k, v, mode, q, 0, lo, hi)
    ensures UpdateLeaf(es, k, v, mode).Changed? ==> GrownDense(UpdateLeaf(es, k, v, mode).g)
  {
    hide Rank, Put, LeafSlot, GrowLeaf, GrownOk, GrownEntries, GrownDense, LeafUsed, Has, Sorted, Storable, Reads,
         AsRead;
    var i := LeafSlot(es, k);
    LeafSlotFinds(es, k);
    LeafPut(es, k, v);
    LeafPutOk(es, k, v, q, lo, hi);
    LeafPutGrowth(es, k, v, q);
    GrowLeafOk(Put(es, k, v), q, lo, hi);
    LeafReads(es, k, v);
  }

  lemma OneSlot(es: seq<Entry>, i: nat, j: nat)
    requires Sorted(es) && i < |es| && j < |es| && es[i].key == es[j].key
    ensures i == j
  {
    hide Rank;
  }

  lemma LeafReads(es: seq<Entry>, k: Key, v: Bytes)
    requires Sorted(es)
    ensures var i := LeafSlot(es, k);
      Reads(es, k, v) <==> i < |es| && es[i].key == k && AsRead(es[i].value) == v
  {
    hide AsRead, LeafSlot, Rank;
    LeafSlotFinds(es, k);
    if Reads(es, k, v) {
      var j :| 0 <= j < |es| && es[j].key == k && AsRead(es[j].value) == v;
      assert Has(es, k);
      var i := LeafSlot(es, k);
      OneSlot(es, i, j);
    }
  }

  lemma SeparatorsGrow(keys: seq<Key>, c: nat, sep: Key)
    requires c <= |keys| && |sep| <= MAX_KEY
    ensures NodeUsed(keys[..c] + ([sep] + keys[c..])) == NodeUsed(keys) + SepCost(sep)
  {
    hide Sum;
    SepCostsAppend(keys[..c], [sep] + keys[c..]);
    SepCostsAppend([sep], keys[c..]);
    assert SepCosts([sep]) == [SepCost(sep)];
    SumOne(SepCost(sep));
    Seqs.Parts(keys, c);
    SepCostsAppend(keys[..c], keys[c..]);
  }

  /** Putting back what child c grew into keeps the node a forest over the same range. */
  lemma GrownForest(keys: seq<Key>, kids: seq<Tree>, q: Limits, h: nat, lo: real, hi: real, c: nat, g: Grown)
    requires Forest(keys, kids, q, h, lo, hi) && c < |kids| && NodeUsed(keys) <= PAGE_SIZE
    requires GrownOk(g, q, h, Lo(keys, c, lo), Hi(keys, c, hi))
    ensures Forest(Separators'(keys, c, g), Children'(kids, c, g), q, h, lo, hi)
    ensures NodeUsed(Separators'(keys, c, g)) <= PAGE_SIZE + 1020
  {
    var l, u := Lo(keys, c, lo), Hi(keys, c, hi);
    if g.One? {
      ForestOne(g.t, q, h, l, u);
      ForestSplice(keys, kids, q, h, lo, hi, c, [], [g.t]);
      Seqs.Empty(keys[c..]);
      Seqs.Parts(keys, c);
    } else {
      ForestOne(g.left, q, h, l, Rank(g.sep));
      ForestOne(g.right, q, h, Rank(g.sep), u);
      hide Wf, Rank, NodeUsed;
      ForestJoin([], [g.left], g.sep, [], [g.right], q, h, l, u);
      assert [] + [g.sep] + [] == [g.sep];
      assert [g.left] + [g.right] == [g.left, g.right];
      ForestSplice(keys, kids, q, h, lo, hi, c, [g.sep], [g.left, g.right]);
      SeparatorsGrow(keys, c, g.sep);
    }
  }

  lemma GrownFlatten(kids: seq<Tree>, c: nat, g: Grown)
    requires c < |kids|
    ensures Flatten(Children'(kids, c, g)) == Flatten(kids[..c]) + GrownEntries(g) + Flatten(kids[c + 1..])
  {
    hide Flatten, Entries;
    var mid := if g.One? then [g.t] else [g.left, g.right];
    FlattenAppend(kids[..c], mid + kids[c + 1..]);
    FlattenAppend(mid, kids[c + 1..]);
    if g.One? { FlattenOne(g.t); } else { FlattenTwo(g.left, g.right); }
    Seqs.Assoc(Flatten(kids[..c]), Flatten(mid), Flatten(kids[c + 1..]));
  }

  /** Put on a node's entries is Put on the entries of the child the key belongs to. */
  lemma PutInChild(keys: seq<Key>, kids: seq<Tree>, q: Limits, h: nat, lo: real, hi: real, k: Key, v: Bytes)
    requires Forest(keys, kids, q, h, lo, hi) && lo <= Rank(k) < hi
    ensures var c := ChildSlot(keys, k);
      Put(Flatten(kids), k, v) == Flatten(kids[..c]) + Put(Entries(kids[c]), k, v) + Flatten(kids[c + 1..])
  {
    hide Flatten, Entries, Put, Rank, Wf, ChildSlot;
    var c := ChildSlot(keys, k);
    ChildSlotRange(keys, k, q, lo, hi);
    EntriesAround(keys, kids, q, h, lo, hi, c);
    FlattenAround(kids, c);
    PutWithin(Flatten(kids[..c]), Entries(kids[c]), Flatten(kids[c + 1..]), k, v);
  }

  /** One level up: if what the child became is right, so is what the node becomes. */
  lemma ChangeInNode(keys: seq<Key>, kids: seq<Tree>, q: Limits, h: nat, lo: real, hi: real, k: Key, v: Bytes, g: Grown)
    requires Forest(keys, kids, q, h, lo, hi) && NodeUsed(keys) <= PAGE_SIZE && lo <= Rank(k) < hi
    requires var c := ChildSlot(keys, k);
      && GrownOk(g, q, h, Lo(keys, c, lo), Hi(keys, c, hi))
      && GrownEntries(g) == Put(Entries(kids[c]), k, v)
    ensures var c := ChildSlot(keys, k);
      var g' := GrowNode(Separators'(keys, c, g), Children'(kids, c, g));
      GrownOk(g', q, h + 1, lo, hi) && GrownEntries(g') == Put(Flatten(kids), k, v)
  {
    hide Flatten, Entries, Put, Rank, Wf, ChildSlot, GrownOk, GrownEntries, Separators, NodeUsed;
    var c := ChildSlot(keys, k);
    GrownForest(keys, kids, q, h, lo, hi, c, g);
    GrowNodeOk(Separators'(keys, c, g), Children'(kids, c, g), q, h, lo, hi);
    GrownFlatten(kids, c, g);
    PutInChild(keys, kids, q, h, lo, hi, k, v);
  }

  /** A key reads so in a node exactly when it reads so in the child it belongs to. */
  lemma ReadsInChild(keys: seq<Key>, kids: seq<Tree>, q: Limits, h: nat, lo: real, hi: real, k: Key, v: Bytes)
    requires Forest(keys, kids, q, h, lo, hi) && lo <= Rank(k) < hi
    ensures Reads(Flatten(kids), k, v) <==> Reads(Entries(kids[ChildSlot(keys, k)]), k, v)
  {
    hide Flatten, Entries, Reads, Rank, Wf, ChildSlot;
    var c := ChildSlot(keys, k);
    ChildSlotRange(keys, k, q, lo, hi);
    EntriesAround(keys, kids, q, h, lo, hi, c);
    FlattenAround(kids, c);
    ReadsWithin(Flatten(kids[..c]), Entries(kids[c]), Flatten(kids[c + 1..]), k, v);
  }

  /** Update refines map insertion and replacement in all three modes, on every well-formed tree
      and every storable entry: content, key order, separator bounds, leaf depth and page sizes. */
  lemma {:induction false} UpdateRefines(t: Tree, q: Limits, h: nat, lo: real, hi: real, k: Key, v: Bytes, mode: Mode)
    requires Wf(t, q, h, lo, hi)
    requires lo <= Rank(k) < hi && Storable(Entry(k, v), q)
    ensures Refines(UpdateNode(t, k, v, mode), Entries(t), k, v, mode, q, h, lo, hi)
    decreases h
  {
    match t
    case Leaf(es) => UpdateLeafRefines(es, q, lo, hi, k, v, mode);
    case Node(keys, kids) =>
      hide Flatten, Put, Rank, ChildSlot, GrowNode, GrownOk, GrownEntries, Has, Separators', Children', NodeUsed, Wf,
           Forest, UpdateNode, Reads;
      var c := ChildSlot(keys, k);
      WfNode(keys, kids, q, h, lo, hi, c);
      UnfoldUpdate(keys, kids, k, v, mode);
      ChildSlotRange(keys, k, q, lo, hi);
      UpdateRefines(kids[c], q, h - 1, Lo(keys, c, lo), Hi(keys, c, hi), k, v, mode);
      HasInChild(keys, kids, q, h - 1, lo, hi, k);
      ReadsInChild(keys, kids, q, h - 1, lo, hi, k, v);
      var r := UpdateNode(kids[c], k, v, mode);
      if r.Changed? {
        ChangeInNode(keys, kids, q, h - 1, lo, hi, k, v, r.g);
      }
  }

  lemma GrownKeepsKeys(keys: seq<Key>, c: nat, g: Grown)
    requires c <= |keys| && keys != []
    ensures Separators'(keys, c, g) != []
  {
  }

  lemma ChildrenDense(kids: seq<Tree>, c: nat, g: Grown)
    requires c < |kids| && GrownDense(g)
    requires forall i :: 0 <= i < |kids| ==> Occupied(kids[i]) && Dense(kids[i])
    ensures var ts := Children'(kids, c, g); forall i :: 0 <= i < |ts| ==> Occupied(ts[i]) && Dense(ts[i])
  {
    hide Dense, Occupied;
    var ts := Children'(kids, c, g);
    forall i | 0 <= i < |ts| ensures Occupied(ts[i]) && Dense(ts[i]) {
      if i >= |ts| - (|kids| - c - 1) {
        assert ts[i] == kids[i - (|ts| - |kids|)];
      }
    }
  }

  /** Update leaves no page below the root without cells. */
  lemma {:induction false} UpdateDense(t: Tree, q: Limits, h: nat, lo: real, hi: real, k: Key, v: Bytes, mode: Mode)
    requires Wf(t, q, h, lo, hi) && Dense(t) && (t.Node? ==> Occupied(t))
    requires lo <= Rank(k) < hi && Storable(Entry(k, v), q)
    ensures UpdateNode(t, k, v, mode).Changed? ==> GrownDense(UpdateNode(t, k, v, mode).g)
    decreases h
  {
    match t
    case Leaf(es) => UpdateLeafRefines(es, q, lo, hi, k, v, mode);
    case Node(keys, kids) =>
      hide Put, Rank, ChildSlot, GrowNode, GrownOk, GrownEntries, Has, NodeUsed, GrownDense, Entries, Wf, Forest,
           UpdateNode;
      var c := ChildSlot(keys, k);
      WfNode(keys, kids, q, h, lo, hi, c);
      UnfoldUpdate(keys, kids, k, v, mode);
      ChildSlotRange(keys, k, q, lo, hi);
      UpdateDense(kids[c], q, h - 1, Lo(keys, c, lo), Hi(keys, c, hi), k, v, mode);
      UpdateRefines(kids[c], q, h - 1, Lo(keys, c, lo), Hi(keys, c, hi), k, v, mode);
      var r := UpdateNode(kids[c], k, v, mode);
      if r.Changed? {
        GrownForest(keys, kids, q, h - 1, lo, hi, c, r.g);
        GrownKeepsKeys(keys, c, r.g);
        ChildrenDense(kids, c, r.g);
        GrowNodeDense(Separators'(keys, c, r.g), Children'(kids, c, r.g), q, h - 1, lo, hi);
      }
  }

  // ---- pages are split only when they are full ----

  /** What becomes of a leaf's entries: one page if they take at most 4096 bytes, and otherwise two, cut where the
      left one passes half the size. */
  ghost predicate Paged(es: seq<Entry>, g: Grown) {
    var costs := EntryCosts(es);
    if 5 + Sum(costs) <= 4096 then g == One(Leaf(es))
    else
      && g.Two? && g.left.Leaf? && g.right.Leaf? && g.left.es + g.right.es == es
      && var s := |g.left.es|;
         0 < s && Sum(costs[..s - 1]) <= Sum(costs) / 2 < Sum(costs[..s])
  }

  lemma GrowLeafPaged(es: seq<Entry>, q: Limits, lo: real, hi: real)
    requires LeafOk(es, q, lo, hi) && LeafUsed(es) <= PAGE_SIZE + 1023
    ensures Paged(es, GrowLeaf(es))
  {
    hide Sum, LeafSplit, Sorted, Storable, Rank;
    if LeafUsed(es) > PAGE_SIZE {
      CostBounds(es, q, lo, hi);
      LeafSplitFits(EntryCosts(es));
      Seqs.Parts(es, LeafSplit(EntryCosts(es)));
    }
  }

  lemma UpdateLeafGrows(es: seq<Entry>, k: Key, v: Bytes, mode: Mode)
    requires Sorted(es)
    ensures var r := UpdateNode(Leaf(es), k, v, mode); r.Changed? ==> r.g == GrowLeaf(Put(es, k, v))
  {
    LeafPut(es, k, v);
    hide Rank, LeafSlot, Put, GrowLeaf, AsRead, Sorted;
  }

  /** A write splits a leaf if and only if its entries would then take more than 4096 bytes. */
  lemma LeafSplitsWhenFull(es: seq<Entry>, q: Limits, lo: real, hi: real, k: Key, v: Bytes, mode: Mode)
    requires Wf(Leaf(es), q, 0, lo, hi) && lo <= Rank(k) < hi && Storable(Entry(k, v), q)
    ensures var r := UpdateNode(Leaf(es), k, v, mode); r.Changed? ==> Paged(Put(es, k, v), r.g)
  {
    LeafPutOk(es, k, v, q, lo, hi);
    LeafPutGrowth(es, k, v, q);
    UpdateLeafGrows(es, k, v, mode);
    hide Rank, Put, Storable, Sorted, UpdateNode, Paged, GrowLeaf, LeafUsed;
    GrowLeafPaged(Put(es, k, v), q, lo, hi);
  }

  /** An internal page is split if and only if a child was, and the new separator does not fit. */
  lemma NodeSplitsWhenFull(keys: seq<Key>, kids: seq<Tree>, k: Key, v: Bytes, mode: Mode)
    requires |kids| == |keys| + 1 && 13 + Sum(SepCosts(keys)) <= 4096
    ensures var c, r := ChildSlot(keys, k), UpdateNode(Node(keys, kids), k, v, mode);
      var child := UpdateNode(kids[c], k, v, mode);
      && (r.Changed? <==> child.Changed?)
      && (child.Changed? ==> (r.g.Two? <==> child.g.Two? && 13 + Sum(SepCosts(keys)) + 12 + |child.g.sep| > 4096))
      && (child.Changed? && child.g.One? ==> r.g == One(Node(keys, kids[c := child.g.t])))
  {
    hide ChildSlot, Sum, Put;
    var c := ChildSlot(keys, k);
    UnfoldUpdate(keys, kids, k, v, mode);
    var child := UpdateNode(kids[c], k, v, mode);
    hide UpdateNode;
    if child.Changed? {
      if child.g.Two? {
        NewSeparator(keys, c, child.g.sep);
      } else {
        assert kids[..c] + ([child.g.t] + kids[c + 1..]) == kids[c := child.g.t];
      }
    }
  }

  lemma SomeCosts(cs: seq<nat>)
    ensures Sum(cs) > 0 ==> cs != []
  {
  }

  /** What becomes of an internal page's separators: one page if they take at most 4096 bytes, and otherwise two around
      the separator with which the left one would pass half the size. */
  lemma GrowNodePaged(keys: seq<Key>, kids: seq<Tree>)
    requires |kids| == |keys| + 1 && (forall i :: 0 <= i < |keys| ==> |keys[i]| <= MAX_KEY)
    requires NodeUsed(keys) <= PAGE_SIZE + 1020
    ensures var g, costs := GrowNode(keys, kids), SepCosts(keys);
      if 13 + Sum(costs) <= 4096 then g == One(Node(keys, kids))
      else
        && g.Two? && g.left.Node? && g.right.Node? && g.left.kids + g.right.kids == kids
        && g.left.keys + [g.sep] + g.right.keys == keys
        && Sum(costs[..|g.left.keys|]) <= Sum(costs) / 2 < Sum(costs[..|g.left.keys| + 1])
  {
    hide Sum, InternalSplit;
    if NodeUsed(keys) > PAGE_SIZE {
      SomeCosts(SepCosts(keys));
      var s := InternalSplit(SepCosts(keys));
      InternalSplitFits(SepCosts(keys));
      Seqs.Around(keys, s);
      Seqs.Parts(kids, s + 1);
    }
  }

  lemma NewSeparator(keys: seq<Key>, c: nat, sep: Key)
    requires c <= |keys|
    ensures NodeUsed(keys[..c] + ([sep] + keys[c..])) == NodeUsed(keys) + 12 + |sep|
  {
    hide Sum;
    SepCostsAppend(keys[..c], [sep] + keys[c..]);
    SepCostsAppend([sep], keys[c..]);
    assert SepCosts([sep]) == [SepCost(sep)];
    SumOne(SepCost(sep));
    Seqs.Parts(keys, c);
    SepCostsAppend(keys[..c], keys[c..]);
  }
}
