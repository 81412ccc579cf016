/** Committed databases of named buckets: beginning, committing and crashing transactions on them. */
module Databases {
  import Hist = TreeHistory
  import opened Pages
  import opened Protocol
  import opened ProtocolSafety
  import opened ProtocolRuns
  import opened ProtocolReaders
  import opened Transactions
  import opened Placed
  import BTrees
  import opened Commits
  import opened Tenants
  import opened Buckets
  import PagePairs
  import Snapshots
  import opened BucketTxns

  // ---- committed databases ----

  /** A database: its catalog tree and the trees of its buckets. */
  datatype Content = Content(cat: PTree, trees: map<Name, Tenant>)

  /** The version holds the database, and nothing else: its pages are those of the catalog, of the freelist
      chain and of every bucket's tree, each used once. */
  ghost predicate VersionHolds(ver: Version, d: Content) {
    var cat := Tenant(ver.meta.catalogRoot, d.cat);
    && CatOk(ver.image, cat, Roots(d.trees)) && AllOk(ver.image, d.trees)
    && multiset(ver.image.Keys) == Fixed(cat, ver.chain) + AllPages(d.trees)
  }

  /** Between transactions the current version is this database. */
  ghost predicate Holds(s: State, d: Content) {
    && Inv(s) && s.phase == Idle && s.current.txnID in s.versions
    && s.versions[s.current.txnID].meta == s.current && VersionHolds(s.versions[s.current.txnID], d)
  }

  /** A new database has no buckets. */
  lemma InitHolds()
    ensures Holds(Init(), Content(PLeaf(0, []), map[]))
  {
    InitKeeps();
    hide Inv;
    NoPages(map[], []);
    assert Roots(map[]) == map[] && Encoded(map[]) == map[];
  }

  /** Begin: the transaction sees exactly the committed buckets. */
  method Begin(db: DB, ghost d: Content) returns (t: Txn)
    requires Holds(db.View(), d)
    modifies db
    ensures t.db == db && fresh(t) && t.Valid() && t.trees == d.trees && t.base == Roots(d.trees)
    ensures db.current == old(db.current) && db.versions == old(db.versions) && db.current.txnID in db.versions
    ensures db.meta == db.current && t.cat == Tenant(db.current.catalogRoot, d.cat) && t.buckets == map[]
  {
    hide Inv, Stored, Shape, TreePages, Hist.RootWf, Hist.RootDense, Hist.AsMap, BeginWriteStep, AllPages, Encoded,
         TenantOk, AllOk, PagesOf;
    ghost var s := db.View();
    ReaderBegins(s);
    BeginWriteFields(s);
    ghost var ver := s.versions[s.current.txnID];
    db.BeginWrite();
    ghost var cat := Tenant(db.meta.catalogRoot, d.cat);
    OneInStore(ver.image, db.cache, cat);
    AllInStore(ver.image, db.cache, d.trees);
    NothingSeen(Roots(d.trees));
    t := new Txn(db, cat, Roots(d.trees), d.trees);
  }

  lemma OneInStore(image: Store, store: Store, b: Tenant)
    requires TenantOk(image, b) && Keeps(store, image)
    ensures TenantOk(store, b)
  {
    hide Stored, Keeps, Hist.RootWf, Shape;
    if b.root != 0 { Snapshots.TreeInStore(image, store, b.tree); }
  }

  lemma NothingSeen(base: map<Name, PageId>)
    ensures Agree(base, map[]) && NowOf(base, map[]) == base
  {
  }

  /** The database a commit makes: what the transaction sees, and an empty bucket for every name the catalog
      overlooks. */
  ghost function Overlooking(m: map<Name, Tenant>, names: set<Name>): map<Name, Tenant> {
    m + map n | n in names :: Tenant(0, PLeaf(0, []))
  }

  lemma {:induction false} OverlookingPages(c: Store, m: map<Name, Tenant>, names: set<Name>)
    requires AllOk(c, m) && m.Keys !! names
    ensures AllPages(Overlooking(m, names)) == AllPages(m) && AllOk(c, Overlooking(m, names))
    decreases |names|
  {
    hide AllPages, AllOk;
    if names == {} {
      assert Overlooking(m, names) == m;
    } else {
      var n :| n in names;
      NewTenant(c, m, n);
      OverlookingPages(c, m[n := Tenant(0, PLeaf(0, []))], names - {n});
      assert Overlooking(m, names) == Overlooking(m[n := Tenant(0, PLeaf(0, []))], names - {n});
    }
  }

  lemma OverlookingRoots(base: map<Name, PageId>, cached: map<Name, Record>, m: map<Name, Tenant>)
    requires Agree(base, cached) && NowOf(base, cached) == Roots(m)
    ensures m.Keys !! Overlooked(base, cached)
    ensures Roots(Overlooking(m, Overlooked(base, cached))) == Applied(base, cached, cached.Keys)
  {
    AllApplied(base, cached);
    assert Roots(m).Keys == m.Keys;
    hide Applied, Agree;
  }

  /** Every root a transaction sees is the id of a page in use, or 0. */
  lemma RootsBelow(t: Txn)
    requires t.Valid()
    ensures forall n :: n in t.trees ==> t.trees[n].root == 0 || t.trees[n].root < t.db.meta.numPages
  {
    hide Inv, DB.View, CatOk, AllPages, NowOf, Agree, OldChain, Fixed, Stored, Hist.RootWf, TreePages, Shape;
    forall n | n in t.trees ensures t.trees[n].root == 0 || t.trees[n].root < t.db.meta.numPages {
      var b := t.trees[n];
      if b.root != 0 {
        AllPagesSplit(t.trees, n);
        PagePairs.PagesParts(b.tree);
        assert t.db.Live()[b.root] >= 1;
        LiveBelow(t.db, b.root);
      }
    }
  }

  lemma LiveBelow(db: DB, p: PageId)
    requires db.Open() && p in db.books.live
    ensures p < db.meta.numPages
  {
    BuildingFacts(db.View());
    hide Inv, Span, Isolated, Committed, Ordered, Slots, Owned, Working, Shared;
    SpanCounts(db.meta.numPages, p);
    var s := db.View();
    assert multiset(s.b.live)[p] <= Span(s.w.meta.numPages)[p];
  }

  // ---- commit ----

  ghost predicate Committing(s: State) { s.phase in {Sealed, Flushed, Synced, MetaWritten, MetaSynced} }

  /** A transaction that started from database d, and once sealed is on its way to commit d'. */
  ghost predicate InFlight(s: State, d: Content, d': Content) {
    && Inv(s) && s.current.txnID in s.versions && VersionHolds(s.versions[s.current.txnID], d)
    && (Committing(s) ==> VersionHolds(NewVersion(s), d'))
  }

  /** A version holds what another with the same catalog root, pages and chain holds. */
  lemma SameVersion(a: Version, b: Version, d: Content)
    requires VersionHolds(a, d) && b.meta.catalogRoot == a.meta.catalogRoot && b.image == a.image && b.chain == a.chain
    ensures VersionHolds(b, d)
  {
    hide CatOk, AllOk, AllPages, Fixed, Roots;
  }

  /** The sealed transaction has the new database: the catalog tree it built and the buckets it sees. */
  lemma SealedHolds(s: State, sealed: State, cat: Tenant, trees: map<Name, Tenant>, rest: multiset<PageId>)
    requires SealedFrom(s, sealed, rest) && rest == PagesOf(cat) + AllPages(trees) && s.w.meta.catalogRoot == cat.root
    requires CatOk(s.cache, cat, Roots(trees)) && AllOk(s.cache, trees)
    ensures VersionHolds(NewVersion(sealed), Content(cat.tree, trees))
  {
    hide Inv, TenantOk, AllOk, AllPages, PagesOf, Encoded, Hist.AsMap, Hist.RootDense;
    SealedFacts(sealed);
    LiveImage(sealed.cache, sealed.b.live, rest, sealed.b.chain);
    var image := Restrict(sealed.cache, sealed.b.live);
    assert Kept(s.cache, image, rest);
    TenantKept(s.cache, image, cat, rest);
    AllKept(s.cache, image, trees, rest);
    assert Tenant(cat.root, cat.tree) == cat;
  }

  /** Once finished, the version that was sealed is the current one. */
  lemma FinishedHolds(sealed: State, t: State, d: Content)
    requires sealed.phase == Sealed && t == Finished(sealed) && Inv(t) && VersionHolds(NewVersion(sealed), d)
    ensures Holds(t, d) && t.current.txnID == sealed.w.meta.txnID + 1
  {
    hide Inv, VersionHolds, Finished, Restrict, Ids;
    FinishedFields(sealed);
    var m := sealed.w.meta.(txnID := sealed.w.meta.txnID + 1);
    SameVersion(NewVersion(sealed), t.versions[m.txnID], d);
  }

  /** Commit: apply the bucket changes to the catalog, then seal and publish. What is committed is exactly
      what the transaction sees, and an empty bucket for every name the catalog overlooks; until then the
      transaction is in flight from the old database to the new one. A name the catalog refuses gives the
      transaction up, and the database is what it was. */
  method CommitTxn(t: Txn, ghost d: Content)
    returns (r: Applies, ghost d': Content, ghost sealed: State, ghost order: seq<Name>)
    requires t.Valid() && t.db.meta.numPages <= WORD
    requires t.db.current.txnID in t.db.versions && VersionHolds(t.db.versions[t.db.current.txnID], d)
    modifies t.db
    ensures r == Done ==> Holds(t.db.View(), d') && t.db.current.txnID == old(t.db.current.txnID) + 1
    ensures r == Done ==> d'.trees == Overlooking(t.trees, Overlooked(t.base, t.buckets))
    ensures r == Done ==>
              sealed.phase == Sealed && InFlight(sealed, d, d') && Reaches(sealed, CommitSteps(), t.db.View())
    ensures r == NameTooLong ==> Holds(t.db.View(), d) && t.db.current == old(t.db.current)
    ensures r == NameTooLong ==> exists n :: Refused(t.buckets, n)
    ensures r == Done ==> forall n :: !Refused(t.buckets, n)
    ensures (r == TooLarge ==> exists n :: Removes(t.buckets, n)) && r != OutOfIds
    ensures InTurn(t.buckets, order) && (r == TooLarge <==> Play(ShapeOf(t.cat), t.buckets, order).Stuck?)
    ensures r == Done ==> forall n :: n in t.buckets ==> n in order
  {
    hide Inv, DB.View, DB.Live, DB.Past, DB.Still, CatOk, AllOk, AllPages, NowOf, Agree, OldChain, Fixed, PagesOf,
         Holds, InFlight, VersionHolds, Catalogs, Overlooking, Overlooked, Applied, Kept, Reaches, CommitSteps,
         Finished, CommittedFrom, ChainIn, Roots, SealedFrom, Refused, Removes;
    d', sealed := d, t.db.View();
    ReadPast(t.db);
    RootsBelow(t);
    ghost var c0 := t.db.cache;
    ghost var rest := multiset(OldChain(t.db)) + AllPages(t.trees);
    var bt := OpenCatalogTree(t);
    r, order := ApplyAll(bt, t.buckets, t.base, rest);
    ReadPast(t.db);
    if r == TooLarge {
      return;
    }
    if r == NameTooLong {
      GiveUp(t.db, d);
      return;
    }
    AppliedBelow(t.base, t.buckets, t.trees);
    d', sealed := Install(t, bt, d, c0);
  }

  /** The catalog as a tree to be changed. */
  method OpenCatalogTree(t: Txn) returns (bt: BTrees.BTree)
    requires t.Valid()
    ensures fresh(bt) && bt.db == t.db && Catalogs(bt, t.base, multiset(OldChain(t.db)) + AllPages(t.trees))
    ensures bt.Shaped() == ShapeOf(t.cat)
    ensures Kept(t.db.cache, t.db.cache, multiset(OldChain(t.db)) + AllPages(t.trees))
  {
    hide Inv, DB.View, DB.Live, AllOk, AllPages, NowOf, Agree, OldChain, PagesOf, TenantOk, Kept, Hist.AsMap,
         Hist.RootDense, Encoded, Stored, Shape, TreePages, Hist.RootWf, ShapeOf;
    ghost var rest := multiset(OldChain(t.db)) + AllPages(t.trees);
    assert Fixed(t.cat, OldChain(t.db)) + AllPages(t.trees) == rest + PagesOf(t.cat);
    BTrees.KeptOpen(t.db, rest, PagesOf(t.cat));
    bt := new BTrees.BTree(t.db, t.db.meta.catalogRoot, t.cat.tree);
    BTreeValid(bt, t.cat, rest);
  }

  /** The transaction is given up: the committed database is what it was. */
  method GiveUp(db: DB, ghost d: Content)
    requires db.Open() && db.current.txnID in db.versions && VersionHolds(db.versions[db.current.txnID], d)
    modifies db
    ensures Holds(db.View(), d) && db.current == old(db.current)
  {
    hide Inv, VersionHolds, AbortStep;
    Discards(db.View(), db.cache);
    db.Abort();
    CommittedParts(db.View());
  }

  lemma AppliedBelow(base: map<Name, PageId>, cached: map<Name, Record>, m: map<Name, Tenant>)
    requires Agree(base, cached) && NowOf(base, cached) == Roots(m) && forall n :: n in m ==> m[n].root < WORD
    ensures forall n :: n in Applied(base, cached, cached.Keys) ==> Applied(base, cached, cached.Keys)[n] < WORD
  {
    AllApplied(base, cached);
    hide Applied, Agree, NowOf;
  }

  /** The new catalog root, and the commit. */
  method Install(t: Txn, bt: BTrees.BTree, ghost d: Content, ghost c0: Store)
    returns (ghost d': Content, ghost sealed: State)
    requires bt.db == t.db && Catalogs(bt, Applied(t.base, t.buckets, t.buckets.Keys),
                                       multiset(OldChain(t.db)) + AllPages(t.trees))
    requires AllOk(c0, t.trees) && Kept(c0, t.db.cache, multiset(OldChain(t.db)) + AllPages(t.trees))
    requires Agree(t.base, t.buckets) && NowOf(t.base, t.buckets) == Roots(t.trees)
    requires forall n :: n in Applied(t.base, t.buckets, t.buckets.Keys) ==>
               Applied(t.base, t.buckets, t.buckets.Keys)[n] < WORD
    requires t.db.meta.freelistRoot == t.db.current.freelistRoot
    requires t.db.current.txnID in t.db.versions && VersionHolds(t.db.versions[t.db.current.txnID], d)
    modifies t.db
    ensures Holds(t.db.View(), d') && t.db.current.txnID == old(t.db.current.txnID) + 1
    ensures d'.trees == Overlooking(t.trees, Overlooked(t.base, t.buckets))
    ensures sealed.phase == Sealed && InFlight(sealed, d, d') && Reaches(sealed, CommitSteps(), t.db.View())
  {
    hide Inv, DB.View, DB.Live, CatOk, AllOk, AllPages, NowOf, Agree, OldChain, PagesOf, Holds, VersionHolds,
         Overlooking, Overlooked, Applied, Kept, Reaches, CommitSteps, Finished, CommittedFrom, Roots, Hist.AsMap,
         Hist.RootDense, Hist.RootWf, Encoded, Stored, Shape, TreePages, ShapeOf, TenantOk, ChainIn;
    var db := t.db;
    ghost var trees := Overlooking(t.trees, Overlooked(t.base, t.buckets));
    ghost var cat := Tenant(bt.root, bt.tree);
    NewDatabase(t, bt, c0, cat, trees);
    d' := Content(bt.tree, trees);
    ghost var rest := PagesOf(cat) + AllPages(trees);
    ChainIs(db);
    db.SetCatalogRoot(bt.root);
    ChainIs(db);
    ghost var s := db.View();
    ReadState(db);
    sealed := Commit(db, rest);
    ReadState(db);
    SealedHolds(s, sealed, cat, trees, rest);
    SealedInFlight(s, sealed, rest, d, d');
    FinishedHolds(sealed, db.View(), d');
  }

  lemma SealedInFlight(s: State, sealed: State, rest: multiset<PageId>, d: Content, d': Content)
    requires SealedFrom(s, sealed, rest) && s.current.txnID in s.versions
             && VersionHolds(s.versions[s.current.txnID], d)
    requires VersionHolds(NewVersion(sealed), d')
    ensures InFlight(sealed, d, d') && sealed.w.meta.txnID == s.current.txnID
  {
    hide Inv, VersionHolds, NewVersion;
    SealedFacts(sealed);
  }

  /** The trees of the new database on their pages. */
  lemma NewDatabase(t: Txn, bt: BTrees.BTree, c0: Store, cat: Tenant, trees: map<Name, Tenant>)
    requires bt.db == t.db && cat == Tenant(bt.root, bt.tree)
             && trees == Overlooking(t.trees, Overlooked(t.base, t.buckets))
    requires Catalogs(bt, Applied(t.base, t.buckets, t.buckets.Keys), multiset(OldChain(t.db)) + AllPages(t.trees))
    requires AllOk(c0, t.trees) && Kept(c0, t.db.cache, multiset(OldChain(t.db)) + AllPages(t.trees))
    requires Agree(t.base, t.buckets) && NowOf(t.base, t.buckets) == Roots(t.trees)
    requires forall n :: n in Applied(t.base, t.buckets, t.buckets.Keys) ==>
               Applied(t.base, t.buckets, t.buckets.Keys)[n] < WORD
    ensures CatOk(t.db.cache, cat, Roots(trees)) && AllOk(t.db.cache, trees) && t.db.Open()
    ensures t.db.Live() == PagesOf(cat) + AllPages(trees) + multiset(OldChain(t.db))
  {
    hide Inv, DB.View, DB.Live, AllOk, AllPages, NowOf, Agree, OldChain, PagesOf, Overlooking, Overlooked, Applied,
         Kept, Roots, Hist.AsMap, Hist.RootDense, Hist.RootWf, Encoded, Stored, Shape, TreePages, ShapeOf, TenantOk;
    var chain, over := multiset(OldChain(t.db)), Overlooked(t.base, t.buckets);
    AllKept(c0, t.db.cache, t.trees, chain + AllPages(t.trees));
    OverlookingRoots(t.base, t.buckets, t.trees);
    OverlookingPages(t.db.cache, t.trees, over);
    TenantValid(bt, cat, chain + AllPages(t.trees));
    assert chain + AllPages(t.trees) + PagesOf(cat) == PagesOf(cat) + AllPages(trees) + chain;
  }

  // ---- crashes ----

  /** Short of sealing, publication and a crash, no step changes what is committed or being committed. */
  lemma StepVersions(s: State, e: Event)
    requires Enabled(s, e) && !e.Publish? && !e.Crash? && !e.Seal?
    ensures var t := Apply(s, e);
      && t.current == s.current && t.versions == s.versions && (Committing(t) <==> Committing(s))
      && (Committing(s) ==> t.cache == s.cache && t.b == s.b && t.w.meta.catalogRoot == s.w.meta.catalogRoot)
  {
    hide IsGate, Lists, NewVersion, Without, NextPage, Written, Restrict, Inv;
    match e
    case Allocate(gate, junk) => AllocateFields(s, gate, junk);
    case Free(p) => FreeFields(s, p);
    case Abort(cache) => AbortFields(s, cache);
    case _ =>
  }

  lemma InFlightStep(s: State, e: Event, d: Content, d': Content)
    requires InFlight(s, d, d') && Enabled(s, e) && !e.Publish? && !e.Crash? && !e.Seal?
    ensures InFlight(Apply(s, e), d, d') && Apply(s, e).current == s.current
  {
    StepVersions(s, e);
    StepKeeps(s, e);
    hide Inv, Enabled, Apply, VersionHolds, Restrict;
    if Committing(s) { SameVersion(NewVersion(s), NewVersion(Apply(s, e)), d'); }
  }

  /** Readers come and go, dirty pages are written back, the commit goes through its phases. */
  ghost predicate Meanwhile(es: seq<Event>) {
    forall i :: 0 <= i < |es| ==> !es[i].Publish? && !es[i].Crash? && !es[i].Seal?
  }

  lemma {:induction false} InFlightRun(s: State, es: seq<Event>, t: State, d: Content, d': Content)
    requires InFlight(s, d, d') && Reaches(s, es, t) && Meanwhile(es)
    ensures InFlight(t, d, d') && t.current == s.current
    decreases |es|
  {
    hide InFlight, Enabled, Apply;
    if es != [] {
      InFlightStep(s, es[0], d, d');
      InFlightRun(Apply(s, es[0]), es[1..], t, d, d');
    }
  }

  /** A crash of a transaction in flight: Open finds the old database, or the new one once the new meta has
      been written, and the new one for certain once that is synced. */
  lemma CrashRecovers(s: State, file: Store, slot: Slot, d: Content, d': Content)
    requires InFlight(s, d, d') && Enabled(s, Crash(file, slot))
    ensures var t := CrashStep(s, file, slot);
      || (t.current == s.current && Holds(t, d))
      || (s.phase in {MetaWritten, MetaSynced} && t.current == s.w.meta && Holds(t, d'))
    ensures s.phase !in {MetaWritten, MetaSynced} ==> Holds(CrashStep(s, file, slot), d)
    ensures s.phase == MetaSynced ==> Holds(CrashStep(s, file, slot), d')
  {
    hide Inv, NewVersion, VersionHolds, Lists, Keeps, LoadMeta, CrashedSlots, VersionOf, Enabled;
    CrashAtomicity(s, file, slot);
    var t := CrashStep(s, file, slot);
    CommittedParts(t);
    if s.phase in {MetaWritten, MetaSynced} { DistinctMetas(s); }
    hide CrashStep, Closed;
  }

  /** Durability and atomicity of a commit. From the sealed transaction on, whatever happens beside it, a crash
      at any point before publication leaves the database of the last commit or the one being committed. */
  lemma CrashDuringCommit(sealed: State, es: seq<Event>, s: State, file: Store, slot: Slot, d: Content, d': Content)
    requires InFlight(sealed, d, d') && Reaches(sealed, es, s) && Meanwhile(es) && Enabled(s, Crash(file, slot))
    ensures Holds(CrashStep(s, file, slot), d) || Holds(CrashStep(s, file, slot), d')
    ensures Holds(CrashStep(s, file, slot), d) || s.phase in {MetaWritten, MetaSynced}
  {
    hide InFlight, Reaches, Meanwhile, Enabled, Holds, CrashStep;
    InFlightRun(sealed, es, s, d, d');
    CrashRecovers(s, file, slot, d, d');
  }

  /** And before it is sealed: from any database between transactions, through anything a transaction does,
      a crash leaves that database. */
  lemma CrashBeforeSeal(s0: State, es: seq<Event>, s: State, file: Store, slot: Slot, d: Content)
    requires Holds(s0, d) && Reaches(s0, es, s) && Meanwhile(es) && Enabled(s, Crash(file, slot))
    ensures Holds(CrashStep(s, file, slot), d)
  {
    hide Inv, VersionHolds, Reaches, Meanwhile, Enabled, CrashStep;
    assert InFlight(s0, d, d);
    hide InFlight, Holds;
    CrashDuringCommit(s0, es, s, file, slot, d, d);
  }

  /** As long as more readers of a version have begun than ended, they see the whole database of that version,
      unchanged. */
  lemma SnapshotDatabase(before: seq<Event>, s: State, es: seq<Event>, t: State, v: nat, d: Content)
    requires Reaches(Init(), before, s) && Reaches(s, es, t)
    requires OpenThroughout(s, es, v, OpenReaders(Init(), before, v, 0))
    requires v in s.versions && VersionHolds(s.versions[v], d)
    ensures CatOk(t.cache, Tenant(s.versions[v].meta.catalogRoot, d.cat), Roots(d.trees)) && AllOk(t.cache, d.trees)
  {
    hide Reaches, OpenThroughout, OpenReaders;
    SnapshotIsolation(before, s, es, t, v);
    hide Keeps, TenantOk, AllOk, AllPages, Hist.AsMap, Hist.RootDense, Encoded, Fixed;
    var ver := s.versions[v];
    OneInStore(ver.image, t.cache, Tenant(ver.meta.catalogRoot, d.cat));
    AllInStore(ver.image, t.cache, d.trees);
  }
}
