/** Commit: persisting the freelist, then flush, sync, meta, sync and publication. */
module Commits {
  import opened Pages
  import opened Protocol
  import opened ProtocolSafety
  import opened ProtocolRuns
  import opened Transactions
  import opened FreelistChain
  import Overflow
  import Seqs

  function PagesFor(count: nat): nat { (count + PER_PAGE - 1) / PER_PAGE }

  /** Allocate pages until the chain has room. Allocating can shrink the list being sized, so the loop
      measures again each time; it still ends, and no page of the chain starts past the list. */
  method SizeChain(db: DB, ghost rest: multiset<PageId>) returns (chain: seq<PageId>)
    requires db.Open() && db.Live() == rest
    modifies db
    ensures db.Open() && db.Past() == old(db.Past())
    ensures db.Live() == rest + multiset(chain) && Kept(old(db.cache), db.cache, rest)
    ensures Sized(|chain|, db.FreeCount())
    ensures forall i :: 0 <= i < |chain| ==> chain[i] in db.books.mine && chain[i] != 0
  {
    hide Inv, DB.View, DB.Past, DB.Live, Kept, AllocatedFrom, DB.FreeCount;
    chain := [];
    KeptAll(db);
    var need := PagesFor(db.FreeCount());
    while |chain| < need
      invariant db.Open() && db.Past() == old(db.Past()) && need == PagesFor(db.FreeCount())
      invariant db.Live() == rest + multiset(chain) && Kept(old(db.cache), db.cache, rest)
      invariant chain != [] ==> PER_PAGE * (|chain| - 1) <= db.FreeCount()
      invariant forall i :: 0 <= i < |chain| ==> chain[i] in db.books.mine && chain[i] != 0
      decreases need - |chain|
    {
      ghost var c, n := db.cache, db.FreeCount();
      var id := db.AllocatePage();
      KeptTrans(old(db.cache), c, db.cache, rest, rest + multiset(chain));
      NextNeed(|chain|, n, db.FreeCount());
      chain := chain + [id];
      need := PagesFor(db.FreeCount());
    }
    EnoughPages(|chain|, db.FreeCount());
  }

  lemma NextNeed(k: nat, n: nat, n': nat)
    requires k < PagesFor(n) && n - 1 <= n' <= n
    ensures PER_PAGE * k <= n' && PagesFor(n') <= PagesFor(n)
  {
  }

  lemma EnoughPages(k: nat, n: nat)
    requires PagesFor(n) <= k
    ensures n <= PER_PAGE * k
  {
  }

  /** Write the list into the chain, 510 ids a page. */
  method FillChain(db: DB, chain: seq<PageId>, persist: seq<PageId>, ghost rest: multiset<PageId>)
    requires db.Open() && db.Live() == rest + multiset(chain) && Sized(|chain|, |persist|)
    requires forall i :: 0 <= i < |chain| ==> chain[i] in db.books.mine && chain[i] != 0
    modifies db`cache, db`dirty
    ensures db.Open() && db.Past() == old(db.Past()) && db.Live() == old(db.Live())
    ensures Lists(db.cache, chain, persist) && Kept(old(db.cache), db.cache, rest)
  {
    hide Inv, DB.View, DB.Past, DB.Live, WriteStep, ChainPage, Lists;
    LiveCached(db);
    ChainApart(chain, rest);
    for i := 0 to |chain|
      invariant db.Open() && db.Past() == old(db.Past()) && db.Live() == old(db.Live())
      invariant forall j :: 0 <= j < i ==> chain[j] in db.cache && db.cache[chain[j]] == ChainPage(chain, persist, j)
      invariant Kept(old(db.cache), db.cache, rest)
    {
      var start := i * PER_PAGE;
      SizedStart(|chain|, |persist|, i);
      var end := if start + PER_PAGE < |persist| then start + PER_PAGE else |persist|;
      var next := if i + 1 < |chain| then chain[i + 1] else 0;
      PageContents(chain, persist, i);
      db.Write(chain[i], FreelistPage(next, persist[start..end]));
    }
    SizedEnd(|chain|, |persist|);
    FilledChain(db.cache, chain, persist, 0);
    Seqs.FromStart(chain);
    Seqs.FromStart(persist);
  }

  lemma SizedStart(k: nat, n: nat, i: nat)
    requires Sized(k, n) && i < k
    ensures i * PER_PAGE <= n
  {
  }

  lemma SizedEnd(k: nat, n: nat)
    requires Sized(k, n)
    ensures Start(k, n) == n && Start(0, n) == 0
  {
  }

  lemma PageContents(chain: seq<PageId>, ids: seq<PageId>, i: nat)
    requires i < |chain| && i * PER_PAGE <= |ids|
    ensures var start := i * PER_PAGE;
      ChainPage(chain, ids, i) == FreelistPage(if i + 1 < |chain| then chain[i + 1] else 0,
                                               ids[start..if start + PER_PAGE < |ids| then start + PER_PAGE else |ids|])
  {
  }

  lemma ChainApart(chain: seq<PageId>, rest: multiset<PageId>)
    requires forall p :: (rest + multiset(chain))[p] <= 1
    ensures forall i :: 0 <= i < |chain| ==> rest[chain[i]] == 0
    ensures forall i, j :: 0 <= i < j < |chain| ==> chain[i] != chain[j]
  {
    forall i | 0 <= i < |chain| ensures rest[chain[i]] == 0 {
      assert multiset(chain)[chain[i]] >= 1;
      assert (rest + multiset(chain))[chain[i]] == rest[chain[i]] + multiset(chain)[chain[i]];
    }
    forall i, j | 0 <= i < j < |chain| ensures chain[i] != chain[j] {
      Twice(chain, i, j);
      assert (rest + multiset(chain))[chain[i]] >= multiset(chain)[chain[i]];
    }
  }

  lemma Twice(chain: seq<PageId>, i: nat, j: nat)
    requires i < j < |chain|
    ensures chain[i] == chain[j] ==> multiset(chain)[chain[i]] >= 2
  {
    assert chain == chain[..j] + [chain[j]] + chain[j + 1..];
    assert chain[..j][i] == chain[i];
    assert multiset(chain) == multiset(chain[..j]) + multiset{chain[j]} + multiset(chain[j + 1..]);
  }

  /** The chain of the last commit, which the new version no longer needs. */
  method FreeOldChain(db: DB, chain: seq<PageId>, ghost rest: multiset<PageId>)
    requires db.Open() && db.Live() == rest + multiset(chain)
    requires forall i :: 0 <= i < |chain| ==> chain[i] < db.initialPageCnt
    modifies db`allocs, db`reusable, db`freed, db`books
    ensures db.Open() && db.Past() == old(db.Past()) && db.Live() == rest
    ensures db.freed == old(db.freed) + chain && db.reusable == old(db.reusable)
  {
    hide Inv, DB.Live;
    ghost var n := db.initialPageCnt;
    Seqs.FromStart(chain);
    for i := 0 to |chain|
      invariant db.Open() && db.Past() == old(db.Past()) && db.Live() == rest + multiset(chain[i..])
      invariant db.freed == old(db.freed) + chain[..i] && db.reusable == old(db.reusable)
    {
      Overflow.HeadLive(db, rest, chain[i..]);
      assert chain[i..][1..] == chain[i + 1..];
      db.FreePage(chain[i]);
      Cancel(db.Live(), rest + multiset(chain[i + 1..]), multiset{chain[i]});
      Seqs.TakeNext(chain, i);
    }
    Seqs.TakeAll(chain);
  }

  /** The chain the current version was committed with. */
  ghost function OldChain(db: DB): seq<PageId>
    reads db
  {
    if db.current.txnID in db.versions then db.versions[db.current.txnID].chain else []
  }

  lemma OldChainStored(db: DB) returns (ids: seq<PageId>)
    requires db.Open()
    ensures Lists(db.cache, OldChain(db), ids) && Head(OldChain(db)) == db.current.freelistRoot
    ensures forall i :: 0 <= i < |OldChain(db)| ==> OldChain(db)[i] < db.initialPageCnt
  {
    hide Lists, Inv, Keeps;
    var s := db.View();
    CommittedParts(s);
    ReaderBegins(s);
    var ver := s.versions[s.current.txnID];
    ids := ver.persisted;
    ChainOnDisk(ver, s.cache);
    VersionPages(s);
    hide Closed;
    ClosedChain(ver);
    forall i | 0 <= i < |ver.chain| ensures ver.chain[i] < db.initialPageCnt { assert ver.chain[i] in ver.chain; }
  }

  lemma ClosedChain(ver: Version)
    requires Closed(ver)
    ensures forall p :: p in ver.chain ==> p in ver.image
  {
    ChainInImage(ver.image, ver.chain, ver.persisted);
  }

  lemma VersionPages(s: State)
    requires Inv(s) && s.phase == Building
    ensures s.current.txnID in s.versions && forall p :: p in s.versions[s.current.txnID].image ==>
              p < s.w.initialPageCnt
  {
    BuildingFacts(s);
    hide Inv, Committed, Ordered, Working, Slots, Divided, Owned, Shared;
  }

  /** persistFreelist: the pages of the old chain are freed, and a new chain names every page that will
      be free after the commit, in the order the in-memory freelist will have. */
  method PersistFreelist(db: DB, ghost rest: multiset<PageId>)
    requires db.Open() && db.meta.freelistRoot == db.current.freelistRoot
    requires db.Live() == rest + multiset(OldChain(db))
    modifies db
    ensures db.Valid() && db.phase == Sealed
    ensures db.Live() == rest + multiset(db.books.chain) && Kept(old(db.cache), db.cache, rest)
    ensures Lists(db.cache, db.books.chain, Ids(db.pending) + db.freed + db.reusable)
    ensures db.current == old(db.current) && db.currentSlot == old(db.currentSlot) && db.versions == old(db.versions)
    ensures db.meta.catalogRoot == old(db.meta).catalogRoot && db.meta.freelistRoot == Head(db.books.chain)
  {
    hide Inv, DB.Live, Kept, Lists, OldChain, DB.View;
    ghost var oldIds := OldChain(db);
    ghost var names := OldChainStored(db);
    var oldChain := WalkChainIDs(db.cache, db.meta.freelistRoot, oldIds, names);
    FreeOldChain(db, oldChain, rest);
    WriteChain(db, rest);
  }

  /** Size the new chain, fill it, and let the new meta point to it. */
  method WriteChain(db: DB, ghost rest: multiset<PageId>)
    requires db.Open() && db.Live() == rest
    modifies db
    ensures db.Valid() && db.phase == Sealed
    ensures db.Live() == rest + multiset(db.books.chain) && Kept(old(db.cache), db.cache, rest)
    ensures Lists(db.cache, db.books.chain, Ids(db.pending) + db.freed + db.reusable)
    ensures db.current == old(db.current) && db.currentSlot == old(db.currentSlot) && db.versions == old(db.versions)
    ensures db.meta.catalogRoot == old(db.meta).catalogRoot && db.meta.freelistRoot == Head(db.books.chain)
  {
    hide Inv, DB.Live, Kept, Lists, DB.View, Enabled, Ids;
    var chain := SizeChain(db, rest);
    ghost var c1 := db.cache;
    var persist := All(db.pending) + db.freed + db.reusable;
    FillChain(db, chain, persist, rest);
    KeptTrans(old(db.cache), c1, db.cache, rest, rest);
    SealReady(db, chain);
    SealChain(db, chain);
  }

  /** all: the pages on the freelist, in order. */
  function All(pending: seq<FreeEntry>): (ids: seq<PageId>)
    ensures |ids| == |pending| && ids == Ids(pending)
  {
    if pending == [] then [] else
      assert Ids(pending) == [pending[0].page] + Ids(pending[1..]);
      [pending[0].page] + All(pending[1..])
  }

  lemma SealReady(db: DB, chain: seq<PageId>)
    requires db.Open() && (forall i :: 0 <= i < |chain| ==> chain[i] in db.books.mine)
    requires Lists(db.cache, chain, Ids(db.pending) + db.freed + db.reusable)
    ensures Enabled(db.View(), Event.Seal(chain))
  {
    hide Inv, Lists;
  }

  method SealChain(db: DB, chain: seq<PageId>)
    requires db.Open() && Enabled(db.View(), Event.Seal(chain))
    modifies db`phase, db`meta, db`books
    ensures db.Valid() && db.phase == Sealed && db.books.chain == chain && db.Live() == old(db.Live())
    ensures db.meta == old(db.meta).(freelistRoot := Head(chain))
  {
    hide Inv, Enabled;
    db.Seal(chain);
  }

  /** Flush, sync, write the meta, sync, publish: what is committed is the working version as sealed. */
  method FinishCommit(db: DB)
    requires db.Valid() && db.phase == Sealed
    modifies db
    ensures db.Valid() && db.View() == Finished(old(db.View()))
    ensures Lists(db.disk.file, old(db.books).chain, Ids(db.pending))
            && db.current.freelistRoot == Head(old(db.books).chain)
  {
    hide Inv, DB.View, FlushStep, SyncStep, WriteMetaStep, PublishStep, Lists, Ids, NewVersion;
    ghost var s := db.View();
    ReadState(db);
    StepPhases(s);
    db.Flush();
    ReadPhase(db);
    db.Sync();
    ReadPhase(db);
    db.WriteMeta();
    ReadPhase(db);
    db.Sync();
    ReadPhase(db);
    FreelistPersisted(db.View());
    VersionAfter(db.View());
    SealedChain(s);
    db.Publish();
    ReadState(db);
  }

  /** The state once a sealed transaction has been committed. */
  ghost function Finished(s: State): State {
    PublishStep(SyncStep(WriteMetaStep(SyncStep(FlushStep(s)))))
  }

  lemma ReadPhase(db: DB)
    ensures db.phase == db.View().phase
  {
  }

  lemma ReadState(db: DB)
    ensures db.disk == db.View().disk && db.pending == db.View().pending && db.current == db.View().current
            && db.versions == db.View().versions
    ensures db.cache == db.View().cache && db.phase == db.View().phase && db.books == db.View().b
            && db.meta == db.View().w.meta
    ensures db.Live() == multiset(db.View().b.live)
  {
  }

  lemma StepPhases(s: State)
    requires s.phase == Sealed
    ensures FlushStep(s).phase == Flushed && SyncStep(FlushStep(s)).phase == Synced
    ensures WriteMetaStep(SyncStep(FlushStep(s))).phase == MetaWritten
    ensures SyncStep(WriteMetaStep(SyncStep(FlushStep(s)))).phase == MetaSynced
  {
  }

  lemma VersionAfter(s: State)
    ensures var t := PublishStep(s);
      t.current.txnID in t.versions && t.versions[t.current.txnID] == NewVersion(s) && NewVersion(s).chain == s.b.chain
  {
  }

  lemma SealedChain(s: State)
    ensures SyncStep(WriteMetaStep(SyncStep(FlushStep(s)))).b.chain == s.b.chain
  {
  }

  /** Everything a commit promises about the version it makes: one transaction on, the catalog root of the
      transaction, exactly the pages in use with their contents, and older versions untouched. */
  ghost predicate CommittedFrom(s: State, t: State, rest: multiset<PageId>) {
    && t.phase == Idle && t.current.txnID == s.current.txnID + 1 && t.current.catalogRoot == s.w.meta.catalogRoot
    && t.current.txnID in t.versions
    && (forall v :: v in s.versions && v <= s.current.txnID ==> v in t.versions && t.versions[v] == s.versions[v])
    && var ver := t.versions[t.current.txnID];
    && ver.meta == t.current
    && multiset(ver.image.Keys) == rest + multiset(ver.chain)
    && (forall p :: p in rest ==> p in s.cache && p in ver.image && ver.image[p] == s.cache[p])
    && Keeps(t.cache, ver.image) && Keeps(t.disk.file, ver.image)
    && Lists(t.disk.file, ver.chain, Ids(t.pending)) && t.current.freelistRoot == Head(ver.chain)
  }

  lemma FinishedFields(s: State)
    requires s.phase == Sealed
    ensures var t, m := Finished(s), s.w.meta.(txnID := s.w.meta.txnID + 1);
      && t.phase == Idle && t.current == m && t.cache == s.cache
      && t.versions == s.versions[m.txnID := Version(m, Restrict(s.cache, s.b.live), s.b.chain,
                                                     Ids(s.pending) + s.w.freed + s.w.reusable, s.leaked)]
  {
    hide Restrict, Ids, Written;
  }

  lemma SealedFacts(s: State)
    requires Inv(s) && s.phase == Sealed
    ensures s.b.live <= s.cache.Keys && s.w.meta.txnID == s.current.txnID
  {
    hide Isolated, Committed, Ordered, Progress, Slots, Divided, Owned;
  }

  /** A transaction once its freelist chain is written: the pages in use are rest and the chain, and rest is
      as it was. */
  ghost predicate SealedFrom(s: State, t: State, rest: multiset<PageId>) {
    && Inv(t) && t.phase == Sealed && t.current == s.current && t.versions == s.versions
    && t.w.meta.catalogRoot == s.w.meta.catalogRoot
    && multiset(t.b.live) == rest + multiset(t.b.chain) && Kept(s.cache, t.cache, rest)
  }

  /** The steps from the sealed transaction to the published one. */
  ghost function CommitSteps(): seq<Event> { [Event.Flush, Event.Sync, Event.WriteMeta, Event.Sync, Event.Publish] }

  lemma FinishedReaches(s: State)
    requires s.phase == Sealed
    ensures Reaches(s, CommitSteps(), Finished(s))
  {
    hide FlushStep, SyncStep, WriteMetaStep, PublishStep;
    StepPhases(s);
    var a := FlushStep(s);
    var b := SyncStep(a);
    var c := WriteMetaStep(b);
    var d := SyncStep(c);
    assert Reaches(Finished(s), [], Finished(s));
    assert Reaches(d, [Event.Publish], Finished(s)) by { assert [Event.Publish][1..] == []; }
    assert Reaches(c, [Event.Sync, Event.Publish],
                   Finished(s)) by { assert [Event.Sync, Event.Publish][1..] == [Event.Publish]; }
    var es := [Event.WriteMeta, Event.Sync, Event.Publish];
    assert Reaches(b, es, Finished(s)) by { assert es[1..] == [Event.Sync, Event.Publish]; }
    var fs := [Event.Sync] + es;
    assert Reaches(a, fs, Finished(s)) by { assert fs[1..] == es; }
    assert CommitSteps()[1..] == fs;
  }

  /** Commit: seal, then flush, sync, meta, sync and publication. */
  method Commit(db: DB, ghost rest: multiset<PageId>) returns (ghost sealed: State)
    requires db.Open() && db.meta.freelistRoot == db.current.freelistRoot
    requires db.Live() == rest + multiset(OldChain(db))
    modifies db
    ensures db.Valid() && CommittedFrom(old(db.View()), db.View(), rest)
    ensures SealedFrom(old(db.View()), sealed, rest) && Reaches(sealed, CommitSteps(), db.View())
            && db.View() == Finished(sealed)
  {
    hide Inv, DB.View, Kept, Lists, OldChain, Finished, DB.Live, CommittedFrom, Reaches, CommitSteps;
    ghost var s0 := db.View();
    ReadState(db);
    PersistFreelist(db, rest);
    ReadState(db);
    sealed := db.View();
    FinishedReaches(sealed);
    FinishCommit(db);
    ReadState(db);
    Composed(db, s0, sealed, sealed.cache, sealed.b.chain, rest);
  }

  lemma Composed(db: DB, s0: State, s1: State, c1: Store, chain: seq<PageId>, rest: multiset<PageId>)
    requires db.Valid() && Inv(s1) && s1.phase == Sealed && db.View() == Finished(s1) && s1.cache == c1
             && s1.b.chain == chain
    requires multiset(s1.b.live) == rest + multiset(chain) && Kept(s0.cache, c1, rest)
    requires s1.current == s0.current && s1.versions == s0.versions && s1.w.meta.catalogRoot == s0.w.meta.catalogRoot
    requires Lists(db.disk.file, chain, Ids(db.pending)) && db.current.freelistRoot == Head(chain)
    ensures CommittedFrom(s0, db.View(), rest)
  {
    hide Inv, Lists, Finished, Ids, Keeps;
    FinishedFields(s1);
    SealedFacts(s1);
    var t := db.View();
    CommittedParts(t);
    ReaderBegins(t);
    LiveImage(s1.cache, s1.b.live, rest, chain);
  }

  lemma LiveImage(cache: Store, live: set<PageId>, rest: multiset<PageId>, chain: seq<PageId>)
    requires live <= cache.Keys && multiset(live) == rest + multiset(chain)
    ensures Restrict(cache, live).Keys == live
    ensures forall p :: p in rest ==> p in Restrict(cache, live) && Restrict(cache, live)[p] == cache[p]
  {
    forall p | p in rest ensures p in live { assert (rest + multiset(chain))[p] >= 1; }
  }
}
