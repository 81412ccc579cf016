/** Whole runs of the page lifecycle: readers, writer, write-backs and crashes in any order. */
module ProtocolRuns {
  import opened Pages
  import opened Protocol
  import opened ProtocolSafety

  /** A new database: two equal metas, no data pages. */
  ghost function Init(): State {
    var m := Meta(0, 0, 0, 2);
    State(map[], {}, Disk(map[], {}, Good(m), Good(m), Invalid), m, 0, [], map[],
          Idle, Writer(m, 2, [], [], []), Books({}, {}, {}, []), {}, map[0 := Version(m, map[], [], [], {})])
  }

  lemma InitKeeps()
    ensures Inv(Init())
  {
    assert Span(2) == multiset{};
    assert Ids([]) == [];
  }

  /** The states reached from s by a sequence of events, each enabled where it happens. */
  ghost predicate Reaches(s: State, es: seq<Event>, t: State)
    decreases |es|
  {
    if es == [] then s == t else Enabled(s, es[0]) && Reaches(Apply(s, es[0]), es[1..], t)
  }

  /** Every step keeps the invariant. */
  lemma StepKeeps(s: State, e: Event)
    requires Inv(s) && Enabled(s, e)
    ensures Inv(Apply(s, e))
  {
    hide Inv, BeginReadStep, EndReadStep, BeginWriteStep, AllocateStep, WriteStep, FreeStep, WriteBackStep, SealStep,
         FlushStep, SyncStep, WriteMetaStep, PublishStep, AbortStep, CrashStep, IsGate, Lists;
    match e
    case BeginRead => BeginReadKeeps(s);
    case EndRead(v) => EndReadKeeps(s, v);
    case BeginWrite => BeginWriteKeeps(s);
    case Allocate(gate, junk) => AllocateKeeps(s, gate, junk);
    case Write(p, pg) => WriteKeeps(s, p, pg);
    case Free(p) => FreeKeeps(s, p);
    case SetRoot(root) => SetRootKeeps(s, root);
    case WriteBack(p) => WriteBackKeeps(s, p);
    case Seal(chain) => SealKeeps(s, chain);
    case Flush => FlushKeeps(s);
    case Sync => SyncKeeps(s);
    case WriteMeta => WriteMetaKeeps(s);
    case Publish => PublishKeeps(s);
    case Abort(cache) => AbortKeeps(s, cache);
    case Crash(file, slot) => CrashKeeps(s, file, slot);
  }

  /** The invariant holds in every state of every run. */
  lemma {:induction false} RunKeeps(s: State, es: seq<Event>, t: State)
    requires Inv(s) && Reaches(s, es, t)
    ensures Inv(t)
    decreases |es|
  {
    hide Inv, Enabled, Apply;
    if es != [] {
      StepKeeps(s, es[0]);
      RunKeeps(Apply(s, es[0]), es[1..], t);
    }
  }

  /** Every run from a new database. */
  lemma RunFromInit(es: seq<Event>, t: State)
    requires Reaches(Init(), es, t)
    ensures Inv(t)
  {
    InitKeeps();
    RunKeeps(Init(), es, t);
  }

  // ---- snapshot isolation ----

  /** The reader table keeps its entry for version v through this event. */
  ghost predicate Stays(s: State, e: Event, v: nat) {
    && !e.Crash?
    && (e.EndRead? && e.v == v ==> v in s.readers && s.readers[v] > 1)
  }

  ghost predicate StaysThrough(s: State, es: seq<Event>, v: nat)
    decreases |es|
  {
    es == [] || (Stays(s, es[0], v) && (Enabled(s, es[0]) ==> StaysThrough(Apply(s, es[0]), es[1..], v)))
  }

  /** Only the reader steps change the set of readers; only commits and crashes change the versions. */
  lemma StepFrame(s: State, e: Event)
    requires Enabled(s, e) && !e.Crash?
    ensures !e.BeginRead? && !e.EndRead? ==> Apply(s, e).readers == s.readers
    ensures !e.Publish? ==> Apply(s, e).versions == s.versions
    ensures e.BeginRead? ==> Apply(s, e).readers.Keys == s.readers.Keys + {s.current.txnID}
    ensures e.EndRead? ==> Apply(s, e).readers.Keys >= s.readers.Keys - (if s.readers[e.v] <= 1 then {e.v} else {})
  {
    hide IsGate, Lists, NewVersion, Without, NextPage, Written, Restrict, Inv;
    match e
    case Allocate(gate, junk) => AllocateFrame(s, gate, junk);
    case Free(p) => FreeFrame(s, p);
    case _ =>
  }

  lemma AllocateFrame(s: State, gate: nat, junk: Page)
    ensures AllocateStep(s, gate, junk).readers == s.readers && AllocateStep(s, gate, junk).versions == s.versions
  {
    hide NextPage;
  }

  lemma FreeFrame(s: State, p: PageId)
    ensures FreeStep(s, p).readers == s.readers && FreeStep(s, p).versions == s.versions
  {
    hide Without;
  }

  lemma StepKeepsVersion(s: State, e: Event, v: nat)
    requires Inv(s) && Enabled(s, e) && v in s.readers && Stays(s, e, v)
    ensures v in Apply(s, e).readers
    ensures v in s.versions && v in Apply(s, e).versions && Apply(s, e).versions[v] == s.versions[v]
  {
    ReaderVersion(s, v);
    StepFrame(s, e);
    if e.Publish? {
      hide Inv, NewVersion;
    }
    hide Inv, Apply;
  }

  lemma ReaderVersion(s: State, v: nat)
    requires Inv(s) && v in s.readers
    ensures v in s.versions && v <= s.current.txnID && Keeps(s.cache, s.versions[v].image)
    ensures s.phase == MetaSynced ==> s.w.meta.txnID == s.current.txnID + 1
  {
    hide Committed, Ordered, Progress, Slots, Divided, Owned;
    assert Visible(v, s.versions[v], s.cache, s.pending, s.b.popped, s.current.numPages);
  }

  /** Over a run that leaves the reader table's entry for v in place, every page of that version keeps its contents. */
  lemma {:induction false} KeptForReader(s: State, es: seq<Event>, t: State, v: nat)
    requires Inv(s) && Reaches(s, es, t) && v in s.readers && StaysThrough(s, es, v)
    ensures v in s.versions && v in t.readers && v in t.versions && t.versions[v] == s.versions[v]
    ensures Keeps(t.cache, s.versions[v].image)
    decreases |es|
  {
    hide Inv, Enabled, Apply, Stays, Keeps;
    if es == [] {
      ReaderVersion(s, v);
    } else {
      StepKeepsVersion(s, es[0], v);
      StepKeeps(s, es[0]);
      KeptForReader(Apply(s, es[0]), es[1..], t, v);
    }
  }

  /** A reader begins with the version committed last. */
  lemma ReaderBegins(s: State)
    requires Inv(s)
    ensures s.current.txnID in BeginReadStep(s).readers
    ensures s.current.txnID in s.versions && s.versions[s.current.txnID].meta == s.current
    ensures Keeps(s.cache, s.versions[s.current.txnID].image)
  {
    hide Ordered, Progress, Slots, Working, Closed, Durable, Shared;
  }

  /** Checking only the head of the freelist loses nothing: if its first entry is still visible to some
      reader, then so may be every other. */
  lemma HeadDecides(s: State, gate: nat, i: nat)
    requires Inv(s) && i < |s.pending| && s.pending[i].freedAt <= gate
    ensures s.pending[0].freedAt <= gate
  {
    hide Isolated, Committed, Progress, Slots, Working;
  }

  // ---- crash atomicity ----

  /** Crash atomicity. At any point of any run, with any subset of the unsynced pages written, torn or
      lost and the meta page being written in any state the checksum allows, Open finds the last
      committed meta or the one being committed; every page of the version it names is intact, and
      the freelist is exactly the list that version was committed with. */
  lemma CrashAtomicity(s: State, file: Store, slot: Slot)
    requires Inv(s) && Enabled(s, Crash(file, slot))
    ensures var t := CrashStep(s, file, slot);
      && (t.current == s.current || (s.phase in {MetaWritten, MetaSynced} && t.current == s.w.meta))
      && (s.phase !in {MetaWritten, MetaSynced} ==> t.current == s.current)
      && (s.phase == MetaSynced ==> t.current == s.w.meta)
    ensures var t := CrashStep(s, file, slot);
      && s.current.txnID in s.versions && t.current.txnID in t.versions
      && t.versions[t.current.txnID] == (if t.current == s.current then s.versions[s.current.txnID] else NewVersion(s))
      && Keeps(file, t.versions[t.current.txnID].image)
      && Ids(t.pending) == t.versions[t.current.txnID].persisted
      && Lists(file, t.versions[t.current.txnID].chain, Ids(t.pending))
      && t.current.freelistRoot == Head(t.versions[t.current.txnID].chain)
    ensures Inv(CrashStep(s, file, slot))
  {
    hide Inv, Isolated, Ordered, Working, Slots, Progress, NewVersion, LoadMeta, SlotsOk, Closed, Committed,
         VersionOf, CrashedSlots, Lists, Keeps;
    CrashKeeps(s, file, slot);
    Parts(s);
    CrashMeta(s, slot);
    var d := CrashedSlots(s, slot);
    var (found, i) := LoadMeta(d.slot0, d.slot1);
    CrashVersion(s, file, slot, found.meta);
    VersionFound(s, found.meta);
    var ver := VersionOf(s, found.meta);
    assert Ids(Entries(ver.persisted, 0)) == ver.persisted;
    ChainOnDisk(ver, file);
  }

  lemma ChainOnDisk(ver: Version, file: Store)
    requires Closed(ver) && Keeps(file, ver.image)
    ensures Lists(file, ver.chain, ver.persisted) && ver.meta.freelistRoot == Head(ver.chain)
  {
    hide Span;
    ChainInImage(ver.image, ver.chain, ver.persisted);
    ListsKept(ver.image, file, ver.chain, ver.persisted);
  }

  lemma VersionFound(s: State, m: Meta)
    requires Inv(s) && (m == s.current || (s.phase in {MetaWritten, MetaSynced} && m == s.w.meta))
    ensures s.current.txnID in s.versions
    ensures VersionOf(s, m) == if m == s.current then s.versions[s.current.txnID] else NewVersion(s)
  {
    if s.phase in {MetaWritten, MetaSynced} { DistinctMetas(s); }
    hide Isolated, Ordered, Working, Slots, Progress, NewVersion, Closed, Durable, Shared;
  }

  lemma DistinctMetas(s: State)
    requires Inv(s) && s.phase in {MetaWritten, MetaSynced}
    ensures s.w.meta != s.current
  {
    hide Isolated, Ordered, Committed, Slots, Progress, Divided, Owned;
  }

  lemma {:induction false} ChainInImage(image: Store, chain: seq<PageId>, ids: seq<PageId>)
    requires Lists(image, chain, ids)
    ensures forall p :: p in chain ==> p in image
    decreases |chain|
  {
    if chain != [] { ChainInImage(image, chain[1..], ids[|image[chain[0]].ids|..]); }
  }

  // ---- page conservation ----

  /** Page conservation. Between transactions every data page of the file is in exactly one place: used
      by the committed version, on the freelist, or leaked. */
  lemma Conservation(s: State)
    requires Inv(s) && s.phase == Idle
    ensures s.current.txnID in s.versions
    ensures multiset(s.versions[s.current.txnID].image.Keys) + multiset(Ids(s.pending)) + multiset(s.leaked) ==
            Span(s.current.numPages)
  {
    hide Isolated, Ordered, Working, Slots, Progress, Closed, Durable, Span, Ids;
  }

  /** While a transaction runs: in use, freed by it, reusable within it, on the freelist, or leaked. */
  lemma ConservationWhileWriting(s: State)
    requires Inv(s) && s.phase != Idle
    ensures multiset(s.b.live) + multiset(s.w.freed) + multiset(s.w.reusable) + multiset(Ids(s.pending))
            + multiset(s.leaked)
              == Span(s.w.meta.numPages)
  {
    hide Isolated, Ordered, Committed, Slots, Progress, Owned, Span, Ids;
  }

  /** Conservation over whole runs: in every state of every run from a new database, each data page of the
      file is in exactly one place. */
  lemma EveryRunConserves(es: seq<Event>, t: State)
    requires Reaches(Init(), es, t)
    ensures t.phase == Idle ==>
              && t.current.txnID in t.versions
              && multiset(t.versions[t.current.txnID].image.Keys) + multiset(Ids(t.pending)) + multiset(t.leaked) ==
                 Span(t.current.numPages)
    ensures t.phase != Idle ==>
              multiset(t.b.live) + multiset(t.w.freed) + multiset(t.w.reusable) + multiset(Ids(t.pending))
                  + multiset(t.leaked)
                == Span(t.w.meta.numPages)
    ensures forall p: PageId, n: nat :: Span(n)[p] == if 2 <= p < n then 1 else 0
  {
    RunFromInit(es, t);
    hide Inv, Reaches, Span, Ids, Init;
    if t.phase == Idle { Conservation(t); } else { ConservationWhileWriting(t); }
    forall p: PageId, n: nat ensures Span(n)[p] == if 2 <= p < n then 1 else 0 { SpanCounts(n, p); }
  }

  /** After a commit the in-memory freelist is what the chain on disk lists, in the same order. */
  lemma FreelistPersisted(s: State)
    requires Inv(s) && s.phase == MetaSynced
    ensures var t := PublishStep(s);
      && t.current.txnID in t.versions
      && Ids(t.pending) == t.versions[t.current.txnID].persisted == Ids(s.pending) + s.w.freed + s.w.reusable
      && (forall i :: |s.pending| <= i < |t.pending| ==> t.pending[i].freedAt == t.current.txnID)
      && Lists(t.disk.file, t.versions[t.current.txnID].chain, Ids(t.pending))
      && t.current.freelistRoot == Head(t.versions[t.current.txnID].chain)
  {
    hide Isolated, Ordered, Working, Slots, Progress, NewVersion, Inv, Lists, Keeps, Ids;
    PublishKeeps(s);
    NewPendingIds(s);
    VersionMeta(s);
    var t := PublishStep(s);
    CommittedParts(t);
    ChainOnDisk(t.versions[t.current.txnID], t.disk.file);
  }

  lemma CommittedParts(s: State)
    requires Inv(s)
    ensures s.current.txnID in s.versions && s.versions[s.current.txnID].meta == s.current
    ensures Closed(s.versions[s.current.txnID]) && Keeps(s.disk.file, s.versions[s.current.txnID].image)
  {
    hide Isolated, Ordered, Working, Slots, Progress, Closed, Shared;
  }

  /** Nothing is leaked now, and nothing was when the current version was committed. */
  ghost predicate LeakFree(s: State) {
    && s.leaked == {}
    && (s.current.txnID in s.versions ==> s.versions[s.current.txnID].leaked == {})
  }

  /** No abort of this run throws away pages that the transaction had taken from the freelist. */
  ghost predicate NothingDiscarded(s: State, es: seq<Event>)
    decreases |es|
  {
    es == [] ||
    ((es[0].Abort? ==> forall p :: p in s.w.allocs ==> p >= s.w.initialPageCnt)
     && (Enabled(s, es[0]) ==> NothingDiscarded(Apply(s, es[0]), es[1..])))
  }

  lemma StepLeakFree(s: State, e: Event)
    requires Inv(s) && Enabled(s, e) && LeakFree(s) && (e.Abort? ==> s.b.popped == {})
    ensures LeakFree(Apply(s, e))
  {
    hide Inv, Lists, IsGate, NewVersion, Without, NextPage, Written, Restrict;
    match e
    case Allocate(gate, junk) => assert LeakFree(AllocateStep(s, gate, junk)) by { hide NextPage; }
    case Free(p) => assert LeakFree(FreeStep(s, p)) by { hide Without; }
    case Publish => VersionMeta(s);
    case Crash(file, slot) => CrashLeakFree(s, file, slot);
    case _ =>
  }

  lemma CrashLeakFree(s: State, file: Store, slot: Slot)
    requires Inv(s) && Enabled(s, Crash(file, slot)) && LeakFree(s)
    ensures LeakFree(CrashStep(s, file, slot))
  {
    hide Inv, NewVersion, Enabled, LoadMeta;
    CrashAtomicity(s, file, slot);
    VersionMeta(s);
  }

  lemma Aborting(s: State, e: Event)
    requires Enabled(s, e) && e.Abort?
    ensures s.phase == Building
  {
  }

  lemma AbortsClean(s: State, e: Event)
    requires Inv(s) && Enabled(s, e) && e.Abort? && forall p :: p in s.w.allocs ==> p >= s.w.initialPageCnt
    ensures s.b.popped == {}
  {
    hide Inv, Enabled;
    Aborting(s, e);
    PoppedAre(s);
  }

  /** Full coverage: on every run in which no abort discards pages popped from the freelist, nothing
      leaks, so between transactions the pages in use and the freelist make up the whole file. */
  lemma {:induction false} NoLeak(s: State, es: seq<Event>, t: State)
    requires Inv(s) && Reaches(s, es, t) && LeakFree(s) && NothingDiscarded(s, es)
    ensures LeakFree(t) && Inv(t)
    ensures t.phase == Idle ==>
              && t.current.txnID in t.versions
              && multiset(t.versions[t.current.txnID].image.Keys) + multiset(Ids(t.pending)) == Span(t.current.numPages)
    decreases |es|
  {
    hide Inv, Enabled, Apply, Ids, Span;
    if es == [] {
      if t.phase == Idle { Conservation(t); }
    } else {
      if es[0].Abort? { AbortsClean(s, es[0]); }
      StepLeakFree(s, es[0]);
      StepKeeps(s, es[0]);
      NoLeak(Apply(s, es[0]), es[1..], t);
    }
  }

  /** The committed version and the freelist make up the whole file. */
  ghost predicate Covered(s: State) {
    && s.current.txnID in s.versions
    && multiset(s.versions[s.current.txnID].image.Keys) + multiset(Ids(s.pending)) == Span(s.current.numPages)
  }

  /** The pages a transaction took from the freelist are those it allocated below its first new page. */
  lemma PoppedAre(s: State)
    requires Inv(s) && s.phase == Building
    ensures s.b.popped == set p | p in s.w.allocs && p < s.w.initialPageCnt
    ensures s.b.popped == {} <==> forall p :: p in s.w.allocs ==> p >= s.w.initialPageCnt
  {
    BuildingFacts(s);
    hide Inv, Isolated, Committed, Ordered, Working, Slots, Shared, Divided;
    assert forall p :: p in s.w.allocs && p < s.w.initialPageCnt ==> p in s.b.popped;
  }

  /** Coverage across an abort. Whatever was covered before, afterwards the committed version and the
      freelist cover the file exactly if nothing had leaked and every page the transaction allocated was
      new in it. A page it had taken from the freelist is on no list any more. */
  lemma AbortLeaks(s: State, cache: Store)
    requires Inv(s) && Enabled(s, Abort(cache))
    ensures Covered(AbortStep(s, cache)) <==> s.leaked == {} && forall p :: p in s.w.allocs ==> p >= s.w.initialPageCnt
    ensures AbortStep(s, cache).leaked - s.leaked == set p | p in s.w.allocs && p < s.w.initialPageCnt
  {
    hide Inv, Covered, Enabled, AbortStep;
    Aborting(s, Abort(cache));
    AbortKeeps(s, cache);
    PoppedAre(s);
    DiscardedApart(s);
    Discards(s, cache);
    CoveredWhen(AbortStep(s, cache));
    BothEmpty(s.leaked, s.b.popped);
  }

  lemma BothEmpty(a: set<PageId>, b: set<PageId>)
    ensures a + b == {} <==> a == {} && b == {}
  {
    assert forall p :: p in a ==> p in a + b;
    assert forall p :: p in b ==> p in a + b;
  }

  lemma Discards(s: State, cache: Store)
    ensures AbortStep(s, cache).leaked == s.leaked + s.b.popped && AbortStep(s, cache).phase == Idle
  {
  }

  /** Between transactions the file is covered exactly if nothing has leaked. */
  lemma CoveredWhen(s: State)
    requires Inv(s) && s.phase == Idle
    ensures Covered(s) <==> s.leaked == {}
  {
    hide Inv, Span, Ids;
    Conservation(s);
    SameSum(multiset(s.versions[s.current.txnID].image.Keys) + multiset(Ids(s.pending)), multiset(s.leaked),
            Span(s.current.numPages));
    NoneLeft(s.leaked);
  }

  lemma SameSum(a: multiset<PageId>, b: multiset<PageId>, c: multiset<PageId>)
    requires a + b == c
    ensures a == c <==> b == multiset{}
  {
    if a == c {
      forall p ensures b[p] == 0 { assert (a + b)[p] == a[p] + b[p]; }
    }
  }

  lemma NoneLeft(s: set<PageId>)
    ensures multiset(s) == multiset{} <==> s == {}
  {
    forall p | p in s ensures multiset(s)[p] == 1 { }
    if s != {} { var p :| p in s; assert multiset(s)[p] == 1; }
  }

  lemma DiscardedApart(s: State)
    requires Inv(s) && s.phase == Building
    ensures s.leaked !! s.b.popped
  {
    BuildingFacts(s);
    hide Inv, Isolated, Ordered, Working, Slots, Owned, Shared, Divided, Committed;
    forall p | p in s.b.popped ensures p !in s.leaked {
      SharedApart(s.versions[s.current.txnID].image.Keys, s.pending, s.b.popped, s.leaked, s.current.numPages, p);
    }
  }
}
