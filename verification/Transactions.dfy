/** The database handle and its write transaction: the methods of DB, Txn and freelist, each proved to
    take exactly the step the state machine gives it. Writers exclude each other, so the one open
    write transaction is part of the object. */
module Transactions {
  import opened Pages
  import opened Protocol
  import opened ProtocolSafety
  import opened ProtocolRuns
  import opened ProtocolReuse
  import opened FreelistChain

  /** Pages in m have the same contents in both stores. */
  ghost predicate Kept(c0: Store, c1: Store, m: multiset<PageId>) {
    forall p :: p in m ==> p in c0 && p in c1 && c1[p] == c0[p]
  }

  class DB {
    var cache: Store
    var dirty: set<PageId>
    var disk: Disk
    var current: Meta
    var currentSlot: nat
    var pending: seq<FreeEntry>
    var readers: map<nat, nat>

    // the open write transaction
    var phase: Phase
    var meta: Meta
    var initialPageCnt: nat
    var allocs: seq<PageId>
    var freed: seq<PageId>
    var reusable: seq<PageId>

    ghost var books: Books
    ghost var leaked: set<PageId>
    ghost var versions: map<nat, Version>

    ghost function View(): State
      reads this
    {
      State(cache, dirty, disk, current, currentSlot, pending, readers, phase,
            Writer(meta, initialPageCnt, allocs, freed, reusable), books, leaked, versions)
    }

    ghost predicate Valid()
      reads this
    {
      Inv(View())
    }

    /** A write transaction is open. */
    ghost predicate Open()
      reads this
    {
      Valid() && phase == Building
    }

    /** The pages the working version uses. */
    ghost function Live(): multiset<PageId>
      reads this
    {
      multiset(books.live)
    }

    /** What a transaction in progress leaves alone: the committed meta, every version still known with
        its pages, and the record of what was leaked. */
    ghost function Past(): (Meta, nat, map<nat, Version>, set<PageId>, nat, PageId, PageId)
      reads this
    {
      (current, currentSlot, versions, leaked, initialPageCnt, meta.freelistRoot, meta.catalogRoot)
    }

    /** The pages of the committed version that the working version still uses. A page that leaves this set
        does not come back during the transaction. */
    ghost function Still(): set<PageId>
      reads this
    {
      books.live * InUse(View())
    }

    /** How many pages the freelist will have to name if the transaction commits now. */
    function FreeCount(): nat
      reads this
    {
      |pending| + |freed| + |reusable|
    }

    constructor ()
      ensures View() == Init() && Valid()
    {
      var m := Meta(0, 0, 0, 2);
      cache, dirty, disk := map[], {}, Disk(map[], {}, Good(m), Good(m), Invalid);
      current, currentSlot, pending, readers := m, 0, [], map[];
      phase, meta, initialPageCnt, allocs, freed, reusable := Idle, m, 2, [], [], [];
      books, leaked, versions := Books({}, {}, {}, []), {}, map[0 := Version(m, map[], [], [], {})];
      new;
      InitKeeps();
    }

    method BeginRead() returns (m: Meta)
      requires Valid()
      modifies this`readers
      ensures Valid() && View() == BeginReadStep(old(View()))
      ensures m == current && m.txnID in readers
      ensures m.txnID in versions && versions[m.txnID].meta == m && Keeps(cache, versions[m.txnID].image)
    {
      hide Inv;
      BeginReadKeeps(View());
      ReaderBegins(View());
      m := current;
      var n := if m.txnID in readers then readers[m.txnID] else 0;
      readers := readers[m.txnID := n + 1];
    }

    method UnregisterReader(v: nat)
      requires Valid() && v in readers
      modifies this`readers
      ensures Valid() && View() == EndReadStep(old(View()), v)
    {
      hide Inv;
      EndReadKeeps(View(), v);
      if readers[v] <= 1 {
        readers := readers - {v};
      } else {
        readers := readers[v := readers[v] - 1];
      }
    }

    /** The oldest version that the current meta or any reader names. */
    method MinReaderTxn() returns (min: nat)
      ensures IsGate(View(), min)
    {
      min := current.txnID;
      var rest := readers.Keys;
      while rest != {}
        invariant rest <= readers.Keys
        invariant min <= current.txnID && (min == current.txnID || min in readers)
        invariant forall v :: v in readers && v !in rest ==> min <= v
        decreases rest
      {
        var v :| v in rest;
        if v < min {
          min := v;
        }
        rest := rest - {v};
      }
    }

    /** The buffer pool may write a dirty page back whenever it needs a frame. */
    method WriteBack(p: PageId)
      requires Valid() && p in dirty
      modifies this`dirty, this`disk
      ensures Valid() && View() == WriteBackStep(old(View()), p)
    {
      hide Inv;
      ghost var s := View();
      WriteBackKeeps(s, p);
      var ps := {p};
      disk := disk.(file := disk.file + map x | x in ps && x in cache :: cache[x], unsynced := disk.unsynced + ps);
      dirty := dirty - ps;
    }

    /** What may happen beside the writer at any moment: readers begin and end, and dirty pages are
        written back. */
    method Interfere()
      requires Valid()
      modifies this`readers, this`dirty, this`disk
      ensures Valid()
    {
      hide Inv;
      var n: int := *;
      while n > 0
        invariant Valid()
        decreases n
      {
        var choice: int := *;
        if choice == 0 {
          var _ := BeginRead();
        } else if choice == 1 && readers.Keys != {} {
          var v :| v in readers.Keys;
          UnregisterReader(v);
        } else if dirty != {} {
          var p :| p in dirty;
          WriteBack(p);
        }
        n := n - 1;
      }
    }

    method BeginWrite()
      requires Valid() && phase == Idle
      modifies this
      ensures Open() && View() == BeginWriteStep(old(View()))
    {
      hide Inv, BeginWriteStep;
      ghost var s := View();
      BeginWriteKeeps(s);
      BeginWriteFields(s);
      phase, meta, initialPageCnt := Building, current, current.numPages;
      allocs, freed, reusable := [], [], [];
      books := Books(InUse(View()), {}, {}, []);
    }

    /** popReusable: the head of the freelist, if no reader can still see that page. */
    method PopReusable(gate: nat) returns (id: PageId, ok: bool)
      modifies this`pending
      ensures ok <==> old(pending) != [] && old(pending)[0].freedAt <= gate
      ensures ok ==> id == old(pending)[0].page && pending == old(pending)[1..]
      ensures !ok ==> pending == old(pending)
    {
      if |pending| == 0 || pending[0].freedAt > gate {
        return 0, false;
      }
      id, ok := pending[0].page, true;
      pending := pending[1..];
    }

    /** The three sources of a page, in order; a page from the end of the file comes as the frame left it. */
    method PickPage(gate: nat) returns (id: PageId, junk: Page, popped: bool)
      modifies this`reusable, this`pending, this`meta
      ensures id == NextPage(old(View()), gate) && popped == Pops(old(View()), gate)
      ensures reusable == if old(reusable) != [] then old(reusable)[..|old(reusable)| - 1] else []
      ensures pending == if popped then old(pending)[1..] else old(pending)
      ensures meta == if old(reusable) != [] || popped then old(meta) else old(meta).(numPages := id + 1)
    {
      junk, popped := Blank, false;
      var n := |reusable|;
      if n > 0 {
        id := reusable[n - 1];
        reusable := reusable[..n - 1];
      } else {
        id, popped := PopReusable(gate);
        if !popped {
          id, junk := meta.numPages, *;
          meta := meta.(numPages := id + 1);
        }
      }
    }

    method TakePage(gate: nat) returns (id: PageId, junk: Page)
      modifies this
      ensures id == NextPage(old(View()), gate) && View() == AllocateStep(old(View()), gate, junk)
    {
      hide NextPage, Pops, AllocateStep;
      ghost var s := View();
      var popped;
      id, junk, popped := PickPage(gate);
      AllocateFields(s, gate, junk);
      Install(id, junk, popped);
    }

    /** The page's frame, dirty and in the hands of the transaction. */
    method Install(id: PageId, page: Page, ghost popped: bool)
      modifies this`cache, this`dirty, this`allocs, this`books
      ensures cache == old(cache)[id := page] && dirty == old(dirty) + {id} && allocs == old(allocs) + [id]
      ensures books == Books(old(books).live + {id}, old(books).mine + {id},
                             if popped then old(books).popped + {id} else old(books).popped, old(books).chain)
    {
      cache, dirty, allocs := cache[id := page], dirty + {id}, allocs + [id];
      books := Books(books.live + {id}, books.mine + {id}, if popped then books.popped + {id}
                     else books.popped, books.chain);
    }

    /** AllocatePage hands out a page that nothing uses, whatever readers and write-backs do meanwhile, and
        touches no page in use. */
    method AllocatePage() returns (id: PageId)
      requires Open()
      modifies this
      ensures Open()
      ensures exists d: set<PageId>, file: Disk, gate: nat, junk: Page ::
                AllocatedFrom(old(View()).(readers := readers, dirty := d, disk := file), View(), id, gate, junk)
      ensures id >= 2 && old(Live())[id] == 0 && Live() == old(Live()) + multiset{id}
      ensures books.mine == old(books.mine) + {id} && id in cache
      ensures Kept(old(cache), cache, old(Live())) && Past() == old(Past()) && Still() <= old(Still())
      ensures old(FreeCount()) - 1 <= FreeCount() <= old(FreeCount())
      ensures meta.numPages ==
              old(meta.numPages) + (if MustGrow(old(reusable), old(pending), readers) then 1 else 0)
    {
      hide Inv, IsGate, Kept, AllocateStep, NextPage, MustGrow;
      Interfere();
      ghost var s := View();
      assert s == old(View()).(readers := readers, dirty := s.dirty, disk := s.disk);
      var gate := MinReaderTxn();
      var junk;
      id, junk := TakePage(gate);
      AllocateKeeps(s, gate, junk);
      GrowsOnlyWhenItMust(s, gate, junk);
      AllocatesNothingCommitted(s, gate);
      LiveInCache(s);
      AllocateEffect(s, gate, junk);
      KeptUpdate(s.cache, id, junk, multiset(s.b.live));
      SetPlus(s.b.live, id);
      assert AllocatedFrom(s, View(), id, gate, junk);
    }

    /** Fill a page that this transaction has allocated. */
    method Write(id: PageId, page: Page)
      requires Open() && id in books.mine
      modifies this`cache, this`dirty
      ensures Open() && View() == WriteStep(old(View()), id, page)
      ensures cache == old(cache)[id := page] && Live() == old(Live()) && Past() == old(Past())
              && Still() == old(Still())
    {
      hide Inv;
      ghost var s := View();
      WriteKeeps(s, id, page);
      cache, dirty := cache[id := page], dirty + {id};
    }

    /** FreePage: a page that was there before the transaction waits for readers; one that was not may be
        reused at once. */
    method FreePage(id: PageId)
      requires Open() && id in books.live
      modifies this`allocs, this`reusable, this`freed, this`books
      ensures Open() && View() == FreeStep(old(View()), id)
      ensures Live() + multiset{id} == old(Live()) && books.mine == old(books.mine) - {id} && Past() == old(Past())
              && Still() == old(Still()) - {id}
    {
      hide Inv, FreeStep;
      ghost var s := View();
      FreeKeeps(s, id);
      FreeFields(s, id);
      SetMinus(books.live, id);
      if id >= initialPageCnt {
        RemoveAlloc(id);
        reusable := reusable + [id];
      } else {
        freed := freed + [id];
      }
      books := books.(live := books.live - {id}, mine := books.mine - {id});
    }

    method RemoveAlloc(id: PageId)
      modifies this`allocs
      ensures allocs == Without(old(allocs), id)
    {
      var i := 0;
      while i < |allocs| && allocs[i] != id
        invariant 0 <= i <= |allocs| && allocs == old(allocs)
        invariant forall j :: 0 <= j < i ==> allocs[j] != id
      {
        i := i + 1;
      }
      WithoutAt(allocs, id, i);
      if i < |allocs| {
        allocs := allocs[..i] + allocs[i + 1..];
      }
    }

    method SetCatalogRoot(id: PageId)
      requires Open()
      modifies this`meta
      ensures Open() && meta == old(meta).(catalogRoot := id) && Live() == old(Live())
    {
      hide Inv;
      ghost var s := View();
      SetRootKeeps(s, id);
      meta := meta.(catalogRoot := id);
    }

    // ---- the steps of a commit ----

    /** The freelist chain has been written: the new meta will point to it. */
    method Seal(chain: seq<PageId>)
      requires Open() && Enabled(View(), Event.Seal(chain))
      modifies this`phase, this`meta, this`books
      ensures Valid() && View() == SealStep(old(View()), chain)
    {
      hide Inv, Lists;
      ghost var s := View();
      SealKeeps(s, chain);
      phase, meta := Sealed, meta.(freelistRoot := Head(chain));
      books := books.(chain := chain);
    }

    /** FlushPages over the transaction's pages: those still dirty go to the file. */
    method Flush()
      requires Valid() && phase == Sealed
      modifies this`phase, this`dirty, this`disk
      ensures Valid() && View() == FlushStep(old(View()))
    {
      hide Inv;
      ghost var s := View();
      FlushKeeps(s);
      var ps := set p | p in allocs && p in dirty;
      disk := disk.(file := disk.file + map p | p in ps && p in cache :: cache[p], unsynced := disk.unsynced + ps);
      phase, dirty := Flushed, dirty - ps;
    }

    method Sync()
      requires Valid() && phase in {Flushed, MetaWritten}
      modifies this`phase, this`disk
      ensures Valid() && View() == SyncStep(old(View()))
    {
      hide Inv;
      ghost var s := View();
      SyncKeeps(s);
      disk := disk.(unsynced := {});
      phase := if phase == Flushed then Synced else MetaSynced;
    }

    method NextMetaPage() returns (i: nat)
      ensures i == OtherSlot(currentSlot)
    {
      i := if currentSlot == 0 then 1 else 0;
    }

    /** The new meta, one transaction on, goes to the other slot. */
    method WriteMeta()
      requires Valid() && phase == Synced
      modifies this`phase, this`meta, this`disk
      ensures Valid() && View() == WriteMetaStep(old(View()))
    {
      hide Inv;
      ghost var s := View();
      WriteMetaKeeps(s);
      meta := meta.(txnID := meta.txnID + 1);
      var next := NextMetaPage();
      var before := SlotAt(disk, next);
      disk := if next == 0 then disk.(slot0 := Good(meta), prior := before)
          else disk.(slot1 := Good(meta), prior := before);
      phase := MetaWritten;
    }

    /** push: each page goes to the end of the freelist with the transaction that freed it. */
    method Push(freedAt: nat, ids: seq<PageId>)
      modifies this`pending
      ensures pending == old(pending) + Entries(ids, freedAt)
    {
      for i := 0 to |ids|
        invariant pending == old(pending) + Entries(ids[..i], freedAt)
      {
        assert Entries(ids[..i + 1], freedAt) == Entries(ids[..i], freedAt) + [FreeEntry(ids[i], freedAt)];
        pending := pending + [FreeEntry(ids[i], freedAt)];
      }
      assert ids[..|ids|] == ids;
    }

    method PushFreed()
      modifies this`pending
      ensures pending == old(pending) + Entries(freed, meta.txnID) + Entries(reusable, meta.txnID)
    {
      Push(meta.txnID, freed);
      Push(meta.txnID, reusable);
    }

    /** The committed meta is published, and the freed pages wait on the freelist for its readers. */
    method Publish()
      requires Valid() && phase == MetaSynced
      modifies this`phase, this`current, this`currentSlot, this`pending, this`books, this`versions
      ensures Valid() && View() == PublishStep(old(View()))
    {
      hide Inv, PublishStep;
      ghost var s := View();
      PublishKeeps(s);
      SwitchOver();
    }

    method SwitchOver()
      modifies this`phase, this`current, this`currentSlot, this`pending, this`books, this`versions
      ensures View() == PublishStep(old(View()))
    {
      hide NewVersion, Entries, PublishStep;
      PublishFields(View());
      StoreMeta();
      PushFreed();
    }

    /** The new meta becomes the current one, and the transaction is over. */
    method StoreMeta()
      modifies this`phase, this`current, this`currentSlot, this`books, this`versions
      ensures phase == Idle && current == meta && currentSlot == OtherSlot(old(currentSlot))
              && books == Books({}, {}, {}, [])
      ensures versions == old(versions)[meta.txnID := NewVersion(old(View()))]
    {
      hide NewVersion;
      versions := versions[meta.txnID := NewVersion(View())];
      current, currentSlot := meta, if currentSlot == 0 then 1 else 0;
      phase, books := Idle, Books({}, {}, {}, []);
    }

    /** Abort marks the transaction's pages clean, so that nothing of it is ever written, and forgets it. */
    method Abort()
      requires Open()
      modifies this`phase, this`dirty, this`leaked, this`books
      ensures Valid() && View() == AbortStep(old(View()), old(cache))
    {
      hide Inv, AbortStep;
      ghost var s := View();
      AbortKeeps(s, cache);
      Forget();
    }

    method Forget()
      modifies this`phase, this`dirty, this`leaked, this`books
      ensures View() == AbortStep(old(View()), old(cache))
    {
      hide AbortStep;
      AbortFields(View(), cache);
      MarkClean(allocs);
      MarkClean(reusable);
      phase, leaked, books := Idle, leaked + books.popped, Books({}, {}, {}, []);
    }

    method MarkClean(ids: seq<PageId>)
      modifies this`dirty
      ensures dirty == old(dirty) - set p | p in ids
    {
      for i := 0 to |ids|
        invariant dirty == old(dirty) - set p | p in ids[..i]
      {
        dirty := dirty - {ids[i]};
        assert ids[..i + 1] == ids[..i] + [ids[i]];
      }
      assert ids[..|ids|] == ids;
    }

    /** Open on a file left by a crash in state s: load the newer meta, then the freelist from its chain. */
    constructor Reopen(file: Store, slot0: Slot, slot1: Slot, ghost s: State, ghost slot: Slot)
      requires Inv(s) && Enabled(s, Crash(file, slot))
      requires slot0 == CrashedSlots(s, slot).slot0 && slot1 == CrashedSlots(s, slot).slot1
      ensures Valid() && View() == CrashStep(s, file, slot)
    {
      hide Inv, Lists, Keeps, NewVersion, CrashedSlots, VersionOf, LoadMeta;
      CrashKeeps(s, file, slot);
      CrashAtomicity(s, file, slot);
      LoadedMeta(s, slot);
      var (found, page) := LoadMeta(slot0, slot1);
      var m := found.meta;
      ghost var ver := VersionOf(s, m);
      CrashIs(s, file, slot);
      var ids: seq<PageId> := [];
      if m.freelistRoot != 0 {
        ids := ReadFreelistChain(file, m.freelistRoot, ver.chain, ver.persisted);
      } else {
        NoChain(file, ver.chain, ver.persisted);
      }
      cache, dirty, disk := file, {}, Disk(file, {}, slot0, slot1, Invalid);
      current, currentSlot, pending, readers := m, page, Entries(ids, 0), map[];
      phase, meta, initialPageCnt, allocs, freed, reusable := Idle, m, m.numPages, [], [], [];
      books, leaked, versions := Books({}, {}, {}, []), ver.leaked, map[m.txnID := ver];
    }
  }

  // ---- the steps, field by field ----

  lemma BeginWriteFields(s: State)
    ensures BeginWriteStep(s) == State(s.cache, s.dirty, s.disk, s.current, s.currentSlot, s.pending, s.readers,
                                       Building,
                                       Writer(s.current, s.current.numPages, [], [], []), Books(InUse(s), {}, {}, []),
                                           s.leaked, s.versions)
  {
  }

  lemma AllocateFields(s: State, gate: nat, junk: Page)
    ensures var p, pops := NextPage(s, gate), Pops(s, gate);
      AllocateStep(s, gate, junk) ==
      State(s.cache[p := junk], s.dirty + {p}, s.disk, s.current, s.currentSlot, if pops then s.pending[1..]
            else s.pending, s.readers, s.phase,
            Writer(if s.w.reusable != [] || pops then s.w.meta else s.w.meta.(numPages := p + 1), s.w.initialPageCnt,
                   s.w.allocs + [p], s.w.freed,
                   if s.w.reusable != [] then s.w.reusable[..|s.w.reusable| - 1] else s.w.reusable),
            Books(s.b.live + {p}, s.b.mine + {p}, if pops then s.b.popped + {p} else s.b.popped, s.b.chain), s.leaked,
                s.versions)
  {
    hide NextPage, Pops;
  }

  lemma FreeFields(s: State, p: PageId)
    ensures var again := p >= s.w.initialPageCnt;
      FreeStep(s, p) ==
      State(s.cache, s.dirty, s.disk, s.current, s.currentSlot, s.pending, s.readers, s.phase,
            Writer(s.w.meta, s.w.initialPageCnt, if again then Without(s.w.allocs, p) else s.w.allocs,
                   if again then s.w.freed else s.w.freed + [p], if again then s.w.reusable + [p] else s.w.reusable),
            Books(s.b.live - {p}, s.b.mine - {p}, s.b.popped, s.b.chain), s.leaked, s.versions)
  {
    hide Without;
  }

  lemma PublishFields(s: State)
    ensures PublishStep(s) ==
            State(s.cache, s.dirty, s.disk, s.w.meta, OtherSlot(s.currentSlot),
                  s.pending + Entries(s.w.freed, s.w.meta.txnID) + Entries(s.w.reusable, s.w.meta.txnID), s.readers,
                      Idle, s.w,
                  Books({}, {}, {}, []), s.leaked, s.versions[s.w.meta.txnID := NewVersion(s)])
  {
    hide NewVersion, Entries;
  }

  lemma AbortFields(s: State, cache: Store)
    ensures AbortStep(s, cache) ==
            State(cache, s.dirty - (set p | p in s.w.allocs) - (set p | p in s.w.reusable), s.disk, s.current,
                  s.currentSlot, s.pending, s.readers,
                  Idle, s.w, Books({}, {}, {}, []), s.leaked + s.b.popped, s.versions)
  {
  }

  /** A crash leaves at least one meta that decodes. */
  lemma LoadedMeta(s: State, slot: Slot)
    requires Inv(s) && (s.phase == MetaWritten ==> slot in {Invalid, s.disk.prior, Good(s.w.meta)})
    ensures LoadMeta(CrashedSlots(s, slot).slot0, CrashedSlots(s, slot).slot1).0.Good?
  {
    hide Inv, LoadMeta, CrashedSlots;
    Parts(s);
    CrashMeta(s, slot);
  }

  lemma CrashIs(s: State, file: Store, slot: Slot)
    requires LoadMeta(CrashedSlots(s, slot).slot0, CrashedSlots(s, slot).slot1).0.Good?
    ensures var d := CrashedSlots(s, slot);
      var (found, i) := LoadMeta(d.slot0, d.slot1);
      var v := VersionOf(s, found.meta);
      && CrashStep(s, file, slot).current == found.meta
         && CrashStep(s, file, slot).versions == map[found.meta.txnID := v]
      && CrashStep(s, file, slot) ==
         State(file, {}, Disk(file, {}, d.slot0, d.slot1, Invalid), found.meta, i, Entries(v.persisted, 0), map[],
               Idle, Writer(found.meta, found.meta.numPages, [], [], []), Books({}, {}, {}, []), v.leaked,
                   map[found.meta.txnID := v])
  {
    hide LoadMeta, CrashedSlots, VersionOf;
  }

  lemma NoChain(store: Store, chain: seq<PageId>, ids: seq<PageId>)
    requires Lists(store, chain, ids) && Head(chain) == 0
    ensures ids == []
  {
  }

  lemma {:induction false} WithoutAt(ids: seq<PageId>, id: PageId, i: nat)
    requires i <= |ids| && (forall j :: 0 <= j < i ==> ids[j] != id) && (i < |ids| ==> ids[i] == id)
    ensures Without(ids, id) == if i < |ids| then ids[..i] + ids[i + 1..] else ids
  {
    if i > 0 {
      WithoutAt(ids[1..], id, i - 1);
      assert ids == [ids[0]] + ids[1..];
      if i < |ids| {
        assert ids[..i] == [ids[0]] + ids[1..][..i - 1];
        assert ids[i + 1..] == ids[1..][i..];
      }
    }
  }

  lemma KeptUpdate(c: Store, id: PageId, page: Page, m: multiset<PageId>)
    requires m[id] == 0 && forall p :: p in m ==> p in c
    ensures Kept(c, c[id := page], m)
  {
  }

  ghost predicate AllocatedFrom(s: State, t: State, id: PageId, gate: nat, junk: Page) {
    IsGate(s, gate) && id == NextPage(s, gate) && t == AllocateStep(s, gate, junk)
  }

  lemma AllocateEffect(s: State, gate: nat, junk: Page)
    ensures var t, p := AllocateStep(s, gate, junk), NextPage(s, gate);
      && t.cache == s.cache[p := junk] && t.phase == s.phase && t.readers == s.readers
      && t.b.live == s.b.live + {p} && t.b.mine == s.b.mine + {p}
      && t.current == s.current && t.currentSlot == s.currentSlot && t.versions == s.versions && t.leaked == s.leaked
      && t.w.initialPageCnt == s.w.initialPageCnt
      && t.w.meta.freelistRoot == s.w.meta.freelistRoot && t.w.meta.catalogRoot == s.w.meta.catalogRoot
      && t.w.freed == s.w.freed
      && |s.pending| + |s.w.reusable| - 1 <= |t.pending| + |t.w.reusable| <= |s.pending| + |s.w.reusable|
  {
    hide NextPage;
  }

  /** A page handed out is never one of the committed version. */
  lemma AllocatesNothingCommitted(s: State, gate: nat)
    requires Inv(s) && s.phase == Building
    ensures NextPage(s, gate) !in InUse(s)
  {
    BuildingFacts(s);
    hide Inv, Isolated, Committed, Ordered, Working, Slots, Divided, Shared;
    var p := NextPage(s, gate);
    var ver := s.versions[s.current.txnID];
    assert forall x :: x in ver.image ==> x < s.current.numPages by { assert Isolated(s); CommittedBelow(s); }
    if s.w.reusable != [] {
      assert p in s.w.reusable;
    } else if s.pending != [] && s.pending[0].freedAt <= gate {
      PendingIn(s.pending, 0);
      SharedApart(ver.image.Keys, s.pending, s.b.popped, s.leaked, s.current.numPages, p);
    } else {
      EnoughPages(s);
    }
  }

  lemma CommittedBelow(s: State)
    requires Isolated(s)
    ensures forall x :: x in s.versions[s.current.txnID].image ==> x < s.current.numPages
  {
  }

  lemma EnoughPages(s: State)
    requires Inv(s) && s.phase == Building
    ensures s.current.numPages <= s.w.meta.numPages
  {
    hide Isolated, Committed, Ordered, Slots, Owned;
  }

  lemma LiveInCache(s: State)
    requires Inv(s) && s.phase == Building
    ensures forall p :: p in s.b.live ==> p in s.cache
  {
    BuildingFacts(s);
    hide Inv, Isolated, Committed, Ordered, Working, Slots, Divided, Owned, Shared;
  }

  /** Every page in use has contents. */
  lemma LiveCached(db: DB)
    requires db.Open()
    ensures forall p :: p in db.Live() ==> p in db.cache
    ensures forall p :: db.Live()[p] <= 1
    ensures db.books.mine <= db.books.live
  {
    BuildingFacts(db.View());
    LiveInCache(db.View());
    hide Inv;
  }

  lemma KeptAll(db: DB)
    requires db.Open()
    ensures Kept(db.cache, db.cache, db.Live())
  {
    hide Inv;
    LiveCached(db);
  }

  lemma KeptTrans(c0: Store, c1: Store, c2: Store, m: multiset<PageId>, m': multiset<PageId>)
    requires Kept(c0, c1, m) && Kept(c1, c2, m') && m <= m'
    ensures Kept(c0, c2, m)
  {
  }

  lemma Cancel(a: multiset<PageId>, b: multiset<PageId>, c: multiset<PageId>)
    requires a + c == b + c
    ensures a == b
  {
    forall p ensures a[p] == b[p] { assert (a + c)[p] == (b + c)[p]; }
  }
}
