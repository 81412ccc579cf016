/** Every step of the page lifecycle keeps the invariant; what that means for readers, for crashes and
    for the accounting of pages. */
module ProtocolSafety {
  import opened Pages
  import opened Protocol

  lemma {:induction false} SpanCounts(n: nat, p: PageId)
    ensures Span(n)[p] == if 2 <= p < n then 1 else 0
  {
    if n > 2 { SpanCounts(n - 1, p); }
  }

  lemma SharedApart(used: set<PageId>, pending: seq<FreeEntry>, popped: set<PageId>, leaked: set<PageId>, n: nat,
                    p: PageId)
    requires Shared(used, pending, popped, leaked, n)
    ensures p in used ==> 2 <= p < n && p !in popped && p !in Ids(pending) && p !in leaked
    ensures p in popped ==> 2 <= p < n && p !in Ids(pending) && p !in leaked
    ensures p in Ids(pending) ==> 2 <= p < n && multiset(Ids(pending))[p] == 1
  {
    SpanCounts(n, p);
    var m := multiset(used) + multiset(Ids(pending)) + multiset(popped) + multiset(leaked);
    assert m[p] == multiset(used)[p] + multiset(Ids(pending))[p] + multiset(popped)[p] + multiset(leaked)[p];
    assert p in Ids(pending) <==> multiset(Ids(pending))[p] > 0;
  }

  lemma DividedApart(live: set<PageId>, w: Writer, pending: seq<FreeEntry>, leaked: set<PageId>, p: PageId)
    requires Divided(live, w, pending, leaked)
    ensures p in live ==>
              2 <= p < w.meta.numPages && p !in w.freed && p !in w.reusable && p !in Ids(pending) && p !in leaked
    ensures p in w.reusable ==> 2 <= p < w.meta.numPages && p !in w.freed && p !in Ids(pending) && p !in leaked
    ensures p in Ids(pending) ==> p < w.meta.numPages && p !in w.freed && p !in leaked
  {
    SpanCounts(w.meta.numPages, p);
    var m := multiset(live) + multiset(w.freed) + multiset(w.reusable) + multiset(Ids(pending)) + multiset(leaked);
    assert m[p] == multiset(live)[p] + multiset(w.freed)[p] + multiset(w.reusable)[p] + multiset(Ids(pending))[p]
           + multiset(leaked)[p];
    assert p in w.freed <==> multiset(w.freed)[p] > 0;
    assert p in w.reusable <==> multiset(w.reusable)[p] > 0;
    assert p in Ids(pending) <==> multiset(Ids(pending))[p] > 0;
  }

  lemma SetPlus(s: set<PageId>, p: PageId)
    requires p !in s
    ensures multiset(s + {p}) == multiset(s) + multiset{p}
  {
  }

  lemma SetMinus(s: set<PageId>, p: PageId)
    requires p in s
    ensures multiset(s - {p}) + multiset{p} == multiset(s)
  {
  }

  lemma SeqPlus(s: seq<PageId>, p: PageId)
    ensures multiset(s + [p]) == multiset(s) + multiset{p}
  {
  }

  lemma SeqLast(s: seq<PageId>)
    requires s != []
    ensures multiset(s) == multiset(s[..|s| - 1]) + multiset{s[|s| - 1]}
  {
    assert s == s[..|s| - 1] + [s[|s| - 1]];
  }

  lemma PendingHead(pending: seq<FreeEntry>)
    requires pending != []
    ensures Ids(pending) == [pending[0].page] + Ids(pending[1..])
    ensures multiset(Ids(pending)) == multiset{pending[0].page} + multiset(Ids(pending[1..]))
  {
    assert Ids(pending) == [pending[0].page] + Ids(pending[1..]);
  }

  // ---- readers come and go ----

  lemma BeginReadKeeps(s: State)
    requires Inv(s)
    ensures Inv(BeginReadStep(s))
  {
    hide Visible, Committed, Ordered, Progress, Slots, Divided;
    var s' := BeginReadStep(s);
    assert Committed(s') by { SameCommitted(s, s'); }
    assert Progress(s') by { SameProgress(s, s'); }
    assert Slots(s') by { SameSlots(s, s'); }
  }

  lemma SameCommitted(s: State, t: State)
    requires Committed(s)
    requires t.current == s.current && t.versions == s.versions && t.dirty == s.dirty && t.disk == s.disk
    requires t.pending == s.pending && t.b.popped == s.b.popped && t.leaked == s.leaked && t.phase == s.phase
    requires t.cache.Keys == s.cache.Keys
    ensures Committed(t)
  {
    hide Closed, Durable, Shared;
  }

  lemma SameProgress(s: State, t: State)
    requires Progress(s)
    requires t.phase == s.phase && t.b == s.b && t.cache == s.cache && t.pending == s.pending && t.w == s.w
    requires t.dirty == s.dirty && t.disk == s.disk
    ensures Progress(t)
  {
    hide Lists;
  }

  lemma SameSlots(s: State, t: State)
    requires Slots(s)
    requires t.disk == s.disk && t.current == s.current && t.currentSlot == s.currentSlot
    requires t.phase in {MetaWritten, MetaSynced} <==> s.phase in {MetaWritten, MetaSynced}
    requires s.phase in {MetaWritten, MetaSynced} ==> t.w.meta == s.w.meta
    ensures Slots(t)
  {
    hide Older;
  }

  lemma EndReadKeeps(s: State, v: nat)
    requires Inv(s) && v in s.readers
    ensures Inv(EndReadStep(s, v))
  {
    hide Visible, Committed, Ordered, Progress, Slots, Divided;
    var s' := EndReadStep(s, v);
    assert Committed(s') by { SameCommitted(s, s'); }
    assert Progress(s') by { SameProgress(s, s'); }
    assert Slots(s') by { SameSlots(s, s'); }
  }

  // ---- the writer builds ----

  lemma SameIsolated(s: State, t: State)
    requires Isolated(s)
    requires t.current == s.current && t.versions == s.versions && t.cache == s.cache && t.pending == s.pending
    requires t.readers == s.readers && t.b.popped == s.b.popped
    ensures Isolated(t)
  {
    hide Visible;
  }

  /** The invariant, part by part, while the writer builds. */
  lemma BuildingFacts(s: State)
    requires Inv(s) && s.phase == Building
    ensures Isolated(s) && Committed(s) && Ordered(s.pending, s.current.txnID) && Working(s) && Slots(s)
    ensures s.w.initialPageCnt == s.current.numPages && s.w.meta.txnID == s.current.txnID
    ensures Divided(s.b.live, s.w, s.pending, s.leaked) && Owned(s.w, s.b, s.dirty)
    ensures s.current.txnID in s.versions && s.b.live <= s.cache.Keys
    ensures Shared(s.versions[s.current.txnID].image.Keys, s.pending, s.b.popped, s.leaked, s.current.numPages)
  {
    hide Isolated, Ordered, Slots, Divided, Owned, Shared, Closed, Durable;
  }

  lemma Rebuilt(t: State)
    requires Isolated(t) && Committed(t) && Ordered(t.pending, t.current.txnID) && Working(t) && Slots(t)
    requires t.phase in {Idle, Building}
    ensures Inv(t)
  {
    hide Isolated, Committed, Ordered, Working, Slots, Lists;
  }

  lemma BeginWriteKeeps(s: State)
    requires Inv(s) && s.phase == Idle
    ensures Inv(BeginWriteStep(s))
  {
    var t := BeginWriteStep(s);
    assert Working(t) by { BeginWorking(s); }
    hide Visible, Closed, Durable, Shared, Ordered, Working, Lists, Divided;
    assert s.b.popped == {};
    SameSlots(s, t);
    Rebuilt(t);
  }

  lemma BeginWorking(s: State)
    requires Inv(s) && s.phase == Idle
    ensures Working(BeginWriteStep(s))
  {
    hide Slots, Ordered, Closed, Ids, Lists, Span;
    var t := BeginWriteStep(s);
    var ver := s.versions[s.current.txnID];
    assert Visible(s.current.txnID, ver, s.cache, s.pending, s.b.popped, s.current.numPages);
    assert Divided(t.b.live, t.w, t.pending, t.leaked);
  }

  /** A page that is not in a visible version may be overwritten. */
  lemma VisibleWrite(v: nat, ver: Version, cache: Store, pending: seq<FreeEntry>, popped: set<PageId>, n: nat,
                     p: PageId, pg: Page)
    requires Visible(v, ver, cache, pending, popped, n) && p !in ver.image
    ensures Visible(v, ver, cache[p := pg], pending, popped, n)
  {
  }

  lemma IsolatedWrite(s: State, p: PageId, pg: Page)
    requires Isolated(s)
    requires p in s.b.popped || p >= s.current.numPages
    ensures Isolated(s.(cache := s.cache[p := pg]))
  {
    forall v | v == s.current.txnID || v in s.readers
      ensures Visible(v, s.versions[v], s.cache[p := pg], s.pending, s.b.popped, s.current.numPages)
    {
      assert p !in s.versions[v].image by {
        assert Visible(v, s.versions[v], s.cache, s.pending, s.b.popped, s.current.numPages);
      }
      VisibleWrite(v, s.versions[v], s.cache, s.pending, s.b.popped, s.current.numPages, p, pg);
    }
    hide Visible;
  }

  /** Taking the head of the freelist past the gate: no visible version has that page. */
  lemma IsolatedPop(s: State, gate: nat)
    requires Isolated(s) && IsGate(s, gate)
    requires s.pending != [] && s.pending[0].freedAt <= gate
    ensures Isolated(s.(pending := s.pending[1..], b := s.b.(popped := s.b.popped + {s.pending[0].page})))
  {
    var p, rest := s.pending[0].page, s.pending[1..];
    forall v | v == s.current.txnID || v in s.readers
      ensures Visible(v, s.versions[v], s.cache, rest, s.b.popped + {p}, s.current.numPages)
    {
      VisiblePop(v, s.versions[v], s.cache, s.pending, s.b.popped, s.current.numPages, gate);
    }
    hide Visible;
  }

  lemma VisiblePop(v: nat, ver: Version, cache: Store, pending: seq<FreeEntry>, popped: set<PageId>, n: nat, gate: nat)
    requires Visible(v, ver, cache, pending, popped, n) && gate <= v
    requires pending != [] && pending[0].freedAt <= gate
    ensures Visible(v, ver, cache, pending[1..], popped + {pending[0].page}, n)
  {
    hide Keeps;
    assert pending[0].page !in ver.image;
    forall i | 0 <= i < |pending[1..]| && pending[1..][i].page in ver.image
      ensures pending[1..][i].freedAt > v
    {
      assert pending[1..][i] == pending[i + 1];
    }
  }

  lemma DurableElsewhere(ver: Version, dirty: set<PageId>, d: Disk, p: PageId)
    requires Durable(ver, dirty, d) && p !in ver.image
    ensures Durable(ver, dirty + {p}, d)
  {
  }

  lemma CommittedDirty(s: State, p: PageId, pg: Page)
    requires Committed(s) && Isolated(s)
    requires p in s.b.popped || p >= s.current.numPages
    ensures Committed(s.(cache := s.cache[p := pg], dirty := s.dirty + {p}))
  {
    var ver := s.versions[s.current.txnID];
    assert p !in ver.image by {
      assert Visible(s.current.txnID, ver, s.cache, s.pending, s.b.popped, s.current.numPages);
    }
    DurableElsewhere(ver, s.dirty, s.disk, p);
    hide Closed, Durable, Shared, Isolated;
  }

  lemma SharedPop(used: set<PageId>, pending: seq<FreeEntry>, popped: set<PageId>, leaked: set<PageId>, n: nat)
    requires Shared(used, pending, popped, leaked, n) && pending != []
    ensures Shared(used, pending[1..], popped + {pending[0].page}, leaked, n)
    ensures pending[0].page !in popped
  {
    PendingHead(pending);
    assert pending[0].page == Ids(pending)[0];
    SharedApart(used, pending, popped, leaked, n, pending[0].page);
    SetPlus(popped, pending[0].page);
    hide Ids, Span;
  }

  lemma CommittedPop(s: State)
    requires Committed(s) && s.pending != [] && s.phase != Idle
    ensures Committed(s.(pending := s.pending[1..], b := s.b.(popped := s.b.popped + {s.pending[0].page})))
    ensures s.pending[0].page < s.current.numPages && s.pending[0].page !in s.b.popped
  {
    var ver := s.versions[s.current.txnID];
    SharedPop(ver.image.Keys, s.pending, s.b.popped, s.leaked, s.current.numPages);
    SharedApart(ver.image.Keys, s.pending, s.b.popped, s.leaked, s.current.numPages, s.pending[0].page);
    assert s.pending[0].page == Ids(s.pending)[0];
    hide Closed, Durable, Shared, Ids;
  }

  lemma OrderedTail(pending: seq<FreeEntry>, n: nat)
    requires Ordered(pending, n) && pending != []
    ensures Ordered(pending[1..], n)
  {
  }

  /** The part of the working invariant that speaks of single pages, once p has been handed out. */
  lemma WorkingHandedOut(s: State, t: State, p: PageId, pg: Page)
    requires Working(s) && s.phase == Building && t.phase == Building
    requires p in t.b.popped || p >= s.w.initialPageCnt
    requires t.b.live == s.b.live + {p} && t.b.mine == s.b.mine + {p}
    requires t.b.popped == s.b.popped || (t.b.popped == s.b.popped + {p} && p < s.w.initialPageCnt)
    requires t.cache == s.cache[p := pg] && t.dirty == s.dirty + {p} && t.disk == s.disk
    requires t.current == s.current && t.leaked == s.leaked
    requires t.w.allocs == s.w.allocs + [p] && t.w.initialPageCnt == s.w.initialPageCnt
             && t.w.meta.txnID == s.w.meta.txnID
    requires forall x :: x in t.w.reusable ==> x in s.w.reusable
    requires Divided(t.b.live, t.w, t.pending, t.leaked)
    ensures Working(t)
  {
    hide Divided;
  }

  lemma ReusedApart(s: State)
    requires s.w.reusable != [] && Divided(s.b.live, s.w, s.pending, s.leaked) && Owned(s.w, s.b, s.dirty)
    ensures var p := s.w.reusable[|s.w.reusable| - 1];
      && 2 <= p && p !in s.b.live && p >= s.w.initialPageCnt
      && Divided(s.b.live + {p}, s.w.(reusable := s.w.reusable[..|s.w.reusable| - 1], allocs := s.w.allocs + [p]),
                 s.pending, s.leaked)
  {
    var p := s.w.reusable[|s.w.reusable| - 1];
    assert p in s.w.reusable;
    DividedApart(s.b.live, s.w, s.pending, s.leaked, p);
    SeqLast(s.w.reusable);
    SetPlus(s.b.live, p);
    hide Ids, Span;
  }

  lemma AllocateReusedKeeps(s: State, gate: nat, junk: Page)
    requires Inv(s) && s.phase == Building && s.w.reusable != []
    ensures Inv(AllocateStep(s, gate, junk))
    ensures NextPage(s, gate) !in s.b.live && NextPage(s, gate) >= 2
  {
    hide Inv, Isolated, Committed, Ordered, Working, Slots, Divided, Owned, Shared;
    BuildingFacts(s);
    var p := NextPage(s, gate);
    var t := AllocateStep(s, gate, junk);
    ReusedApart(s);
    IsolatedWrite(s, p, junk);
    SameIsolated(s.(cache := s.cache[p := junk]), t);
    CommittedDirty(s, p, junk);
    SameCommitted(s.(cache := s.cache[p := junk], dirty := s.dirty + {p}), t);
    WorkingHandedOut(s, t, p, junk);
    SameSlots(s, t);
    Rebuilt(t);
  }

  lemma PoppedApart(s: State)
    requires s.pending != [] && Divided(s.b.live, s.w, s.pending, s.leaked)
    ensures var p := s.pending[0].page;
      && 2 <= p && p !in s.b.live
      && Divided(s.b.live + {p}, s.w.(allocs := s.w.allocs + [p]), s.pending[1..], s.leaked)
  {
    var p := s.pending[0].page;
    assert p in Ids(s.pending) by { assert Ids(s.pending)[0] == p; }
    DividedApart(s.b.live, s.w, s.pending, s.leaked, p);
    SpanCounts(s.w.meta.numPages, p);
    PendingHead(s.pending);
    SetPlus(s.b.live, p);
    hide Ids, Span;
  }

  lemma AllocatePoppedKeeps(s: State, gate: nat, junk: Page)
    requires Inv(s) && s.phase == Building && IsGate(s, gate) && s.w.reusable == []
    requires s.pending != [] && s.pending[0].freedAt <= gate
    ensures Inv(AllocateStep(s, gate, junk))
    ensures NextPage(s, gate) !in s.b.live && NextPage(s, gate) >= 2
  {
    hide Inv, Isolated, Committed, Ordered, Working, Slots, Divided, Owned, Shared, IsGate;
    BuildingFacts(s);
    var p := s.pending[0].page;
    var t := AllocateStep(s, gate, junk);
    PoppedApart(s);
    PendingIn(s.pending, 0);
    SharedApart(s.versions[s.current.txnID].image.Keys, s.pending, s.b.popped, s.leaked, s.current.numPages, p);
    var s1 := s.(pending := s.pending[1..], b := s.b.(popped := s.b.popped + {p}));
    IsolatedPop(s, gate);
    CommittedPop(s);
    OrderedTail(s.pending, s.current.txnID);
    IsolatedWrite(s1, p, junk);
    SameIsolated(s1.(cache := s.cache[p := junk]), t);
    CommittedDirty(s1, p, junk);
    SameCommitted(s1.(cache := s.cache[p := junk], dirty := s.dirty + {p}), t);
    WorkingHandedOut(s, t, p, junk);
    SameSlots(s, t);
    Rebuilt(t);
  }

  lemma NewApart(s: State)
    requires Divided(s.b.live, s.w, s.pending, s.leaked) && s.w.initialPageCnt >= 2
    ensures var p := s.w.meta.numPages;
      && 2 <= p && p !in s.b.live
      && Divided(s.b.live + {p}, s.w.(allocs := s.w.allocs + [p], meta := s.w.meta.(numPages := p + 1)), s.pending,
                 s.leaked)
  {
    var p := s.w.meta.numPages;
    DividedApart(s.b.live, s.w, s.pending, s.leaked, p);
    SetPlus(s.b.live, p);
    hide Ids;
    assert Span(p + 1) == Span(p) + multiset{p};
  }

  lemma AllocateNewKeeps(s: State, gate: nat, junk: Page)
    requires Inv(s) && s.phase == Building && s.w.reusable == []
    requires !(s.pending != [] && s.pending[0].freedAt <= gate)
    ensures Inv(AllocateStep(s, gate, junk))
    ensures NextPage(s, gate) !in s.b.live && NextPage(s, gate) >= 2
  {
    hide Inv, Isolated, Committed, Ordered, Working, Slots, Divided, Owned, Shared;
    BuildingFacts(s);
    var p := s.w.meta.numPages;
    var t := AllocateStep(s, gate, junk);
    AtLeastTwo(s);
    NewApart(s);
    IsolatedWrite(s, p, junk);
    SameIsolated(s.(cache := s.cache[p := junk]), t);
    CommittedDirty(s, p, junk);
    SameCommitted(s.(cache := s.cache[p := junk], dirty := s.dirty + {p}), t);
    WorkingHandedOut(s, t, p, junk);
    SameSlots(s, t);
    Rebuilt(t);
  }

  lemma AtLeastTwo(s: State)
    requires Inv(s) && s.phase == Building
    ensures 2 <= s.w.initialPageCnt <= s.w.meta.numPages
  {
    hide Isolated, Ordered, Slots, Owned, Closed, Durable, Span, Ids;
  }

  /** AllocatePage keeps the invariant and never hands out a page in use. */
  lemma AllocateKeeps(s: State, gate: nat, junk: Page)
    requires Inv(s) && s.phase == Building && IsGate(s, gate)
    ensures Inv(AllocateStep(s, gate, junk))
    ensures NextPage(s, gate) !in s.b.live && NextPage(s, gate) >= 2
  {
    hide Inv, IsGate, AllocateStep, NextPage;
    if s.w.reusable != [] {
      AllocateReusedKeeps(s, gate, junk);
    } else if s.pending != [] && s.pending[0].freedAt <= gate {
      AllocatePoppedKeeps(s, gate, junk);
    } else {
      AllocateNewKeeps(s, gate, junk);
    }
  }

  lemma {:induction false} WithoutKeeps(ids: seq<PageId>, id: PageId, x: PageId)
    ensures x in Without(ids, id) ==> x in ids
    ensures x in ids && x != id ==> x in Without(ids, id)
  {
    if ids != [] && ids[0] != id { WithoutKeeps(ids[1..], id, x); }
  }

  lemma FreeDivided(s: State, p: PageId)
    requires Divided(s.b.live, s.w, s.pending, s.leaked) && p in s.b.live
    ensures Divided(FreeStep(s, p).b.live, FreeStep(s, p).w, s.pending, s.leaked)
  {
    hide Without, Ids, Span;
    SetMinus(s.b.live, p);
    SeqPlus(s.w.reusable, p);
    SeqPlus(s.w.freed, p);
  }

  lemma FreeOwned(s: State, p: PageId)
    requires Owned(s.w, s.b, s.dirty)
    ensures Owned(FreeStep(s, p).w, FreeStep(s, p).b, s.dirty)
  {
    var t := FreeStep(s, p);
    forall x | x in t.w.allocs ensures x in s.w.allocs { WithoutKeeps(s.w.allocs, p, x); }
    forall x | x in t.b.mine || x in t.b.popped ensures x in t.w.allocs { WithoutKeeps(s.w.allocs, p, x); }
    hide Without;
  }

  lemma FreeWorking(s: State, p: PageId)
    requires Working(s) && s.phase == Building && p in s.b.live
    ensures Working(FreeStep(s, p))
  {
    hide Divided, Owned, Without;
    FreeDivided(s, p);
    FreeOwned(s, p);
  }

  lemma FreeKeeps(s: State, p: PageId)
    requires Inv(s) && s.phase == Building && p in s.b.live
    ensures Inv(FreeStep(s, p))
  {
    hide Inv, Isolated, Committed, Ordered, Working, Slots, Divided, Owned, Shared;
    BuildingFacts(s);
    var t := FreeStep(s, p);
    FreeWorking(s, p);
    SameIsolated(s, t);
    SameCommitted(s, t);
    SameSlots(s, t);
    Rebuilt(t);
  }

  lemma WriteKeeps(s: State, p: PageId, pg: Page)
    requires Inv(s) && s.phase == Building && p in s.b.mine
    ensures Inv(WriteStep(s, p, pg))
  {
    BuildingFacts(s);
    var t := WriteStep(s, p, pg);
    assert Working(t) by { hide Isolated, Committed, Ordered, Slots, Divided, Shared; }
    hide Inv, Isolated, Committed, Ordered, Working, Slots, Divided, Shared;
    IsolatedWrite(s, p, pg);
    CommittedDirty(s, p, pg);
    SameIsolated(s.(cache := s.cache[p := pg]), t);
    SameCommitted(s.(cache := s.cache[p := pg], dirty := s.dirty + {p}), t);
    SameSlots(s, t);
    Rebuilt(t);
  }

  lemma SetRootWorking(s: State, root: PageId)
    requires Working(s) && s.phase == Building
    ensures Working(s.(w := s.w.(meta := s.w.meta.(catalogRoot := root))))
  {
    hide Span, Ids;
  }

  lemma SetRootKeeps(s: State, root: PageId)
    requires Inv(s) && s.phase == Building
    ensures Inv(s.(w := s.w.(meta := s.w.meta.(catalogRoot := root))))
  {
    hide Inv, Isolated, Committed, Ordered, Working, Slots, Divided, Shared, Owned;
    BuildingFacts(s);
    var t := s.(w := s.w.(meta := s.w.meta.(catalogRoot := root)));
    SetRootWorking(s, root);
    SameIsolated(s, t);
    SameCommitted(s, t);
    SameSlots(s, t);
    Rebuilt(t);
  }

  // ---- pages reach the file ----

  lemma CommittedWriteBack(s: State, p: PageId)
    requires Committed(s) && p in s.dirty
    ensures Committed(WriteBackStep(s, p))
  {
    hide Closed, Shared;
  }

  lemma SlotsDisk(s: State, t: State)
    requires Slots(s) && t.current == s.current && t.currentSlot == s.currentSlot && t.phase == s.phase && t.w == s.w
    requires t.disk.slot0 == s.disk.slot0 && t.disk.slot1 == s.disk.slot1 && t.disk.prior == s.disk.prior
    ensures Slots(t)
  {
    hide Older;
  }

  lemma WriteBackKeeps(s: State, p: PageId)
    requires Inv(s) && p in s.dirty
    ensures Inv(WriteBackStep(s, p))
  {
    var t := WriteBackStep(s, p);
    CommittedWriteBack(s, p);
    assert Working(t) by { hide Isolated, Committed, Ordered, Slots, Divided, Shared, Lists; }
    assert Progress(t) by { hide Isolated, Committed, Ordered, Slots, Working, Lists; }
    hide Committed, Ordered, Working, Slots, Isolated, Progress;
    SameIsolated(s, t);
    SlotsDisk(s, t);
  }

  lemma SealWorking(s: State, chain: seq<PageId>)
    requires Working(s) && s.phase == Building
    ensures Working(SealStep(s, chain))
  {
    hide Span, Ids;
  }

  lemma SealProgress(s: State, chain: seq<PageId>)
    requires Enabled(s, Seal(chain)) && Working(s)
    ensures Progress(SealStep(s, chain))
  {
    hide Lists, Divided;
  }

  lemma SealKeeps(s: State, chain: seq<PageId>)
    requires Inv(s) && Enabled(s, Seal(chain))
    ensures Inv(SealStep(s, chain))
  {
    hide Inv, Committed, Ordered, Working, Slots, Isolated, Progress, Lists, Divided, Shared, Owned;
    BuildingFacts(s);
    var t := SealStep(s, chain);
    SealWorking(s, chain);
    SealProgress(s, chain);
    SameIsolated(s, t);
    SealCommitted(s, t);
    SameSlots(s, t);
    Whole(t);
  }

  lemma SealCommitted(s: State, t: State)
    requires Committed(s)
    requires t.current == s.current && t.versions == s.versions && t.dirty == s.dirty && t.disk == s.disk
    requires t.pending == s.pending && t.b.popped == s.b.popped && t.leaked == s.leaked
    requires t.phase != Idle && t.cache.Keys == s.cache.Keys
    ensures Committed(t)
  {
    hide Closed, Durable, Shared;
  }

  lemma Whole(t: State)
    requires Isolated(t) && Committed(t) && Ordered(t.pending, t.current.txnID) && Working(t) && Slots(t) && Progress(t)
    ensures Inv(t)
  {
    hide Isolated, Committed, Ordered, Working, Slots, Progress;
  }

  lemma Parts(s: State)
    requires Inv(s)
    ensures Isolated(s) && Committed(s) && Ordered(s.pending, s.current.txnID) && Working(s) && Slots(s) && Progress(s)
    ensures s.dirty <= s.cache.Keys
  {
    hide Isolated, Ordered, Working, Slots, Progress, Closed, Durable, Shared;
  }

  lemma FlushCommitted(s: State)
    requires Committed(s) && s.phase == Sealed
    ensures Committed(FlushStep(s))
  {
    hide Closed, Shared;
  }

  lemma FlushWorking(s: State)
    requires Working(s) && s.phase == Sealed && s.dirty <= s.cache.Keys
    ensures Working(FlushStep(s)) && FlushStep(s).dirty !! s.b.live
  {
    hide Divided;
  }

  lemma FlushProgress(s: State)
    requires Progress(s) && Working(s) && s.phase == Sealed && s.dirty <= s.cache.Keys
    requires FlushStep(s).dirty !! s.b.live
    ensures Progress(FlushStep(s))
  {
    hide Lists, Working;
  }

  lemma FlushKeeps(s: State)
    requires Inv(s) && s.phase == Sealed
    ensures Inv(FlushStep(s))
  {
    hide Inv, Committed, Ordered, Working, Slots, Isolated, Progress;
    Parts(s);
    var t := FlushStep(s);
    FlushCommitted(s);
    FlushWorking(s);
    FlushProgress(s);
    SameIsolated(s, t);
    FlushSlots(s);
    Whole(t);
  }

  lemma FlushSlots(s: State)
    requires Slots(s) && s.phase == Sealed && s.dirty <= s.cache.Keys
    ensures Slots(FlushStep(s))
  {
    hide Older;
  }

  lemma SyncCommitted(s: State)
    requires Committed(s) && s.phase in {Flushed, MetaWritten}
    ensures Committed(SyncStep(s))
  {
    hide Closed, Shared;
  }

  lemma SyncWorking(s: State)
    requires Working(s) && Progress(s) && s.phase in {Flushed, MetaWritten}
    ensures Working(SyncStep(s)) && Progress(SyncStep(s))
  {
    hide Divided, Owned, Lists;
  }

  lemma SyncSlots(s: State)
    requires Slots(s) && s.phase in {Flushed, MetaWritten}
    ensures Slots(SyncStep(s))
  {
    hide Older;
  }

  lemma SyncKeeps(s: State)
    requires Inv(s) && s.phase in {Flushed, MetaWritten}
    ensures Inv(SyncStep(s))
  {
    hide Inv, Committed, Ordered, Working, Slots, Isolated, Progress;
    Parts(s);
    SyncCommitted(s);
    SyncWorking(s);
    SyncSlots(s);
    SameIsolated(s, SyncStep(s));
    Whole(SyncStep(s));
  }

  lemma WriteMetaCommitted(s: State)
    requires Committed(s) && s.phase == Synced
    ensures Committed(WriteMetaStep(s))
  {
    hide Closed, Shared;
  }

  lemma WriteMetaWorking(s: State)
    requires Working(s) && Progress(s) && s.phase == Synced
    ensures Working(WriteMetaStep(s)) && Progress(WriteMetaStep(s))
  {
    hide Span, Ids, Lists;
  }

  lemma WriteMetaSlots(s: State)
    requires Slots(s) && s.phase == Synced
    ensures Slots(WriteMetaStep(s))
  {
    hide Older;
  }

  lemma WriteMetaKeeps(s: State)
    requires Inv(s) && s.phase == Synced
    ensures Inv(WriteMetaStep(s))
  {
    hide Inv, Committed, Ordered, Working, Slots, Isolated, Progress;
    Parts(s);
    WriteMetaCommitted(s);
    WriteMetaWorking(s);
    WriteMetaSlots(s);
    SameIsolated(s, WriteMetaStep(s));
    Whole(WriteMetaStep(s));
  }

  // ---- the commit is published, or abandoned ----

  lemma IdsAppend(a: seq<FreeEntry>, ids: seq<PageId>, at: nat)
    ensures Ids(a + Entries(ids, at)) == Ids(a) + ids
  {
  }

  lemma NewVersionClosed(s: State)
    requires Divided(s.b.live, s.w, s.pending, s.leaked) && 2 <= s.w.initialPageCnt
    requires s.b.live <= s.cache.Keys && (forall p :: p in s.b.chain ==> p in s.b.live)
    requires Lists(s.cache, s.b.chain, Ids(s.pending) + s.w.freed + s.w.reusable)
    requires s.w.meta.freelistRoot == Head(s.b.chain)
    ensures Closed(NewVersion(s)) && NewVersion(s).image.Keys == s.b.live
  {
    var ver := NewVersion(s);
    assert ver.image.Keys == s.b.live;
    assert Lists(ver.image, ver.chain, ver.persisted) by { ListsKept(s.cache, ver.image, s.b.chain, ver.persisted); }
    hide Lists, Span, Ids;
    assert multiset(ver.persisted) == multiset(Ids(s.pending)) + multiset(s.w.freed) + multiset(s.w.reusable);
  }

  /** The version a commit publishes describes itself and is already on disk. */
  lemma NewVersionOk(s: State)
    requires Working(s) && Progress(s) && s.phase in {MetaWritten, MetaSynced} && 2 <= s.current.numPages
    ensures Closed(NewVersion(s)) && Durable(NewVersion(s), s.dirty, s.disk)
    ensures NewVersion(s).image.Keys == s.b.live
  {
    hide Lists, Divided, Owned, Ids, Closed;
    NewVersionClosed(s);
  }

  ghost function NewPending(s: State): seq<FreeEntry> {
    s.pending + Entries(s.w.freed, s.w.meta.txnID) + Entries(s.w.reusable, s.w.meta.txnID)
  }

  lemma NewPendingIds(s: State)
    ensures Ids(NewPending(s)) == Ids(s.pending) + s.w.freed + s.w.reusable
  {
    IdsAppend(s.pending, s.w.freed, s.w.meta.txnID);
    IdsAppend(s.pending + Entries(s.w.freed, s.w.meta.txnID), s.w.reusable, s.w.meta.txnID);
  }

  lemma PublishCommitted(s: State)
    requires Working(s) && Progress(s) && Committed(s) && s.phase == MetaSynced
    ensures Committed(PublishStep(s))
  {
    hide Closed, Durable, Progress, Ids, NewVersion, Working, Lists, Span;
    CommittedSize(s);
    NewVersionOk(s);
    PublishShared(s);
    hide Shared;
    VersionMeta(s);
  }

  lemma CommittedSize(s: State)
    requires Committed(s)
    ensures 2 <= s.current.numPages && s.dirty <= s.cache.Keys
  {
    hide Closed, Durable, Span, Ids;
  }

  lemma VersionMeta(s: State)
    ensures NewVersion(s).meta == s.w.meta && NewVersion(s).leaked == s.leaked && NewVersion(s).chain == s.b.chain
    ensures NewVersion(s).persisted == Ids(s.pending) + s.w.freed + s.w.reusable
    ensures PublishStep(s).pending == NewPending(s)
  {
  }

  lemma PublishShared(s: State)
    requires Working(s) && s.phase == MetaSynced && 2 <= s.current.numPages
    ensures Shared(s.b.live, NewPending(s), {}, s.leaked, s.w.meta.numPages)
  {
    NewPendingIds(s);
    hide Span, Owned, NewPending;
    assert multiset(Ids(NewPending(s))) == multiset(Ids(s.pending)) + multiset(s.w.freed) + multiset(s.w.reusable);
  }

  lemma PublishOrdered(s: State)
    requires Working(s) && Ordered(s.pending, s.current.txnID) && s.phase == MetaSynced
    ensures Ordered(NewPending(s), s.w.meta.txnID)
  {
    hide Divided, Owned;
  }

  /** What is freed by this commit is gated behind every version readers can see today. */
  lemma VisiblePublish(v: nat, ver: Version, s: State)
    requires Visible(v, ver, s.cache, s.pending, s.b.popped, s.current.numPages) && v < s.w.meta.txnID
    requires s.current.numPages <= s.w.meta.numPages
    ensures Visible(v, ver, s.cache, NewPending(s), {}, s.w.meta.numPages)
  {
    hide Keeps;
  }

  lemma VisibleNew(s: State)
    requires Working(s) && s.phase == MetaSynced
    ensures Visible(s.w.meta.txnID, NewVersion(s), s.cache, NewPending(s), {}, s.w.meta.numPages)
  {
    var ver := NewVersion(s);
    NewPendingIds(s);
    forall p | p in ver.image ensures p < s.w.meta.numPages && p !in Ids(NewPending(s)) {
      DividedApart(s.b.live, s.w, s.pending, s.leaked, p);
    }
    hide Divided, Owned, Ids;
    forall i | 0 <= i < |NewPending(s)| ensures NewPending(s)[i].page !in ver.image {
      PendingIn(NewPending(s), i);
    }
  }

  lemma PendingIn(pending: seq<FreeEntry>, i: nat)
    requires i < |pending|
    ensures pending[i].page in Ids(pending)
  {
    assert Ids(pending)[i] == pending[i].page;
  }

  lemma PublishIsolated(s: State)
    requires Isolated(s) && Working(s) && s.phase == MetaSynced
    ensures Isolated(PublishStep(s))
  {
    var t := PublishStep(s);
    VisibleNew(s);
    assert s.current.numPages <= s.w.meta.numPages
           && s.w.meta.txnID == s.current.txnID + 1 by { hide Owned, Span, Ids; }
    hide Visible, NewVersion, Working, Ids;
    assert t.pending == NewPending(s);
    forall v | v in s.readers ensures Visible(v, s.versions[v], s.cache, NewPending(s), {}, s.w.meta.numPages) {
      VisiblePublish(v, s.versions[v], s);
    }
  }

  lemma PublishSlots(s: State)
    requires Slots(s) && Working(s) && s.phase == MetaSynced
    ensures Slots(PublishStep(s))
  {
    hide Divided, Owned;
  }

  lemma PublishKeeps(s: State)
    requires Inv(s) && s.phase == MetaSynced
    ensures Inv(PublishStep(s))
  {
    hide Inv, Committed, Ordered, Working, Slots, Isolated, Progress;
    Parts(s);
    PublishCommitted(s);
    PublishOrdered(s);
    PublishIsolated(s);
    PublishSlots(s);
    IdleWorking(PublishStep(s));
    assert PublishStep(s).pending == NewPending(s);
    Rebuilt(PublishStep(s));
  }

  lemma IdleWorking(t: State)
    requires t.phase == Idle
    ensures Working(t)
  {
  }

  lemma AbortShared(used: set<PageId>, pending: seq<FreeEntry>, popped: set<PageId>, leaked: set<PageId>, n: nat)
    requires Shared(used, pending, popped, leaked, n)
    ensures Shared(used, pending, {}, leaked + popped, n)
  {
    forall p | p in popped ensures p !in leaked { SharedApart(used, pending, popped, leaked, n, p); }
    hide Ids, Span;
    assert multiset(leaked + popped) == multiset(leaked) + multiset(popped);
  }

  lemma AbortCommitted(s: State, cache: Store)
    requires Committed(s) && Enabled(s, Abort(cache))
    ensures Committed(AbortStep(s, cache))
  {
    var ver := s.versions[s.current.txnID];
    AbortShared(ver.image.Keys, s.pending, s.b.popped, s.leaked, s.current.numPages);
    hide Closed, Shared;
  }

  lemma AbortIsolated(s: State, cache: Store)
    requires Isolated(s) && Working(s) && Enabled(s, Abort(cache))
    ensures Isolated(AbortStep(s, cache))
  {
    hide Divided;
    forall v | v == s.current.txnID || v in s.readers
      ensures Visible(v, s.versions[v], cache, s.pending, {}, s.current.numPages)
    {
      assert Visible(v, s.versions[v], s.cache, s.pending, s.b.popped, s.current.numPages);
    }
    hide Visible;
  }

  lemma AbortKeeps(s: State, cache: Store)
    requires Inv(s) && Enabled(s, Abort(cache))
    ensures Inv(AbortStep(s, cache))
  {
    hide Inv, Committed, Ordered, Working, Slots, Isolated, Divided, Owned, Shared;
    BuildingFacts(s);
    var t := AbortStep(s, cache);
    AbortCommitted(s, cache);
    AbortIsolated(s, cache);
    IdleWorking(t);
    SameSlots(s, t);
    Rebuilt(t);
  }

  // ---- crash and reopen ----

  /** The version named by the meta that Open finds is whole: every page of it has its contents. */
  lemma CrashVersion(s: State, file: Store, slot: Slot, m: Meta)
    requires Inv(s) && Enabled(s, Crash(file, slot))
    requires m == s.current || (s.phase in {MetaWritten, MetaSynced} && m == s.w.meta)
    ensures var ver := VersionOf(s, m);
      ver.meta == m && Closed(ver) && Keeps(file, ver.image)
  {
    Parts(s);
    var ver := VersionOf(s, m);
    if s.phase in {MetaWritten, MetaSynced} && m == s.w.meta {
      assert 2 <= s.current.numPages by { hide Closed, Durable, Working, Progress, Span, Ids, Isolated; }
      NewVersionOk(s);
      hide Closed, Isolated, Committed, Slots, Ordered, Working;
      KeepsAfterCrash(s, file, slot, ver);
    } else {
      hide Closed, Isolated, Slots, Ordered, Working, Shared, Progress;
      assert m == s.current;
      KeepsAfterCrash(s, file, slot, ver);
    }
  }

  lemma KeepsAfterCrash(s: State, file: Store, slot: Slot, ver: Version)
    requires Durable(ver, s.dirty, s.disk) && Enabled(s, Crash(file, slot))
    ensures Keeps(file, ver.image)
  {
  }

  /** Open finds the last committed meta or, once the new meta has begun to be written, the new one. */
  lemma CrashMeta(s: State, slot: Slot)
    requires Slots(s) && Working(s)
    requires s.phase == MetaWritten ==> slot in {Invalid, s.disk.prior, Good(s.w.meta)}
    ensures var d := CrashedSlots(s, slot);
      var (found, i) := LoadMeta(d.slot0, d.slot1);
      && found.Good? && (found.meta == s.current || (s.phase in {MetaWritten, MetaSynced} && found.meta == s.w.meta))
      && SlotsOk(d, found.meta, i)
      && (s.phase == MetaSynced ==> found.meta == s.w.meta)
      && (s.phase !in {MetaWritten, MetaSynced} ==> found.meta == s.current)
  {
    hide Divided, Owned;
    NewerByOne(s.current.txnID);
    if s.current.txnID > 0 { NewerByOne(s.current.txnID - 1); }
  }

  /** The 64-bit comparison is right for neighbouring transaction ids, even across wrap-around. */
  lemma NewerByOne(n: nat)
    ensures IsNewer(n + 1, n) && !IsNewer(n, n + 1) && !IsNewer(n, n)
  {
  }

  lemma ReopenedOk(m: Meta, i: nat, d: Disk, file: Store, ver: Version)
    requires ver.meta == m && Closed(ver) && Keeps(file, ver.image) && SlotsOk(d, m, i)
    ensures Inv(State(file, {}, Disk(file, {}, d.slot0, d.slot1, Invalid), m, i, Entries(ver.persisted, 0), map[],
                      Idle, Writer(m, m.numPages, [], [], []), Books({}, {}, {}, []), ver.leaked, map[m.txnID := ver]))
  {
    hide Older, Lists;
    assert Ids(Entries(ver.persisted, 0)) == ver.persisted;
    assert Shared(ver.image.Keys, Entries(ver.persisted, 0), {}, ver.leaked, m.numPages);
    forall p | p in ver.image ensures p < m.numPages && p !in ver.persisted {
      SharedApart(ver.image.Keys, Entries(ver.persisted, 0), {}, ver.leaked, m.numPages, p);
    }
    hide Span, Ids;
  }

  lemma CrashKeeps(s: State, file: Store, slot: Slot)
    requires Inv(s) && Enabled(s, Crash(file, slot))
    ensures Inv(CrashStep(s, file, slot))
  {
    hide Inv, Committed, Ordered, Working, Slots, Isolated, Progress, Closed, SlotsOk, VersionOf, LoadMeta, Keeps;
    Parts(s);
    CrashMeta(s, slot);
    var d := CrashedSlots(s, slot);
    var (found, i) := LoadMeta(d.slot0, d.slot1);
    CrashVersion(s, file, slot, found.meta);
    ReopenedOk(found.meta, i, d, file, VersionOf(s, found.meta));
  }
}
