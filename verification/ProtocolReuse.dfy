/** Reuse: when the file grows, and what an abort leaves behind in the cache. */
module ProtocolReuse {
  import opened Pages
  import opened Protocol
  import opened ProtocolRuns

  /** Nothing can be reused: the transaction has freed no page of its own, and every page on the freelist was freed
      by a transaction that some open reader began before. */
  ghost predicate MustGrow(reusable: seq<PageId>, pending: seq<FreeEntry>, readers: map<nat, nat>) {
    && reusable == []
    && forall i :: 0 <= i < |pending| ==> exists v :: v in readers && v < pending[i].freedAt
  }

  /** The file grows, by one page, if and only if nothing can be reused. */
  lemma GrowsOnlyWhenItMust(s: State, gate: nat, junk: Page)
    requires Inv(s) && Enabled(s, Event.Allocate(gate, junk))
    ensures var t := AllocateStep(s, gate, junk);
      && t.w.meta.numPages == s.w.meta.numPages + (if MustGrow(s.w.reusable, s.pending, s.readers) then 1 else 0)
      && t.readers == s.readers
  {
    FreedBy(s);
    hide Inv;
    if s.pending != [] {
      if s.pending[0].freedAt <= gate {
        assert forall v :: v in s.readers ==> gate <= v;
      } else {
        forall i | 0 <= i < |s.pending| ensures exists v :: v in s.readers && v < s.pending[i].freedAt {
          assert gate in s.readers && gate < s.pending[i].freedAt;
        }
      }
    }
  }

  lemma FreedBy(s: State)
    requires Inv(s)
    ensures forall i :: 0 <= i < |s.pending| ==> s.pending[0].freedAt <= s.pending[i].freedAt <= s.current.txnID
  {
    hide Isolated, Committed, Progress, Slots, Working;
  }

  /** A page that the transaction took from the end of the file and gives back is the next one it gets. */
  lemma OwnPageNext(s: State, p: PageId, gate: nat)
    requires Inv(s) && Enabled(s, Event.Free(p)) && p >= s.current.numPages
    ensures NextPage(FreeStep(s, p), gate) == p
  {
    hide Isolated, Committed, Ordered, Progress, Slots, Divided, Owned;
  }

  /** Every page that came to be dirty during the transaction is one of its own. */
  ghost predicate OwnDirt(dirty: set<PageId>, s: State) {
    forall p :: p in s.dirty && p !in dirty ==> p in s.w.allocs || p in s.w.reusable
  }

  ghost predicate Within(e: Event) {
    e.BeginRead? || e.EndRead? || e.Allocate? || e.Write? || e.Free? || e.SetRoot? || e.WriteBack?
  }

  lemma {:induction false} WithoutKeeps(ids: seq<PageId>, id: PageId, p: PageId)
    requires p in ids && p != id
    ensures p in Without(ids, id)
  {
    if ids[0] != id && ids[0] != p {
      assert p in ids[1..];
      WithoutKeeps(ids[1..], id, p);
    }
  }

  lemma FreeOwn(dirty: set<PageId>, s: State, p: PageId)
    requires OwnDirt(dirty, s)
    ensures OwnDirt(dirty, FreeStep(s, p))
  {
    hide Without;
    var t := FreeStep(s, p);
    forall x | x in t.dirty && x !in dirty ensures x in t.w.allocs || x in t.w.reusable {
      if x != p && x in s.w.allocs { WithoutKeeps(s.w.allocs, p, x); }
    }
  }

  lemma AllocateOwn(dirty: set<PageId>, s: State, gate: nat, junk: Page)
    requires OwnDirt(dirty, s)
    ensures OwnDirt(dirty, AllocateStep(s, gate, junk))
  {
    var t := AllocateStep(s, gate, junk);
    forall x | x in t.dirty && x !in dirty ensures x in t.w.allocs || x in t.w.reusable {
      if x in s.w.reusable && x != NextPage(s, gate) {
        assert s.w.reusable == s.w.reusable[..|s.w.reusable| - 1] + [s.w.reusable[|s.w.reusable| - 1]];
      }
    }
  }

  lemma StepOwn(dirty: set<PageId>, s: State, e: Event)
    requires Inv(s) && s.phase == Building && Enabled(s, e) && Within(e) && OwnDirt(dirty, s)
    ensures Apply(s, e).phase == Building && OwnDirt(dirty, Apply(s, e))
  {
    if e.Write? { MineAllocated(s, e.p); }
    hide Inv, IsGate, Lists, Without, NextPage, Written, AllocateStep, FreeStep;
    match e
    case Allocate(gate, junk) =>
      AllocateOwn(dirty, s, gate, junk);
      AllocatePhase(s, gate, junk);
    case Free(p) =>
      FreeOwn(dirty, s, p);
      FreePhase(s, p);
    case _ =>
  }

  lemma AllocatePhase(s: State, gate: nat, junk: Page)
    ensures AllocateStep(s, gate, junk).phase == s.phase
  {
    hide NextPage;
  }

  lemma FreePhase(s: State, p: PageId)
    ensures FreeStep(s, p).phase == s.phase
  {
    hide Without;
  }

  lemma MineAllocated(s: State, p: PageId)
    requires Inv(s) && s.phase == Building && p in s.b.mine
    ensures p in s.w.allocs
  {
    hide Isolated, Committed, Ordered, Progress, Slots, Divided;
  }

  lemma {:induction false} RunOwn(dirty: set<PageId>, s: State, es: seq<Event>, t: State)
    requires Inv(s) && s.phase == Building && Reaches(s, es, t) && OwnDirt(dirty, s)
    requires forall i :: 0 <= i < |es| ==> Within(es[i])
    ensures Inv(t) && t.phase == Building && OwnDirt(dirty, t)
    decreases |es|
  {
    hide Inv, Enabled, Apply, OwnDirt;
    if es != [] {
      StepOwn(dirty, s, es[0]);
      StepKeeps(s, es[0]);
      RunOwn(dirty, Apply(s, es[0]), es[1..], t);
    }
  }

  /** An aborted transaction leaves nothing to be written: whatever it did, no page is dirty after its abort that was
      not dirty before it began. */
  lemma AbortLeavesNoneDirty(s: State, es: seq<Event>, t: State, cache: Store)
    requires Inv(s) && s.phase == Idle && Reaches(BeginWriteStep(s), es, t) && Enabled(t, Event.Abort(cache))
    requires forall i :: 0 <= i < |es| ==> Within(es[i])
    ensures AbortStep(t, cache).dirty <= s.dirty
  {
    StepKeeps(s, Event.BeginWrite);
    RunOwn(s.dirty, BeginWriteStep(s), es, t);
    hide Inv, Reaches;
  }

  /** A commit writes no page that is not the transaction's own, and of those it writes what the cache has. */
  lemma FlushesItsOwn(s: State, p: PageId)
    requires Inv(s) && s.phase == Sealed
    ensures var file := FlushStep(s).disk.file;
      && (p in file <==> p in s.disk.file || (p in s.w.allocs && p in s.dirty))
      && (p in file ==>
          file[p] == if p in s.w.allocs && p in s.dirty && p in s.cache then s.cache[p] else s.disk.file[p])
  {
    hide Isolated, Ordered, Progress, Slots, Working, Closed, Durable, Shared;
  }
}
