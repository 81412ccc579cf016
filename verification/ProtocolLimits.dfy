/** A run in which an abort loses a page: the claim that pages are never lost is false of the code. */
module ProtocolLimits {
  import opened Pages
  import opened Protocol
  import opened ProtocolRuns

  lemma {:induction false} ReachesOn(s: State, es: seq<Event>, t: State, e: Event)
    requires Reaches(s, es, t) && Enabled(t, e)
    ensures Reaches(s, es + [e], Apply(t, e))
    decreases |es|
  {
    hide Enabled, Apply;
    if es == [] {
      assert (es + [e])[1..] == [];
    } else {
      ReachesOn(Apply(s, es[0]), es[1..], t, e);
      assert (es + [e])[1..] == es[1..] + [e];
    }
  }

  ghost predicate Reached(s: State) { exists es: seq<Event> :: Reaches(Init(), es, s) }

  lemma Onwards(s: State, e: Event)
    requires Reached(s) && Enabled(s, e)
    ensures Reached(Apply(s, e))
  {
    var es :| Reaches(Init(), es, s);
    hide Enabled, Apply, Init;
    ReachesOn(Init(), es, s, e);
  }

  /** The rest of a commit, from the sealed state on. */
  lemma Committing(s: State) returns (t: State)
    requires Reached(s) && s.phase == Sealed && s.readers == map[]
    ensures Reached(t) && t.phase == Idle && t.readers == map[] && t.leaked == s.leaked
    ensures t.current == s.w.meta.(txnID := s.w.meta.txnID + 1)
    ensures t.pending == s.pending + Entries(s.w.freed, t.current.txnID) + Entries(s.w.reusable, t.current.txnID)
    ensures InUse(t) == set p | p in s.cache && p in s.b.live
  {
    hide Written, Ids, NewVersion, Reached;
    Onwards(s, Event.Flush);
    var s1 := FlushStep(s);
    Onwards(s1, Event.Sync);
    var s2 := SyncStep(s1);
    Onwards(s2, Event.WriteMeta);
    var s3 := WriteMetaStep(s2);
    Onwards(s3, Event.Sync);
    var s4 := SyncStep(s3);
    Onwards(s4, Event.Publish);
    t := PublishStep(s4);
    NewImage(s4);
  }

  lemma NewImage(s: State)
    ensures NewVersion(s).image.Keys == set p | p in s.cache && p in s.b.live
  {
  }

  /** The parts of a state this run goes by. */
  ghost predicate Now(s: State, current: Meta, pending: seq<FreeEntry>, w: Writer, live: set<PageId>,
                      mine: set<PageId>) {
    && Reached(s) && s.phase == Building && s.readers == map[] && s.leaked == {}
    && s.current == current && s.pending == pending && s.w == w && s.b.live == live && s.b.mine == mine
  }

  lemma Begins(s: State) returns (t: State)
    requires Reached(s) && s.phase == Idle && s.readers == map[] && s.leaked == {}
    ensures Now(t, s.current, s.pending, Writer(s.current, s.current.numPages, [], [], []), InUse(s), {})
  {
    hide Reached, InUse;
    Onwards(s, Event.BeginWrite);
    t := BeginWriteStep(s);
  }

  /** With no readers, the gate is the current transaction. */
  lemma Allocates(s: State, current: Meta, pending: seq<FreeEntry>, w: Writer, live: set<PageId>, mine: set<PageId>)
    returns (t: State)
    requires Now(s, current, pending, w, live, mine) && w.reusable == []
    ensures var pops := pending != [] && pending[0].freedAt <= current.txnID;
      var p := if pops then pending[0].page else w.meta.numPages;
      && Now(t, current, if pops then pending[1..] else pending,
             Writer(if pops then w.meta else w.meta.(numPages := p + 1), w.initialPageCnt, w.allocs + [p], w.freed,
                    []), live + {p}, mine + {p})
      && p in t.cache
  {
    hide Reached;
    Onwards(s, Event.Allocate(current.txnID, Blank));
    t := AllocateStep(s, current.txnID, Blank);
  }

  lemma Seals(s: State, current: Meta, pending: seq<FreeEntry>, w: Writer, live: set<PageId>, mine: set<PageId>,
              chain: seq<PageId>) returns (t: State)
    requires Now(s, current, pending, w, live, mine) && (forall p :: p in chain ==> p in mine)
    requires Lists(s.cache, chain, Ids(pending) + w.freed + w.reusable)
    ensures Reached(t) && t.phase == Idle && t.readers == map[] && t.leaked == {}
    ensures t.current == w.meta.(txnID := w.meta.txnID + 1, freelistRoot := Head(chain))
    ensures t.pending == pending + Entries(w.freed, t.current.txnID) + Entries(w.reusable, t.current.txnID)
    ensures InUse(t) == set p | p in s.cache && p in live
  {
    hide Reached, Lists, Ids, Entries, InUse;
    Onwards(s, Event.Seal(chain));
    var s1 := SealStep(s, chain);
    t := Committing(s1);
  }

  /** The first transaction takes page 2 and commits. */
  lemma FirstCommit() returns (t: State)
    ensures Reached(t) && t.phase == Idle && t.readers == map[] && t.leaked == {} && t.pending == []
    ensures t.current.txnID == 1 && t.current.numPages == 3 && InUse(t) == {2}
  {
    var s0 := Init();
    assert Reaches(s0, [], s0);
    hide Reached, Now, InUse;
    assert InUse(s0) == {} by { NothingYet(); }
    var s1 := Begins(s0);
    var m := s0.current;
    var s2 := Allocates(s1, m, [], Writer(m, 2, [], [], []), {}, {});
    NoIds(s2.cache);
    t := Seals(s2, m, [], Writer(m.(numPages := 3), 2, [] + [2], [], []), {} + {2}, {} + {2}, []);
    assert Entries([], 1) == [];
  }

  lemma NothingYet()
    ensures InUse(Init()) == {}
  {
  }

  lemma NoIds(c: Store)
    ensures Ids([]) == [] && Lists(c, [], [])
  {
  }

  /** The second frees it again, and commits with page 3 as the chain that names it. */
  lemma SecondCommit(s: State) returns (t: State)
    requires Reached(s) && s.phase == Idle && s.readers == map[] && s.leaked == {} && s.pending == []
    requires s.current.txnID == 1 && s.current.numPages == 3 && InUse(s) == {2}
    ensures Reached(t) && t.phase == Idle && t.readers == map[] && t.leaked == {}
    ensures t.current.txnID == 2 && t.current.numPages == 4 && t.pending == [FreeEntry(2, 2)]
  {
    hide Reached, InUse, Now;
    var s1 := Begins(s);
    var m := s.current;
    var s2 := Frees(s1, m, Writer(m, 3, [], [], []));
    var s3 := Allocates(s2, m, [], Writer(m, 3, [], [2], []), {}, {});
    var w := Writer(m.(numPages := 4), 3, [] + [3], [2], []);
    var s4 := Writes(s3, m, w, {} + {3}, {} + {3});
    OnePage(s4.cache, 3, 2);
    NoIds(s4.cache);
    t := Seals(s4, m, [], w, {} + {3}, {} + {3}, [3]);
    assert Entries([2], 2) == [FreeEntry(2, 2)] && Entries([], 2) == [];
  }

  lemma Frees(s: State, current: Meta, w: Writer) returns (t: State)
    requires Now(s, current, [], w, {2}, {}) && w == Writer(current, 3, [], [], [])
    ensures Now(t, current, [], w.(freed := [2]), {}, {})
  {
    hide Reached;
    Onwards(s, Event.Free(2));
    t := FreeStep(s, 2);
  }

  lemma Writes(s: State, current: Meta, w: Writer, live: set<PageId>, mine: set<PageId>) returns (t: State)
    requires Now(s, current, [], w, live, mine) && 3 in mine
    ensures Now(t, current, [], w, live, mine) && 3 in t.cache && t.cache[3] == FreelistPage(0, [2])
  {
    hide Reached;
    Onwards(s, Event.Write(3, FreelistPage(0, [2])));
    t := WriteStep(s, 3, FreelistPage(0, [2]));
  }

  lemma OnePage(c: Store, p: PageId, id: PageId)
    requires p in c && p != 0 && c[p] == FreelistPage(0, [id])
    ensures Lists(c, [p], [id])
  {
    assert [p][1..] == [] && [id][..1] == [id] && [id][1..] == [];
  }

  /** A new database reaches a state in which nothing has leaked, and an abort loses a page: page 2, taken
      from the freelist, is in no version and on no list afterwards. */
  lemma AbortCanLeak()
    ensures exists es: seq<Event>, s: State ::
              Reaches(Init(), es, s) && s.leaked == {} && Enabled(s, Event.Abort(s.cache))
                  && !Covered(AbortStep(s, s.cache))
  {
    hide Inv, Reaches, Init, Covered, AbortStep, Enabled;
    var s := ThirdTakes();
    CanAbort(s);
    var es :| Reaches(Init(), es, s);
    RunFromInit(es, s);
    AbortLeaks(s, s.cache);
  }

  /** The third transaction takes page 2 from the freelist. */
  lemma ThirdTakes() returns (s: State)
    ensures Reached(s) && s.phase == Building && s.leaked == {} && 2 in s.w.allocs && s.w.initialPageCnt == 4
  {
    hide Reached, InUse;
    var a := FirstCommit();
    var b := SecondCommit(a);
    var s1 := Begins(b);
    s := Allocates(s1, b.current, b.pending, Writer(b.current, 4, [], [], []), InUse(b), {});
  }

  lemma CanAbort(s: State)
    requires s.phase == Building
    ensures Enabled(s, Event.Abort(s.cache))
  {
  }
}
