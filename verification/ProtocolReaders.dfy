/** Readers, counted by the events of a run: what the reader table says, and what a reader sees as long as it is
    open. */
module ProtocolReaders {
  import opened Pages
  import opened Protocol
  import opened ProtocolRuns

  /** How many readers of version v are open after an event, if n were before it: one more when a reader begins
      while v is current, one less when a reader of v ends, and none after a crash. */
  ghost function Counted(s: State, e: Event, v: nat, n: int): int {
    match e
    case BeginRead => if s.current.txnID == v then n + 1 else n
    case EndRead(u) => if u == v then n - 1 else n
    case Crash(_, _) => 0
    case _ => n
  }

  /** The same over a run. */
  ghost function OpenReaders(s: State, es: seq<Event>, v: nat, n: int): int
    decreases |es|
  {
    if es == [] || !Enabled(s, es[0]) then n
    else OpenReaders(Apply(s, es[0]), es[1..], v, Counted(s, es[0], v, n))
  }

  /** Some reader of v is open now and after every event of the run. */
  ghost predicate OpenThroughout(s: State, es: seq<Event>, v: nat, n: int)
    decreases |es|
  {
    n > 0 &&
    (es == [] || !Enabled(s, es[0]) || OpenThroughout(Apply(s, es[0]), es[1..], v, Counted(s, es[0], v, n)))
  }

  /** What the reader table says. */
  ghost function Registered(s: State, v: nat): nat { if v in s.readers then s.readers[v] else 0 }

  lemma ListedReader(s: State, v: nat)
    requires Inv(s)
    ensures v in s.readers <==> Registered(s, v) > 0
  {
    hide Committed, Ordered, Working, Progress, Slots, Visible;
  }

  /** The events that touch the reader table. */
  lemma ReaderEvents(s: State, e: Event)
    requires Enabled(s, e)
    ensures e.BeginRead? ==> Apply(s, e) == BeginReadStep(s)
    ensures e.EndRead? ==> Apply(s, e) == EndReadStep(s, e.v)
    ensures e.Crash? ==> Apply(s, e).readers == map[]
    ensures !e.BeginRead? && !e.EndRead? && !e.Crash? ==> Apply(s, e).readers == s.readers
  {
    if !e.Crash? { StepFrame(s, e); }
    hide Inv, IsGate, Lists, BeginReadStep, EndReadStep, CrashStep, BeginWriteStep, AllocateStep, WriteStep, FreeStep,
         WriteBackStep, SealStep, FlushStep, SyncStep, WriteMetaStep, PublishStep, AbortStep;
    if e.Crash? { NoReaders(s, e.file, e.slot); }
  }

  lemma NoReaders(s: State, file: Store, slot: Slot)
    ensures CrashStep(s, file, slot).readers == map[]
  {
  }

  lemma StepCounts(s: State, e: Event, v: nat)
    requires Inv(s) && Enabled(s, e)
    ensures Registered(Apply(s, e), v) == Counted(s, e, v, Registered(s, v))
  {
    hide Inv, Enabled, Apply;
    ListedReader(s, v);
    if e.EndRead? { EndListed(s, e); }
    ReaderEvents(s, e);
  }

  lemma EndListed(s: State, e: Event)
    requires Inv(s) && Enabled(s, e) && e.EndRead?
    ensures e.v in s.readers && s.readers[e.v] > 0
  {
    ListedReader(s, e.v);
    hide Inv;
  }

  lemma {:induction false} RunCounts(s: State, es: seq<Event>, t: State, v: nat)
    requires Inv(s) && Reaches(s, es, t)
    ensures Registered(t, v) == OpenReaders(s, es, v, Registered(s, v))
    decreases |es|
  {
    hide Inv, Enabled, Apply, Registered, Counted;
    if es != [] {
      StepCounts(s, es[0], v);
      StepKeeps(s, es[0]);
      RunCounts(Apply(s, es[0]), es[1..], t, v);
    }
  }

  /** The reader table counts the open readers. In every state of every run from a new database, it has for each
      version the number of readers that have begun less the number that have ended since the last crash, and no
      entry at all if that is 0. */
  lemma ReadersCounted(es: seq<Event>, t: State, v: nat)
    requires Reaches(Init(), es, t)
    ensures OpenReaders(Init(), es, v, 0) >= 0
    ensures v in t.readers <==> OpenReaders(Init(), es, v, 0) > 0
    ensures v in t.readers ==> t.readers[v] == OpenReaders(Init(), es, v, 0)
  {
    InitKeeps();
    RunFromInit(es, t);
    RunCounts(Init(), es, t, v);
    hide Inv, Reaches, OpenReaders;
    ListedReader(t, v);
  }

  lemma {:induction false} OpenStays(s: State, es: seq<Event>, t: State, v: nat)
    requires Inv(s) && Reaches(s, es, t) && OpenThroughout(s, es, v, Registered(s, v))
    ensures v in s.readers && StaysThrough(s, es, v)
    decreases |es|
  {
    hide Inv, Apply, Enabled, Counted, Registered;
    ListedReader(s, v);
    if es != [] {
      StepCounts(s, es[0], v);
      StepKeeps(s, es[0]);
      OpenStays(Apply(s, es[0]), es[1..], t, v);
      EventStays(s, es[0], v);
    }
  }

  lemma EventStays(s: State, e: Event, v: nat)
    requires Inv(s) && Enabled(s, e) && v in Apply(s, e).readers
    ensures Stays(s, e, v)
  {
    hide Inv, Enabled, Apply;
    if e.EndRead? { EndListed(s, e); }
    ReaderEvents(s, e);
  }

  /** Snapshot isolation. Take any state of any run from a new database, and any version of which more readers have
      begun than ended. Let anything happen after that: other readers come and go, the writer allocates, writes,
      frees, commits and aborts, pages are written back. As long as after every event more readers of the version
      have begun than ended, every page of it has the contents it was committed with. */
  lemma SnapshotIsolation(before: seq<Event>, s: State, es: seq<Event>, t: State, v: nat)
    requires Reaches(Init(), before, s) && Reaches(s, es, t)
    requires OpenThroughout(s, es, v, OpenReaders(Init(), before, v, 0))
    ensures v in s.versions && v in t.versions && t.versions[v] == s.versions[v]
    ensures Keeps(t.cache, s.versions[v].image)
  {
    RunFromInit(before, s);
    ReadersCounted(before, s, v);
    hide Inv, Reaches, OpenThroughout, OpenReaders, Keeps, StaysThrough;
    OpenStays(s, es, t, v);
    KeptForReader(s, es, t, v);
  }
}
