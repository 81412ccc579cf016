/** The page lifecycle as a state machine: one writer, snapshot readers, a gated freelist, two meta
    pages, a buffer cache that may write dirty pages back at any time, and crashes. */
module Protocol {
  import opened Pages

  datatype Meta = Meta(txnID: nat, catalogRoot: PageId, freelistRoot: PageId, numPages: nat)

  /** A meta page as decodeMeta sees it: a torn page fails its checksum. */
  datatype Slot = Invalid | Good(meta: Meta)

  datatype FreeEntry = FreeEntry(page: PageId, freedAt: nat)

  /** How far the write transaction has come. */
  datatype Phase = Idle | Building | Sealed | Flushed | Synced | MetaWritten | MetaSynced

  /** The write transaction's own fields. */
  datatype Writer = Writer(meta: Meta, initialPageCnt: nat, allocs: seq<PageId>, freed: seq<PageId>,
                           reusable: seq<PageId>)

  /** A committed version: its meta, its pages with their contents (the freelist chain included), the
      chain and what it lists, and the pages no list or tree names any more. */
  datatype Version = Version(meta: Meta, image: Store, chain: seq<PageId>, persisted: seq<PageId>, leaked: set<PageId>)

  /** Bookkeeping for the proof: pages the working version uses, those this transaction may write,
      those it took from the freelist, and the chain it sealed. */
  datatype Books = Books(live: set<PageId>, mine: set<PageId>, popped: set<PageId>, chain: seq<PageId>)

  /** The file: last written contents, the pages written since the last sync, and the meta slots. */
  datatype Disk = Disk(file: Store, unsynced: set<PageId>, slot0: Slot, slot1: Slot, prior: Slot)

  datatype State = State(
    cache: Store, dirty: set<PageId>, disk: Disk,
    current: Meta, currentSlot: nat, pending: seq<FreeEntry>, readers: map<nat, nat>,
    phase: Phase, w: Writer, b: Books, leaked: set<PageId>, versions: map<nat, Version>)

  function Ids(pending: seq<FreeEntry>): (ids: seq<PageId>)
    ensures |ids| == |pending| && forall i :: 0 <= i < |ids| ==> ids[i] == pending[i].page
  {
    seq(|pending|, i requires 0 <= i < |pending| => pending[i].page)
  }

  /** Data pages of a file of n pages; pages 0 and 1 hold the metas. */
  ghost function Span(n: nat): multiset<PageId> {
    if n <= 2 then multiset{} else Span(n - 1) + multiset{n - 1}
  }

  // ---- the transitions ----

  datatype Event =
    | BeginRead
    | EndRead(v: nat)
    | BeginWrite
    | Allocate(gate: nat, junk: Page)
    | Write(p: PageId, pg: Page)
    | Free(p: PageId)
    | SetRoot(root: PageId)
    | WriteBack(p: PageId)
    | Seal(chain: seq<PageId>)
    | Flush
    | Sync
    | WriteMeta
    | Publish
    | Abort(cache: Store)
    | Crash(file: Store, slot: Slot)

  /** minReaderTxn: the oldest version a reader may still see. */
  ghost predicate IsGate(s: State, gate: nat) {
    && gate <= s.current.txnID
    && (forall v :: v in s.readers ==> gate <= v)
    && (gate == s.current.txnID || gate in s.readers)
  }

  function BeginReadStep(s: State): State {
    var v := s.current.txnID;
    s.(readers := s.readers[v := (if v in s.readers then s.readers[v] else 0) + 1])
  }

  function EndReadStep(s: State, v: nat): State
    requires v in s.readers
  {
    if s.readers[v] <= 1 then s.(readers := s.readers - {v}) else s.(readers := s.readers[v := s.readers[v] - 1])
  }

  /** The pages of the committed version. */
  ghost function InUse(s: State): set<PageId> {
    if s.current.txnID in s.versions then s.versions[s.current.txnID].image.Keys else {}
  }

  ghost function BeginWriteStep(s: State): State {
    s.(phase := Building, w := Writer(s.current, s.current.numPages, [], [], []), b := Books(InUse(s), {}, {}, []))
  }

  /** The page AllocatePage hands out: one freed by this transaction itself, else the oldest freelist
      entry if no reader can see it, else a new page at the end of the file. */
  function NextPage(s: State, gate: nat): PageId {
    if s.w.reusable != [] then s.w.reusable[|s.w.reusable| - 1]
    else if s.pending != [] && s.pending[0].freedAt <= gate then s.pending[0].page
    else s.w.meta.numPages
  }

  /** The allocation is served by a page this transaction freed, or by the freelist. */
  predicate Again(s: State) { s.w.reusable != [] }

  predicate Pops(s: State, gate: nat) { s.w.reusable == [] && s.pending != [] && s.pending[0].freedAt <= gate }

  function AllocateStep(s: State, gate: nat, junk: Page): State {
    var p := NextPage(s, gate);
    s.(cache := s.cache[p := junk], dirty := s.dirty + {p},
       pending := if Pops(s, gate) then s.pending[1..] else s.pending,
       w := Writer(if Again(s) || Pops(s, gate) then s.w.meta else s.w.meta.(numPages := p + 1),
                   s.w.initialPageCnt, s.w.allocs + [p], s.w.freed,
                   if Again(s) then s.w.reusable[..|s.w.reusable| - 1] else s.w.reusable),
       b := Books(s.b.live + {p}, s.b.mine + {p}, if Pops(s, gate) then s.b.popped + {p} else s.b.popped, s.b.chain))
  }

  /** The list without the first occurrence of id. */
  function Without(ids: seq<PageId>, id: PageId): seq<PageId> {
    if ids == [] then [] else if ids[0] == id then ids[1..] else [ids[0]] + Without(ids[1..], id)
  }

  function FreeStep(s: State, p: PageId): State {
    var b1 := s.b.(live := s.b.live - {p}, mine := s.b.mine - {p});
    if p >= s.w.initialPageCnt then
      s.(b := b1, w := s.w.(allocs := Without(s.w.allocs, p), reusable := s.w.reusable + [p]))
    else
      s.(b := b1, w := s.w.(freed := s.w.freed + [p]))
  }

  function WriteStep(s: State, p: PageId, pg: Page): State {
    s.(cache := s.cache[p := pg], dirty := s.dirty + {p})
  }

  function Written(s: State, ps: set<PageId>): Store {
    s.disk.file + map p | p in ps && p in s.cache :: s.cache[p]
  }

  function WriteBackStep(s: State, p: PageId): State {
    s.(dirty := s.dirty - {p},
       disk := s.disk.(file := Written(s, {p}), unsynced := s.disk.unsynced + {p}))
  }

  function SealStep(s: State, chain: seq<PageId>): State {
    s.(phase := Sealed, w := s.w.(meta := s.w.meta.(freelistRoot := Head(chain))), b := s.b.(chain := chain))
  }

  function FlushStep(s: State): State {
    var ps := set p | p in s.w.allocs && p in s.dirty;
    s.(phase := Flushed, dirty := s.dirty - ps,
       disk := s.disk.(file := Written(s, ps), unsynced := s.disk.unsynced + ps))
  }

  function SyncStep(s: State): State {
    s.(phase := if s.phase == Flushed then Synced else MetaSynced, disk := s.disk.(unsynced := {}))
  }

  function SlotAt(d: Disk, i: nat): Slot { if i == 0 then d.slot0 else d.slot1 }

  function SetSlot(d: Disk, i: nat, x: Slot): Disk { if i == 0 then d.(slot0 := x) else d.(slot1 := x) }

  function OtherSlot(i: nat): nat { if i == 0 then 1 else 0 }

  /** The new meta goes to the slot that does not hold the current one. */
  function WriteMetaStep(s: State): State {
    var m := s.w.meta.(txnID := s.w.meta.txnID + 1);
    var i := OtherSlot(s.currentSlot);
    s.(phase := MetaWritten, w := s.w.(meta := m),
       disk := SetSlot(s.disk.(prior := SlotAt(s.disk, i)), i, Good(m)))
  }

  function Entries(ids: seq<PageId>, freedAt: nat): (es: seq<FreeEntry>)
    ensures |es| == |ids| && forall i :: 0 <= i < |ids| ==> es[i] == FreeEntry(ids[i], freedAt)
  {
    seq(|ids|, i requires 0 <= i < |ids| => FreeEntry(ids[i], freedAt))
  }

  ghost function Restrict(store: Store, ps: set<PageId>): Store { map p | p in store && p in ps :: store[p] }

  ghost function NewVersion(s: State): Version {
    Version(s.w.meta, Restrict(s.cache, s.b.live), s.b.chain, Ids(s.pending) + s.w.freed + s.w.reusable, s.leaked)
  }

  ghost function PublishStep(s: State): State {
    s.(phase := Idle, current := s.w.meta, currentSlot := OtherSlot(s.currentSlot),
       pending := s.pending + Entries(s.w.freed, s.w.meta.txnID) + Entries(s.w.reusable, s.w.meta.txnID),
       b := Books({}, {}, {}, []),
       versions := s.versions[s.w.meta.txnID := NewVersion(s)])
  }

  /** Abort forgets the transaction; what it took from the freelist is on no list any more, and the
      cache may hold anything for the pages it had written. */
  ghost function AbortStep(s: State, cache: Store): State {
    s.(phase := Idle, cache := cache, leaked := s.leaked + s.b.popped, b := Books({}, {}, {}, []),
       dirty := s.dirty - (set p | p in s.w.allocs) - (set p | p in s.w.reusable))
  }

  // ---- recovery ----

  const WORD: int := 0x1_0000_0000_0000_0000

  /** Newer by the signed difference of two 64-bit counters. */
  predicate IsNewer(a: nat, b: nat) { 0 < (a - b) % WORD < WORD / 2 }

  /** loadMeta: the newer valid meta, and its slot. */
  function LoadMeta(slot0: Slot, slot1: Slot): (Slot, nat) {
    match (slot0, slot1)
    case (Good(m0), Good(m1)) => if IsNewer(m1.txnID, m0.txnID) then (slot1, 1) else (slot0, 0)
    case (Good(_), Invalid) => (slot0, 0)
    case (Invalid, Good(_)) => (slot1, 1)
    case (Invalid, Invalid) => (Invalid, 0)
  }

  /** The version that a meta found on disk stands for. */
  ghost function VersionOf(s: State, m: Meta): Version {
    if s.phase in {MetaWritten, MetaSynced} && m == s.w.meta then NewVersion(s)
    else if s.current.txnID in s.versions then s.versions[s.current.txnID]
    else Version(m, map[], [], [], {})
  }

  function CrashedSlots(s: State, slot: Slot): Disk {
    if s.phase == MetaWritten then SetSlot(s.disk, OtherSlot(s.currentSlot), slot) else s.disk
  }

  /** A crash, then Open: memory is gone, unsynced pages may hold anything, the freelist is read back
      from the chain with every entry free to reuse. */
  ghost function CrashStep(s: State, file: Store, slot: Slot): State {
    var d := CrashedSlots(s, slot);
    var (found, i) := LoadMeta(d.slot0, d.slot1);
    var m := if found.Good? then found.meta else s.current;
    var v := VersionOf(s, m);
    State(file, {}, Disk(file, {}, d.slot0, d.slot1, Invalid), m, i, Entries(v.persisted, 0), map[],
          Idle, Writer(m, m.numPages, [], [], []), Books({}, {}, {}, []), v.leaked, map[m.txnID := v])
  }

  ghost predicate Enabled(s: State, e: Event) {
    match e
    case BeginRead => true
    case EndRead(v) => v in s.readers
    case BeginWrite => s.phase == Idle
    case Allocate(gate, _) => s.phase == Building && IsGate(s, gate)
    case Write(p, _) => s.phase == Building && p in s.b.mine
    case Free(p) => s.phase == Building && p in s.b.live
    case SetRoot(_) => s.phase == Building
    case WriteBack(p) => p in s.dirty
    case Seal(chain) =>
      && s.phase == Building
      && (forall p :: p in chain ==> p in s.b.mine)
      && Lists(s.cache, chain, Ids(s.pending) + s.w.freed + s.w.reusable)
    case Flush => s.phase == Sealed
    case Sync => s.phase in {Flushed, MetaWritten}
    case WriteMeta => s.phase == Synced
    case Publish => s.phase == MetaSynced
    case Abort(cache) =>
      && s.phase == Building
      && (forall p :: p in s.cache && p !in s.w.allocs && p !in s.w.reusable ==> p in cache && cache[p] == s.cache[p])
    case Crash(file, slot) =>
      && (forall p :: p in s.disk.file && p !in s.disk.unsynced ==> p in file && file[p] == s.disk.file[p])
      && (s.phase == MetaWritten ==> slot in {Invalid, s.disk.prior, Good(s.w.meta)})
  }

  ghost function Apply(s: State, e: Event): State
    requires Enabled(s, e)
  {
    match e
    case BeginRead => BeginReadStep(s)
    case EndRead(v) => EndReadStep(s, v)
    case BeginWrite => BeginWriteStep(s)
    case Allocate(gate, junk) => AllocateStep(s, gate, junk)
    case Write(p, pg) => WriteStep(s, p, pg)
    case Free(p) => FreeStep(s, p)
    case SetRoot(root) => s.(w := s.w.(meta := s.w.meta.(catalogRoot := root)))
    case WriteBack(p) => WriteBackStep(s, p)
    case Seal(chain) => SealStep(s, chain)
    case Flush => FlushStep(s)
    case Sync => SyncStep(s)
    case WriteMeta => WriteMetaStep(s)
    case Publish => PublishStep(s)
    case Abort(cache) => AbortStep(s, cache)
    case Crash(file, slot) => CrashStep(s, file, slot)
  }

  // ---- what every step keeps ----

  /** Every data page is in exactly one place: used by the committed version, on the freelist, taken
      from it by the running transaction, or leaked. */
  ghost predicate Shared(used: set<PageId>, pending: seq<FreeEntry>, popped: set<PageId>, leaked: set<PageId>, n: nat) {
    n >= 2 && multiset(used) + multiset(Ids(pending)) + multiset(popped) + multiset(leaked) == Span(n)
  }

  /** The same for the working version of the running transaction. */
  ghost predicate Divided(live: set<PageId>, w: Writer, pending: seq<FreeEntry>, leaked: set<PageId>) {
    && w.meta.numPages >= w.initialPageCnt
    && multiset(live) + multiset(w.freed) + multiset(w.reusable) + multiset(Ids(pending)) + multiset(leaked) ==
       Span(w.meta.numPages)
  }

  /** Freelist entries are in order of the transaction that freed them. */
  ghost predicate Ordered(pending: seq<FreeEntry>, latest: nat) {
    && (forall i, j :: 0 <= i < j < |pending| ==> pending[i].freedAt <= pending[j].freedAt)
    && (forall i :: 0 <= i < |pending| ==> pending[i].freedAt <= latest)
  }

  /** A version some reader still sees: its pages have their old contents, none of them is in the hands
      of the writer, and those on the freelist were freed after it. */
  ghost predicate Visible(v: nat, ver: Version, cache: Store, pending: seq<FreeEntry>, popped: set<PageId>, n: nat) {
    && Keeps(cache, ver.image)
    && (forall p :: p in ver.image ==> p < n && p !in popped)
    && (forall i :: 0 <= i < |pending| && pending[i].page in ver.image ==> pending[i].freedAt > v)
  }

  ghost predicate Isolated(s: State) {
    && s.current.txnID in s.versions
    && Visible(s.current.txnID, s.versions[s.current.txnID], s.cache, s.pending, s.b.popped, s.current.numPages)
    && forall v :: v in s.readers ==>
         && v <= s.current.txnID && v in s.versions && s.readers[v] > 0
         && Visible(v, s.versions[v], s.cache, s.pending, s.b.popped, s.current.numPages)
  }

  /** The pages the writer may write are its own: taken from the freelist or new in this transaction. */
  ghost predicate Owned(w: Writer, b: Books, dirty: set<PageId>) {
    && b.mine <= b.live
    && (forall p :: p in b.mine ==> p in w.allocs)
    && (forall p :: p in w.allocs ==> p in b.popped || p >= w.initialPageCnt)
    && (forall p :: p in b.popped ==> p in w.allocs && p < w.initialPageCnt)
    && (forall p :: p in w.reusable ==> p >= w.initialPageCnt)
    && (forall p :: p in b.live && p in dirty ==> p in b.mine)
  }

  /** The committed version is on disk, whatever else is still in memory. */
  ghost predicate Durable(ver: Version, dirty: set<PageId>, d: Disk) {
    && Keeps(d.file, ver.image)
    && (forall p :: p in ver.image ==> p !in dirty && p !in d.unsynced)
  }

  /** A committed version describes itself: its chain lists exactly the pages it does not use. */
  ghost predicate Closed(ver: Version) {
    && Lists(ver.image, ver.chain, ver.persisted)
    && ver.meta.freelistRoot == Head(ver.chain)
    && ver.meta.numPages >= 2
    && multiset(ver.image.Keys) + multiset(ver.persisted) + multiset(ver.leaked) == Span(ver.meta.numPages)
  }

  /** The current slot holds the current meta; the other one holds nothing newer. */
  ghost predicate SlotsOk(d: Disk, current: Meta, i: nat) {
    && i < 2
    && SlotAt(d, i) == Good(current)
    && Older(SlotAt(d, OtherSlot(i)), current, i)
  }

  ghost predicate Older(x: Slot, current: Meta, i: nat) {
    x.Good? ==> x.meta.txnID + 1 == current.txnID || (i == 0 && x.meta.txnID == current.txnID)
  }

  /** What each phase of a commit has achieved. */
  ghost predicate Progress(s: State) {
    && (s.phase in {Sealed, Flushed, Synced, MetaWritten, MetaSynced} ==>
          && (forall p :: p in s.b.chain ==> p in s.b.live)
          && Lists(s.cache, s.b.chain, Ids(s.pending) + s.w.freed + s.w.reusable)
          && s.w.meta.freelistRoot == Head(s.b.chain))
    && (s.phase in {Flushed, Synced, MetaWritten, MetaSynced} ==> s.dirty !! s.b.live)
    && (s.phase in {Synced, MetaWritten, MetaSynced} ==> s.disk.unsynced !! s.b.live)
  }

  ghost predicate Working(s: State) {
    s.phase != Idle ==>
      && s.w.initialPageCnt == s.current.numPages
      && s.w.meta.txnID == s.current.txnID + (if s.phase in {MetaWritten, MetaSynced} then 1 else 0)
      && s.b.live <= s.cache.Keys
      && Divided(s.b.live, s.w, s.pending, s.leaked)
      && Owned(s.w, s.b, s.dirty)
      && (forall p :: p in s.b.live && p !in s.dirty ==> p in s.disk.file && s.disk.file[p] == s.cache[p])
  }

  ghost predicate Slots(s: State) {
    if s.phase in {MetaWritten, MetaSynced} then
      && s.currentSlot < 2
      && SlotAt(s.disk, s.currentSlot) == Good(s.current)
      && SlotAt(s.disk, OtherSlot(s.currentSlot)) == Good(s.w.meta)
      && Older(s.disk.prior, s.current, s.currentSlot)
    else SlotsOk(s.disk, s.current, s.currentSlot)
  }

  ghost predicate Committed(s: State) {
    && s.current.txnID in s.versions
    && var ver := s.versions[s.current.txnID];
       && ver.meta == s.current && Closed(ver) && Durable(ver, s.dirty, s.disk)
       && Shared(ver.image.Keys, s.pending, s.b.popped, s.leaked, s.current.numPages)
       && (s.phase == Idle ==> s.b.popped == {})
       && s.dirty <= s.cache.Keys
  }

  ghost predicate Inv(s: State) {
    Isolated(s) && Committed(s) && Ordered(s.pending, s.current.txnID) && Working(s) && Progress(s) && Slots(s)
  }
}
