/** The buffer pool, one call at a time: a cache of frames over the file that behaves like one flat store. */
module BufferPools {
  import opened Keys
  import opened Pages
  import opened Clock

  datatype Content = Unknown | Bytes(data: Bytes)

  datatype Reply = Held(index: nat) | Exhausted | Pinned | ReadError

  type File = map<PageId, Bytes>

  /** What the pool says a page holds: its frame if it has one, else the file. */
  ghost function Look(f: seq<Frame>, table: map<PageId, nat>, disk: File, p: PageId): Content {
    if p in table then (if table[p] < |f| then Bytes(f[table[p]].data) else Unknown)
    else if p in disk then Bytes(disk[p]) else Unknown
  }

  /** The table and the frames agree, so every page has at most one frame. */
  ghost predicate Mapped(f: seq<Frame>, table: map<PageId, nat>) {
    && (forall p :: p in table ==> table[p] < |f| && !f[table[p]].free && f[table[p]].pageId == p)
    && (forall i :: 0 <= i < |f| && !f[i].free ==> f[i].pageId in table && table[f[i].pageId] == i)
  }

  /** A clean frame holds what the file holds; a free one is clean. */
  ghost predicate Clean(f: seq<Frame>, disk: File) {
    && (forall i :: 0 <= i < |f| && !f[i].free && !f[i].dirty ==> f[i].pageId in disk && disk[f[i].pageId] == f[i].data)
    && (forall i :: 0 <= i < |f| && f[i].free ==> !f[i].dirty)
  }

  ghost predicate Quiet(f: seq<Frame>) {
    forall i :: 0 <= i < |f| ==> !f[i].evicting && f[i].usageCount <= MAX_USAGE
  }

  /** Each page has at most one frame. */
  lemma OneFrame(f: seq<Frame>, table: map<PageId, nat>, i: nat, j: nat)
    requires Mapped(f, table) && i < |f| && j < |f| && !f[i].free && !f[j].free && f[i].pageId == f[j].pageId
    ensures i == j
  {
    assert table[f[i].pageId] == i && table[f[j].pageId] == j;
  }

  /** Frames that changed only in how recently they were used. */
  ghost predicate AllAged(f0: seq<Frame>, f1: seq<Frame>) {
    |f1| == |f0| && forall i :: 0 <= i < |f0| ==> Aged(f0[i], f1[i].(evicting := false))
  }

  class BufferPool {
    const frames: array<Frame>
    var table: map<PageId, nat>
    var hand: nat
    var disk: File

    ghost predicate Consistent()
      reads this, frames
    {
      frames.Length > 0 && Mapped(frames[..], table) && Clean(frames[..], disk)
    }

    ghost predicate Valid()
      reads this, frames
    {
      Consistent() && Quiet(frames[..])
    }

    ghost function Says(p: PageId): Content
      reads this, frames
    {
      Look(frames[..], table, disk, p)
    }

    constructor (size: nat, disk: File)
      requires size > 0
      ensures Valid() && fresh(frames) && frames.Length == size
      ensures forall p :: Says(p) == if p in disk then Bytes(disk[p]) else Unknown
    {
      frames := new Frame[size](_ => Frame(true, 0, [], 0, 0, false, false));
      table, hand, this.disk := map[], 0, disk;
    }

    /** acquireFrame: a frame that holds no page any more. A dirty page goes to the file first, so no page's
        contents change; pinned frames are left alone; it fails exactly when every frame is pinned. */
    method AcquireFrame() returns (i: nat, ok: bool)
      requires Valid()
      modifies this, frames
      ensures Consistent() && (!ok ==> Valid())
      ensures !ok <==> AllBusy(old(frames[..]))
      ensures ok ==> i < frames.Length && frames[i].free && !Busy(old(frames[i]))
      ensures forall j :: 0 <= j < frames.Length && !(ok && j == i) ==>
                Aged(old(frames[j]), frames[j]) && !frames[j].evicting && frames[j].usageCount <= MAX_USAGE
      ensures forall p :: Says(p) == old(Says(p))
      ensures forall p :: p in table ==> p in old(table)
    {
      hide Mapped, Clean, Look, AllBusy;
      ghost var f0 := frames[..];
      NoneBeing(f0);
      hand, i, ok := EvictFrame(frames, hand);
      ghost var f1 := frames[..];
      assert AllAged(f0, f1);
      AgedKeeps(f0, f1, table, disk);
      if !ok {
        return;
      }
      var victim := frames[i];
      if victim.free {
        return;
      }
      if victim.dirty {
        disk := disk[victim.pageId := victim.data];
      }
      table := table - {victim.pageId};
      frames[i] := victim.(free := true, dirty := false);
      assert frames[..] == f1[i := victim.(free := true, dirty := false)];
      TakenOut(f1, old(table), old(disk), i);
    }

    /** Get: the page's frame, pinned once more, with the bytes last written to the page. */
    method Get(p: PageId) returns (r: Reply)
      requires Valid()
      modifies this, frames
      ensures Valid() && forall x :: Says(x) == old(Says(x))
      ensures r.Held? ==>
                && r.index < frames.Length && frames[r.index].pageId == p && !frames[r.index].free
                   && Says(p) == Bytes(frames[r.index].data)
                && frames[r.index].pinCount == (if p in old(table) then old(frames[table[p]].pinCount) + 1 else 1)
                && frames[r.index].usageCount == 5 && p in table && table[p] == r.index
      ensures r.ReadError? ==> old(Says(p)) == Unknown
      ensures r.Exhausted? ==> p !in old(table) && AllBusy(old(frames[..]))
      ensures r.Held? || r.ReadError? || r.Exhausted?
      ensures forall j :: 0 <= j < frames.Length && Busy(old(frames[j])) && !(r.Held? && j == r.index) ==>
                frames[j] == old(frames[j])
    {
      hide Mapped, Clean, Look, AllBusy;
      ghost var f0 := frames[..];
      if p in table {
        TableFrame(f0, table, disk, p);
        var i := table[p];
        frames[i] := frames[i].(pinCount := frames[i].pinCount + 1, usageCount := MAX_USAGE);
        Touched(f0, frames[..], table, disk, i);
        return Held(i);
      }
      var i, ok := AcquireFrame();
      if !ok {
        return Exhausted;
      }
      ghost var f1, t1 := frames[..], table;
      assert p !in table;
      if p !in disk {
        frames[i] := Frame(true, frames[i].pageId, frames[i].data, 0, 0, false, false);
        StillFree(f1, frames[..], table, disk, i);
        NotThere(f1, table, disk, p);
        return ReadError;
      }
      frames[i] := Frame(false, p, disk[p], 1, MAX_USAGE, frames[i].dirty, false);
      table := table[p := i];
      Installed(f1, frames[..], t1, disk, p, i);
      r := Held(i);
    }

    /** GetForWrite: the page's frame, pinned and dirty; refused if somebody holds the page. A page without
        a frame gets one with whatever the frame last held, which the caller must overwrite. */
    method GetForWrite(p: PageId) returns (r: Reply)
      requires Valid()
      modifies this, frames
      ensures Valid() && forall x :: x != p || p in old(table) ==> Says(x) == old(Says(x))
      ensures r.Held? ==>
                && r.index < frames.Length && frames[r.index].pageId == p && !frames[r.index].free
                   && frames[r.index].dirty
                && frames[r.index].pinCount == 1 && Says(p) == Bytes(frames[r.index].data)
                && frames[r.index].usageCount == 5 && p in table && table[p] == r.index
      ensures r.Pinned? <==> p in old(table) && old(frames[table[p]].pinCount) > 0
      ensures r.Exhausted? <==> p !in old(table) && AllBusy(old(frames[..]))
      ensures r.Held? || r.Pinned? || r.Exhausted?
      ensures forall j :: 0 <= j < frames.Length && Busy(old(frames[j])) && !(r.Held? && j == r.index) ==>
                frames[j] == old(frames[j])
    {
      hide Mapped, Clean, Look, AllBusy;
      ghost var f0 := frames[..];
      if p in table {
        TableFrame(f0, table, disk, p);
        var i := table[p];
        if frames[i].evicting || frames[i].pinCount > 0 {
          return Pinned;
        }
        frames[i] := frames[i].(pinCount := 1, usageCount := MAX_USAGE, dirty := true);
        Dirtied(f0, frames[..], table, disk, i, f0[i].data);
        return Held(i);
      }
      var i, ok := AcquireFrame();
      if !ok {
        return Exhausted;
      }
      ghost var f1, t1 := frames[..], table;
      frames[i] := frames[i].(free := false, pageId := p, pinCount := 1, usageCount := MAX_USAGE, dirty := true,
                              evicting := false);
      table := table[p := i];
      Opened(f1, frames[..], t1, disk, p, i);
      r := Held(i);
    }

    /** Filling a page held for writing. */
    method Fill(i: nat, data: Bytes)
      requires Valid() && i < frames.Length && !frames[i].free && frames[i].dirty
      modifies frames
      ensures Valid() && frames[i] == old(frames[i]).(data := data)
      ensures forall x :: Says(x) == if x == frames[i].pageId then Bytes(data) else old(Says(x))
      ensures forall j :: 0 <= j < frames.Length && j != i ==> frames[j] == old(frames[j])
    {
      hide Mapped, Clean, Look;
      ghost var f0 := frames[..];
      frames[i] := frames[i].(data := data);
      Dirtied(f0, frames[..], table, disk, i, data);
    }

    /** Unpin. */
    method Unpin(i: nat)
      requires Valid() && i < frames.Length && frames[i].pinCount > 0
      modifies frames
      ensures Valid() && frames[i] == old(frames[i]).(pinCount := old(frames[i]).pinCount - 1)
      ensures forall x :: Says(x) == old(Says(x))
      ensures forall j :: 0 <= j < frames.Length && j != i ==> frames[j] == old(frames[j])
    {
      hide Mapped, Clean, Look;
      ghost var f0 := frames[..];
      frames[i] := frames[i].(pinCount := frames[i].pinCount - 1);
      Touched(f0, frames[..], table, disk, i);
    }

    /** FlushPage: the page's frame is clean afterwards, so the file has what the pool says. */
    method FlushPage(p: PageId)
      requires Valid()
      modifies this`disk, frames
      ensures Valid() && forall x :: Says(x) == old(Says(x))
      ensures Says(p) == if p in disk then Bytes(disk[p]) else Unknown
      ensures p in table && table[p] < frames.Length ==> !frames[table[p]].dirty
      ensures forall x :: x != p ==> (x in disk <==> x in old(disk)) && (x in disk ==> disk[x] == old(disk)[x])
      ensures forall j :: 0 <= j < frames.Length ==>
                frames[j] == old(frames[j]).(dirty := frames[j].dirty) && (frames[j].dirty ==> old(frames[j]).dirty)
    {
      hide Mapped, Clean, Look;
      ghost var f0 := frames[..];
      if p !in table {
        OnFile(f0, table, disk, p);
        return;
      }
      TableFrame(f0, table, disk, p);
      var i := table[p];
      if frames[i].dirty {
        disk := disk[p := frames[i].data];
        frames[i] := frames[i].(dirty := false);
        Flushed(f0, frames[..], table, old(disk), p, i);
      }
      CleanFrame(frames[..], table, disk, p);
    }

    /** FlushPages: afterwards the file has what the pool says of every page listed. */
    method FlushPages(ids: seq<PageId>)
      requires Valid()
      modifies this`disk, frames
      ensures Valid() && forall x :: Says(x) == old(Says(x))
      ensures forall k :: 0 <= k < |ids| ==> Says(ids[k]) == if ids[k] in disk then Bytes(disk[ids[k]]) else Unknown
      ensures forall k :: 0 <= k < |ids| && ids[k] in table && table[ids[k]] < frames.Length ==>
                !frames[table[ids[k]]].dirty
      ensures forall x :: x !in ids ==> (x in disk <==> x in old(disk)) && (x in disk ==> disk[x] == old(disk)[x])
    {
      hide Mapped, Clean, Look;
      for k := 0 to |ids|
        invariant Valid() && forall x :: Says(x) == old(Says(x))
        invariant forall j :: 0 <= j < k ==> Says(ids[j]) == if ids[j] in disk then Bytes(disk[ids[j]]) else Unknown
        invariant forall j :: 0 <= j < k && ids[j] in table && table[ids[j]] < frames.Length ==>
                    !frames[table[ids[j]]].dirty
        invariant forall x :: x !in ids ==> (x in disk <==> x in old(disk)) && (x in disk ==> disk[x] == old(disk)[x])
      {
        FlushPage(ids[k]);
      }
    }
  }

  lemma NoneBeing(f: seq<Frame>)
    requires Quiet(f)
    ensures NoneEvicting(f)
  {
  }

  lemma AgedKeeps(f0: seq<Frame>, f1: seq<Frame>, table: map<PageId, nat>, disk: File)
    requires Mapped(f0, table) && Clean(f0, disk) && AllAged(f0, f1)
    ensures Mapped(f1, table) && Clean(f1, disk) && forall p :: Look(f1, table, disk, p) == Look(f0, table, disk, p)
  {
    assert forall i :: 0 <= i < |f0| ==>
             f1[i].free == f0[i].free && f1[i].pageId == f0[i].pageId && f1[i].data == f0[i].data
             && f1[i].dirty == f0[i].dirty;
  }

  lemma TakenOut(f: seq<Frame>, table: map<PageId, nat>, disk: File, i: nat)
    requires Mapped(f, table) && Clean(f, disk) && i < |f| && !f[i].free
    ensures var p := f[i].pageId;
      var f' := f[i := f[i].(free := true, dirty := false)];
      var disk' := if f[i].dirty then disk[p := f[i].data] else disk;
      && Mapped(f', table - {p}) && Clean(f', disk')
      && forall x :: Look(f', table - {p}, disk', x) == Look(f, table, disk, x)
  {
    var p := f[i].pageId;
    var f' := f[i := f[i].(free := true, dirty := false)];
    forall j | 0 <= j < |f'| && !f'[j].free ensures f'[j].pageId != p && f'[j] == f[j] {
      assert table[f[j].pageId] == j;
    }
  }

  lemma TableFrame(f: seq<Frame>, table: map<PageId, nat>, disk: File, p: PageId)
    requires Mapped(f, table) && p in table
    ensures table[p] < |f| && !f[table[p]].free && f[table[p]].pageId == p
  {
  }

  /** Pin and usage counts do not matter to what the pool says. */
  lemma Touched(f0: seq<Frame>, f1: seq<Frame>, table: map<PageId, nat>, disk: File, i: nat)
    requires Mapped(f0, table) && Clean(f0, disk) && i < |f0| && |f1| == |f0|
    requires f1[i] == f0[i].(pinCount := f1[i].pinCount, usageCount := f1[i].usageCount) && f1 == f0[i := f1[i]]
    ensures Mapped(f1, table) && Clean(f1, disk) && forall p :: Look(f1, table, disk, p) == Look(f0, table, disk, p)
    ensures !f0[i].free ==> f0[i].pageId in table && Look(f1, table, disk, f0[i].pageId) == Bytes(f1[i].data)
  {
  }

  lemma StillFree(f0: seq<Frame>, f1: seq<Frame>, table: map<PageId, nat>, disk: File, i: nat)
    requires Mapped(f0, table) && Clean(f0, disk) && i < |f0| && |f1| == |f0| && f0[i].free && f1[i].free
             && !f1[i].dirty && f1 == f0[i := f1[i]]
    ensures Mapped(f1, table) && Clean(f1, disk) && forall p :: Look(f1, table, disk, p) == Look(f0, table, disk, p)
  {
  }

  lemma NotThere(f: seq<Frame>, table: map<PageId, nat>, disk: File, p: PageId)
    requires p !in table && p !in disk
    ensures Look(f, table, disk, p) == Unknown
  {
  }

  /** A page read into a free frame. */
  lemma Installed(f0: seq<Frame>, f1: seq<Frame>, table: map<PageId, nat>, disk: File, p: PageId, i: nat)
    requires Mapped(f0, table) && Clean(f0, disk) && p !in table && p in disk && i < |f0| && |f1| == |f0|
    requires f0[i].free && !f1[i].free && f1[i].pageId == p && f1[i].data == disk[p] && f1 == f0[i := f1[i]]
    ensures Mapped(f1, table[p := i]) && Clean(f1, disk)
            && forall x :: Look(f1, table[p := i], disk, x) == Look(f0, table, disk, x)
    ensures Look(f1, table[p := i], disk, p) == Bytes(f1[i].data)
  {
    assert forall x :: x in table ==> table[x] != i;
  }

  /** A frame made dirty, perhaps with new bytes. */
  lemma Dirtied(f0: seq<Frame>, f1: seq<Frame>, table: map<PageId, nat>, disk: File, i: nat, data: Bytes)
    requires Mapped(f0, table) && Clean(f0, disk) && i < |f0| && |f1| == |f0| && !f0[i].free
    requires f1[i] == f0[i].(data := data, dirty := true, pinCount := f1[i].pinCount, usageCount := f1[i].usageCount)
             && f1 == f0[i := f1[i]]
    ensures Mapped(f1, table) && Clean(f1, disk)
    ensures forall x :: Look(f1, table, disk, x) == if x == f0[i].pageId then Bytes(data) else Look(f0, table, disk, x)
    ensures data == f0[i].data ==> forall x :: Look(f1, table, disk, x) == Look(f0, table, disk, x)
  {
  }

  /** A free frame given to a page that will be overwritten. */
  lemma Opened(f0: seq<Frame>, f1: seq<Frame>, table: map<PageId, nat>, disk: File, p: PageId, i: nat)
    requires Mapped(f0, table) && Clean(f0, disk) && p !in table && i < |f0| && |f1| == |f0|
    requires f0[i].free && !f1[i].free && f1[i].dirty && f1[i].pageId == p && f1 == f0[i := f1[i]]
    ensures Mapped(f1, table[p := i]) && Clean(f1, disk) && forall x :: x != p ==>
              Look(f1, table[p := i], disk, x) == Look(f0, table, disk, x)
    ensures Look(f1, table[p := i], disk, p) == Bytes(f1[i].data)
  {
    assert forall x :: x in table ==> table[x] != i;
  }

  lemma OnFile(f: seq<Frame>, table: map<PageId, nat>, disk: File, p: PageId)
    requires p !in table
    ensures Look(f, table, disk, p) == if p in disk then Bytes(disk[p]) else Unknown
  {
  }

  lemma Flushed(f0: seq<Frame>, f1: seq<Frame>, table: map<PageId, nat>, disk: File, p: PageId, i: nat)
    requires Mapped(f0, table) && Clean(f0, disk) && p in table && table[p] == i && i < |f0| && |f1| == |f0|
    requires f1[i] == f0[i].(dirty := false) && f1 == f0[i := f1[i]]
    ensures var disk' := disk[p := f0[i].data];
      Mapped(f1, table) && Clean(f1, disk') && forall x :: Look(f1, table, disk', x) == Look(f0, table, disk, x)
  {
    forall j | 0 <= j < |f1| && j != i && !f1[j].free ensures f1[j].pageId != p {
      assert table[f0[j].pageId] == j;
    }
  }

  lemma CleanFrame(f: seq<Frame>, table: map<PageId, nat>, disk: File, p: PageId)
    requires Mapped(f, table) && Clean(f, disk) && p in table
    ensures !f[table[p]].dirty ==> p in disk && Look(f, table, disk, p) == Bytes(disk[p])
  {
  }
}
