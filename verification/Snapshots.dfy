/** The layers together: trees in committed versions, as later readers and later openings of the file see them. */
module Snapshots {
  import opened Pages
  import opened Protocol
  import opened ProtocolRuns
  import opened ProtocolReaders
  import opened Transactions
  import opened Placed
  import opened Commits

  lemma TreeInStore(image: Store, store: Store, t: PTree)
    requires Stored(image, t) && Keeps(store, image)
    ensures Stored(store, t)
  {
    TreePagesCached(image, t);
    hide Stored, TreePages;
    assert Kept(image, store, TreePages(t));
    StoredKept(image, store, t, TreePages(t));
  }

  /** A tree that is part of the working version is part of the version committed from it. */
  lemma CommittedTree(s: State, s': State, rest: multiset<PageId>, t: PTree)
    requires CommittedFrom(s, s', rest) && Stored(s.cache, t) && TreePages(t) <= rest
    ensures Stored(s'.versions[s'.current.txnID].image, t)
  {
    hide Stored, TreePages, Lists, Keeps;
    var image := s'.versions[s'.current.txnID].image;
    assert Kept(s.cache, image, rest);
    StoredKept(s.cache, image, t, rest);
  }

  /** As long as more readers of a version have begun than ended, every tree of the version is there unchanged,
      whatever else happens. */
  lemma SnapshotTree(before: seq<Event>, s: State, es: seq<Event>, s': State, v: nat, t: PTree)
    requires Reaches(Init(), before, s) && Reaches(s, es, s')
    requires OpenThroughout(s, es, v, OpenReaders(Init(), before, v, 0))
    requires v in s.versions && Stored(s.versions[v].image, t)
    ensures Stored(s'.cache, t)
  {
    hide Reaches, OpenThroughout, OpenReaders, Stored, Keeps;
    SnapshotIsolation(before, s, es, s', v);
    TreeInStore(s.versions[v].image, s'.cache, t);
  }

  /** After a crash at any point, the tree is in the file if the version found is one that has it. */
  lemma CrashTree(s: State, file: Store, slot: Slot, t: PTree)
    requires Inv(s) && Enabled(s, Crash(file, slot)) && s.current.txnID in s.versions
    requires CrashStep(s, file, slot).current == s.current ==> Stored(s.versions[s.current.txnID].image, t)
    requires CrashStep(s, file, slot).current != s.current ==> Stored(NewVersion(s).image, t)
    ensures Stored(file, t) && Stored(CrashStep(s, file, slot).cache, t)
  {
    hide Inv, Enabled, Stored, Keeps, NewVersion, LoadMeta, VersionOf, CrashedSlots, Lists;
    CrashAtomicity(s, file, slot);
    var s' := CrashStep(s, file, slot);
    TreeInStore(s'.versions[s'.current.txnID].image, file, t);
  }
}
