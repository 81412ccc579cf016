/** Whole transactions, from one committed database to the next. */
module DatabaseRuns {
  import opened Keys
  import opened OrderedMap
  import opened Layout
  import opened Values
  import Upd = TreeUpdate
  import Hist = TreeHistory
  import TB = TreeBulk
  import BL = BulkLoads
  import KeyOrder
  import opened Pages
  import opened Protocol
  import opened ProtocolRuns
  import opened Transactions
  import opened Placed
  import BTrees
  import opened Commits
  import opened Tenants
  import opened Buckets
  import opened BucketTxns
  import opened Databases

  lemma NoneOverlooked(base: map<Name, PageId>, cached: map<Name, Record>, m: map<Name, Tenant>)
    requires NowOf(base, cached) == Roots(m) && base.Keys <= m.Keys
    ensures Overlooked(base, cached) == {} && Overlooking(m, {}) == m
  {
    assert Roots(m).Keys == m.Keys;
    forall n | n in cached && cached[n].dropped ensures n !in Roots(m) { Sees(base, cached, n); }
  }

  /** A transaction that drops no bucket with a root, and adds none whose name is too long: nothing stands in the
      way of its commit. */
  lemma Quiet(t: Txn)
    requires t.Valid() && (forall n :: n in t.base ==> n in t.trees || t.base[n] == 0)
    requires forall n :: n in t.trees ==> n in t.base || |n| <= MAX_KEY
    ensures forall n :: !Refused(t.buckets, n) && !Removes(t.buckets, n)
  {
    hide Inv, DB.View, DB.Live, CatOk, AllOk, AllPages, OldChain, Fixed, NowOf;
    CatNames(t.db.cache, t.cat, t.base);
    assert Roots(t.trees).Keys == t.trees.Keys;
    forall n ensures !Refused(t.buckets, n) && !Removes(t.buckets, n) { Sees(t.base, t.buckets, n); }
  }

  /** From one committed database to the next: begin, write one entry to a bucket, commit. The database
      committed is the old one with the entry put into that bucket, or the old one if the write is refused;
      the commit goes through unless page ids no longer fit eight bytes, when the transaction is given up. */
  method PutAndCommit(db: DB, name: Name, key: Key, value: Bytes, mode: Upd.Mode, ghost d: Content)
    returns (a: Applies, r: Reply, u: BTrees.UpdateReply, ghost d': Content)
    requires Holds(db.View(), d)
    modifies db
    ensures r == (if name in d.trees then Ok else BucketNotFound)
    ensures r == Ok ==> Replies(Data(d.trees)[name], key, mode, u)
    ensures a == Done ==> Holds(db.View(), d')
    ensures a == Done && r == Ok ==> d'.trees.Keys == d.trees.Keys && d'.trees - {name} == d.trees - {name}
    ensures a == Done && r == Ok ==>
              Data(d'.trees)[name] == if u.Root? then WriteTo(Data(d.trees)[name], key, value) else Data(d.trees)[name]
    ensures a == Done && r == Ok && Hist.RootDense(ShapeOf(d.trees[name])) ==> Hist.RootDense(ShapeOf(d'.trees[name]))
    ensures a == Done && r != Ok ==> d'.trees == d.trees
    ensures a == Done || (a == OutOfIds && Holds(db.View(), d))
    ensures a == OutOfIds ==>
              old(db.current.numPages) + (if r == Ok then PutPages(ShapeOf(d.trees[name]), value) else 0) > WORD
  {
    hide Inv, DB.View, DB.Live, DB.Past, DB.Still, CatOk, AllOk, AllPages, NowOf, Agree, OldChain, Fixed, Holds,
         InFlight, VersionHolds, Refused, Removes, Replies, Overlooking, Overlooked, Has, WriteTo, Hist.Contents,
         Hist.RootDense, ShapeOf, ChainIn, Roots, Reaches;
    HoldsVersion(db.View(), d);
    ReadState(db);
    var t := Begin(db, d);
    ReadPast(db);
    r, u := t.Write(name, key, value, mode);
    ReadPast(db);
    if db.meta.numPages > WORD {
      GiveUp(db, d);
      a, d' := OutOfIds, d;
      return;
    }
    SameNames(d.trees, t.trees, name);
    NoneOverlooked(t.base, t.buckets, t.trees);
    Quiet(t);
    ghost var sealed, order;
    a, d', sealed, order := CommitTxn(t, d);
  }

  /** A delete that finds its key and completes leaves a well-formed tree. */
  ghost predicate Safe(r: Hist.Root, key: Key) {
    Has(Hist.Contents(r), key) ==> Hist.DeleteRoot(r, key).Broken? || Hist.SoundRoot(r, key)
  }

  /** Begin, delete one key from a bucket, commit: likewise. The delete fails exactly when the tree function
      does, and nothing is said after that. */
  method DeleteAndCommit(db: DB, name: Name, key: Key, ghost d: Content)
    returns (a: Applies, r: Reply, u: BTrees.DeleteReply, ghost d': Content)
    requires Holds(db.View(), d) && (name in d.trees ==> Safe(ShapeOf(d.trees[name]), key))
    modifies db
    ensures r == (if name in d.trees then Ok else BucketNotFound)
    ensures r == Ok ==>
              (u.TooLarge? <==> Hist.DeleteRoot(ShapeOf(d.trees[name]), key).Broken?)
              && (u.NotFound? <==> !Has(Data(d.trees)[name], key))
    ensures a == TooLarge <==> r == Ok && u.TooLarge?
    ensures a == Done ==> Holds(db.View(), d')
    ensures a == Done && r == Ok ==> d'.trees.Keys == d.trees.Keys && d'.trees - {name} == d.trees - {name}
    ensures a == Done && r == Ok && Hist.RootDense(ShapeOf(d.trees[name])) ==> Hist.RootDense(ShapeOf(d'.trees[name]))
    ensures a == Done && r == Ok ==>
              Data(d'.trees)[name] == if u.Found? then Remove(Data(d.trees)[name], key) else Data(d.trees)[name]
    ensures a == Done && r != Ok ==> d'.trees == d.trees
    ensures a != NameTooLong && (a == OutOfIds ==> Holds(db.View(), d))
    ensures a == OutOfIds ==>
              old(db.current.numPages) + (if r == Ok then ErasePages(ShapeOf(d.trees[name])) else 0) > WORD
  {
    hide Inv, DB.View, DB.Live, DB.Past, DB.Still, CatOk, AllOk, AllPages, NowOf, Agree, OldChain, Fixed, Holds,
         InFlight, VersionHolds, Refused, Removes, Overlooking, Overlooked, Has, Remove, Hist.Contents,
         Hist.RootDense, Hist.DeleteRoot, ShapeOf, ChainIn, Roots, Reaches, Safe, Erases;
    HoldsVersion(db.View(), d);
    ReadState(db);
    var t := Begin(db, d);
    ReadPast(db);
    r, u := t.Erase(name, key);
    ReadPast(db);
    if r == Ok { Erased(d.trees, t.trees, name, key, u, t.Valid()); }
    d' := d;
    if r == Ok && u.TooLarge? {
      a := TooLarge;
      return;
    }
    if db.meta.numPages > WORD {
      GiveUp(db, d);
      a := OutOfIds;
      return;
    }
    SameNames(d.trees, t.trees, name);
    NoneOverlooked(t.base, t.buckets, t.trees);
    Quiet(t);
    ghost var sealed, order;
    a, d', sealed, order := CommitTxn(t, d);
  }

  lemma Erased(m: map<Name, Tenant>, m': map<Name, Tenant>, name: Name, key: Key, u: BTrees.DeleteReply, valid: bool)
    requires name in m && name in m' && Erases(ShapeOf(m[name]), ShapeOf(m'[name]), key, u, valid)
             && Safe(ShapeOf(m[name]), key)
    requires u.NotFound? ==> valid
    ensures (u.TooLarge? <==> Hist.DeleteRoot(ShapeOf(m[name]), key).Broken?)
            && (u.NotFound? <==> !Has(Data(m)[name], key))
    ensures !u.TooLarge? ==> valid && Data(m')[name] == if u.Found? then Remove(Data(m)[name], key) else Data(m)[name]
    ensures !u.TooLarge? && Hist.RootDense(ShapeOf(m[name])) ==> Hist.RootDense(ShapeOf(m'[name]))
  {
    hide Has, Remove, Hist.Contents, Hist.DeleteRoot, Hist.RootDense, Hist.SoundRoot, ShapeOf;
  }

  lemma HoldsVersion(s: State, d: Content)
    requires Holds(s, d)
    ensures s.current.txnID in s.versions && VersionHolds(s.versions[s.current.txnID], d)
  {
  }

  lemma SameNames(m: map<Name, Tenant>, m': map<Name, Tenant>, n: Name)
    requires m' == m || (n in m && n in m' && m' - {n} == m - {n})
    ensures m'.Keys == m.Keys && Roots(m).Keys == m.Keys
  {
    if m' != m {
      assert (m' - {n}).Keys == m'.Keys - {n} && (m - {n}).Keys == m.Keys - {n};
      assert m'.Keys == (m'.Keys - {n}) + {n} && m.Keys == (m.Keys - {n}) + {n};
    }
  }

  /** Begin, load a list into an empty bucket, commit: the bucket then holds exactly the list. A load that is
      refused or rejected gives the transaction up, and no page is lost with it but what aborts lose. */
  method LoadAndCommit(db: DB, name: Name, es: seq<Entry>, target: nat, ghost d: Content)
    returns (a: Applies, r: Reply, o: LoadReply, ghost d': Content)
    requires Holds(db.View(), d) && TB.Target(target) && KeyOrder.KeysAfterFirst(es)
    modifies db
    ensures r == (if name in d.trees then Ok else BucketNotFound)
    ensures r == Ok ==>
              o == if d.trees[name].root != 0 then NotEmpty else if BL.Passing(es, |es|) then Filled else Rejected
    ensures r == Ok && o == Filled ==> a == Done || a == OutOfIds
    ensures r == Ok && o == Filled && a == OutOfIds ==>
              old(db.current.numPages) + BL.LoadPages(es, |es|) > WORD
    ensures r == Ok && o == Filled && a == Done ==>
              && Sorted(es) && Holds(db.View(), d') && d'.trees.Keys == d.trees.Keys
                 && d'.trees - {name} == d.trees - {name}
              && Data(d'.trees)[name] == es
    ensures r != Ok || o != Filled || a != Done ==> Holds(db.View(), d)
  {
    hide Inv, DB.View, DB.Live, DB.Past, DB.Still, CatOk, AllOk, AllPages, NowOf, Agree, OldChain, Fixed, Holds,
         InFlight, VersionHolds, Refused, Removes, Overlooking, Overlooked, Hist.Contents, ShapeOf, ChainIn, Roots,
         Reaches, BL.Passing, Sorted, KeyOrder.KeysAfterFirst;
    BL.PassingSorted(es);
    HoldsVersion(db.View(), d);
    ReadState(db);
    var t := Begin(db, d);
    ReadPast(db);
    a, d' := OutOfIds, d;
    r, o := t.LoadBucket(name, es, target);
    ReadPast(db);
    if r != Ok || o != Filled || db.meta.numPages > WORD {
      GiveUp(db, d);
      return;
    }
    SameNames(d.trees, t.trees, name);
    NoneOverlooked(t.base, t.buckets, t.trees);
    Quiet(t);
    ghost var sealed, order;
    a, d', sealed, order := CommitTxn(t, d);
  }

  /** Begin, create a bucket, commit: it is there, and empty. The commit is refused if the name is too long. */
  method CreateAndCommit(db: DB, name: Name, ghost d: Content) returns (a: Applies, r: Reply, ghost d': Content)
    requires Holds(db.View(), d)
    modifies db
    ensures r == if name in d.trees then BucketExists else Ok
    ensures a == Done ==>
              Holds(db.View(), d') && d'.trees == if r == Ok then d.trees[name := Tenant(0, PLeaf(0, []))] else d.trees
    ensures a == Done && r == Ok ==> |name| <= MAX_KEY
    ensures a == NameTooLong ==> r == Ok && |name| > MAX_KEY
    ensures a != TooLarge && (a != Done ==> Holds(db.View(), d))
    ensures a == OutOfIds ==> old(db.current.numPages) > WORD && db.current == old(db.current)
  {
    hide Inv, DB.View, DB.Live, DB.Past, DB.Still, CatOk, AllOk, AllPages, NowOf, Agree, OldChain, Fixed, Holds,
         InFlight, VersionHolds, Refused, Removes, Overlooked, Overlooking, ChainIn, Reaches, PagesOf, Roots;
    HoldsVersion(db.View(), d);
    ReadState(db);
    var t := Begin(db, d);
    ReadPast(db);
    r := t.CreateBucket(name);
    ReadPast(db);
    if db.meta.numPages > WORD {
      GiveUp(db, d);
      a, d' := OutOfIds, d;
      return;
    }
    RootNames(d.trees);
    NoneOverlooked(t.base, t.buckets, t.trees);
    if r == Ok && |name| > MAX_KEY { TooLongName(t, name); } else { Quiet(t); }
    NoRemovals(t);
    ghost var sealed, order;
    a, d', sealed, order := CommitTxn(t, d);
  }

  lemma TooLongName(t: Txn, name: Name)
    requires t.Valid() && name in t.trees && name !in t.base && |name| > MAX_KEY
    ensures Refused(t.buckets, name)
  {
    hide Inv, DB.View, DB.Live, CatOk, AllOk, AllPages, OldChain, Fixed, NowOf;
    assert Roots(t.trees).Keys == t.trees.Keys;
    Sees(t.base, t.buckets, name);
  }

  lemma NoRemovals(t: Txn)
    requires t.Valid() && forall n :: n in t.base ==> n in t.trees
    ensures forall n :: !Removes(t.buckets, n)
  {
    hide Inv, DB.View, DB.Live, CatOk, AllOk, AllPages, OldChain, Fixed, NowOf;
    assert Roots(t.trees).Keys == t.trees.Keys;
    forall n ensures !Removes(t.buckets, n) { Sees(t.base, t.buckets, n); }
  }

  lemma Dropped(t: Txn, name: Name)
    requires t.Valid() && name in t.base && t.trees.Keys == t.base.Keys - {name}
    ensures Overlooked(t.base, t.buckets) == if t.base[name] == 0 then {name} else {}
    ensures forall n :: !Refused(t.buckets, n) && (Removes(t.buckets, n) ==> t.base[name] != 0)
    ensures name in t.buckets && t.buckets[name].dropped && t.buckets[name].origRoot == t.base[name]
  {
    hide Inv, DB.View, DB.Live, CatOk, AllOk, AllPages, OldChain, Fixed, NowOf;
    CatNames(t.db.cache, t.cat, t.base);
    assert Roots(t.trees).Keys == t.trees.Keys;
    forall n ensures (n in t.buckets && t.buckets[n].dropped && n in t.base ==> n == name)
        && (n in t.buckets && !t.buckets[n].dropped ==> n in t.base) {
      Sees(t.base, t.buckets, n);
    }
    Sees(t.base, t.buckets, name);
  }

  /** Begin, drop a bucket, commit. The other buckets are as they were; and the bucket is gone from the committed
      database if and only if it had a root page there. */
  method DropAndCommit(db: DB, name: Name, ghost d: Content) returns (a: Applies, r: Reply, ghost d': Content)
    requires Holds(db.View(), d)
    modifies db
    ensures r == if name in d.trees then Ok else BucketNotFound
    ensures a == Done ==> Holds(db.View(), d') && d'.trees - {name} == d.trees - {name}
    ensures a == Done && r == Ok ==> (name in d'.trees <==> d.trees[name].root == 0)
    ensures a == TooLarge <==>
              && old(db.current.numPages) <= WORD && r == Ok && d.trees[name].root != 0
              && Hist.DeleteRoot(ShapeOf(Tenant(old(db.current.catalogRoot), d.cat)), name).Broken?
    ensures d.cat.PLeaf? ==> a != TooLarge
    ensures a != NameTooLong && (a == OutOfIds ==> Holds(db.View(), d) && old(db.current.numPages) > WORD)
    ensures a == OutOfIds ==> db.current == old(db.current)
  {
    hide Inv, DB.View, DB.Live, DB.Past, DB.Still, CatOk, AllOk, AllPages, NowOf, Agree, OldChain, Fixed, Holds,
         InFlight, VersionHolds, Refused, Removes, Overlooked, Overlooking, ChainIn, Reaches, PagesOf, Roots;
    HoldsVersion(db.View(), d);
    ReadState(db);
    var t := Begin(db, d);
    ReadPast(db);
    r := t.DropBucket(name);
    ReadPast(db);
    if db.meta.numPages > WORD {
      GiveUp(db, d);
      a, d' := OutOfIds, d;
      return;
    }
    RootNames(d.trees);
    OneLeafCatalog(t.cat, name);
    if r == Ok {
      Dropped(t, name);
      OneRecord(ShapeOf(t.cat), t.buckets, name, t.base[name]);
    } else {
      assert d.trees - {name} == d.trees;
      NoneOverlooked(t.base, t.buckets, t.trees);
      Quiet(t);
    }
    OneOverlooked(d.trees, t.trees, name);
    ghost var sealed, order;
    a, d', sealed, order := CommitTxn(t, d);
  }

  /** A catalog of one leaf is never too full for a delete. */
  lemma OneLeafCatalog(cat: Tenant, name: Name)
    ensures cat.tree.PLeaf? ==> !Hist.DeleteRoot(ShapeOf(cat), name).Broken?
  {
  }

  lemma OneName(cached: map<Name, Record>, order: seq<Name>, name: Name)
    requires InTurn(cached, order) && cached.Keys == {name}
    ensures |order| <= 1 && (order != [] ==> order[0] == name)
  {
    forall i | 0 <= i < |order| ensures order[i] == name { assert order[i] in order && order[i] in cached.Keys; }
    if |order| > 1 { TwoNames(cached, order); }
  }

  lemma TwoNames(cached: map<Name, Record>, order: seq<Name>)
    requires InTurn(cached, order) && |order| > 1
    ensures order[0] != order[1]
  {
  }

  lemma PlayOnly(r: Hist.Root, cached: map<Name, Record>, name: Name)
    requires name in cached
    ensures Play(r, cached, [name]) == PlayOne(r, name, cached[name]) && Play(r, cached, []) == Fine(r)
  {
    hide PlayOne;
    assert [name][1..] == [];
  }

  /** With one record to apply there is one way to apply it. */
  lemma OneRecord(r: Hist.Root, cached: map<Name, Record>, name: Name, root: PageId)
    requires cached.Keys == {name} && cached[name].dropped && cached[name].origRoot == root
    ensures forall order: seq<Name> :: InTurn(cached, order) ==>
              && (Play(r, cached, order).Stuck? ==> root != 0 && Hist.DeleteRoot(r, name).Broken?)
              && (name in order && root != 0 && Hist.DeleteRoot(r, name).Broken? ==> Play(r, cached, order).Stuck?)
  {
    hide Hist.DeleteRoot, Hist.UpdateRoot, Play;
    forall order: seq<Name> | InTurn(cached, order)
      ensures (Play(r, cached, order).Stuck? ==> root != 0 && Hist.DeleteRoot(r, name).Broken?)
              && (name in order && root != 0 && Hist.DeleteRoot(r, name).Broken? ==> Play(r, cached, order).Stuck?)
    {
      OneName(cached, order, name);
      PlayOnly(r, cached, name);
      assert order == [] || order == [name];
    }
  }

  lemma OneOverlooked(m: map<Name, Tenant>, m': map<Name, Tenant>, name: Name)
    requires m' == m - {name}
    ensures Overlooking(m', {}) == m' && name !in m'
    ensures Overlooking(m', {name}) - {name} == m' && name in Overlooking(m', {name}) && m' - {name} == m'
  {
  }

  /** A dropped bucket can stay: one is created and committed, then dropped, and the drop committed; the database
      has it still. */
  method CreateThenDrop(db: DB, name: Name, ghost d: Content)
    returns (a: Applies, c: Reply, r: Reply, ghost d': Content)
    requires Holds(db.View(), d) && name !in d.trees && |name| <= MAX_KEY
    modifies db
    ensures a == Done || (a == OutOfIds && db.current.numPages > WORD)
    ensures a == Done ==> c == Ok && r == Ok && Holds(db.View(), d') && name in d'.trees
  {
    hide Inv, DB.View, Holds;
    r, d' := Ok, d;
    ghost var d1;
    a, c, d1 := CreateAndCommit(db, name, d);
    if a == Done { a, r, d' := DropAndCommit(db, name, d1); }
  }

  lemma RootNames(m: map<Name, Tenant>)
    ensures Roots(m).Keys == m.Keys && forall n :: n in m ==> Roots(m)[n] == m[n].root
  {
  }
}
