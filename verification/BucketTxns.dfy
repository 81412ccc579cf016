/** A write transaction on named buckets: looking them up in the catalog, changing their trees, and applying
    the changes to the catalog tree. */
module BucketTxns {
  import opened Keys
  import opened OrderedMap
  import opened Layout
  import opened Values
  import Upd = TreeUpdate
  import Hist = TreeHistory
  import opened Pages
  import opened Protocol
  import opened Transactions
  import opened Placed
  import BTrees
  import TB = TreeBulk
  import BL = BulkLoads
  import KeyOrder
  import opened Commits
  import opened Encoding
  import opened Tenants
  import opened Buckets
  import PageSearch
  import Trees

  // ---- the catalog: bucket names and their root pages, eight bytes each ----

  ghost function Encoded(base: map<Name, PageId>): map<Key, Bytes> { map n | n in base :: Digits(base[n], 8) }

  ghost predicate CatOk(c: Store, b: Tenant, base: map<Name, PageId>) {
    && TenantOk(c, b) && Hist.RootDense(ShapeOf(b)) && Hist.AsMap(ShapeOf(b)) == Encoded(base)
    && forall n :: n in base ==> base[n] < WORD
  }

  lemma RootReads(r: PageId)
    requires r < WORD
    ensures Value(Digits(r, 8)) == r
  {
    Widths();
    ValueOfDigits(r, 8);
  }

  lemma EntryIs(es: seq<Entry>, k: Key, v: Bytes)
    requires Sorted(es) && Reads(es, k, v)
    ensures k in ToMap(AllRead(es)) && ToMap(AllRead(es))[k] == v
  {
    var i :| 0 <= i < |es| && es[i].key == k && AsRead(es[i].value) == v;
    AllReadSorted(es);
    hide Rank, ToMap, Sorted;
    ToMapAt(AllRead(es), i);
  }

  /** What a lookup in the catalog tree finds. */
  lemma CatFinds(c: Store, b: Tenant, base: map<Name, PageId>, name: Name, r: PageSearch.Found)
    requires CatOk(c, b, base)
    requires var es := Hist.Contents(ShapeOf(b));
      (r.Some? <==> Has(es, name)) && (r.Some? ==> Reads(es, name, r.value))
    ensures r.Some? <==> name in base
    ensures r.Some? ==> r.value == Digits(base[name], 8) && Value(r.value) == base[name]
  {
    hide Rank, ToMap, Has, Sorted, Hist.RootWf, Hist.RootDense, Hist.Contents, Stored, Digits, Value, Reads, AllRead;
    var es := Hist.Contents(ShapeOf(b));
    Hist.ContentsSorted(ShapeOf(b), ANY);
    AllReadHas(es, name);
    ToMapKeys(AllRead(es), name);
    if r.Some? {
      EntryIs(es, name, r.value);
      RootReads(base[name]);
    }
  }

  /** Names in the catalog are keys, and no longer than keys may be. */
  lemma CatNames(c: Store, b: Tenant, base: map<Name, PageId>)
    requires CatOk(c, b, base)
    ensures forall n :: n in base ==> |n| <= MAX_KEY
  {
    hide Rank, ToMap, Sorted, Hist.RootDense, Stored, Digits, Shape, Trees.Wf, Trees.Entries;
    var es := Hist.Contents(ShapeOf(b));
    if b.root != 0 { Trees.WfEntries(Shape(b.tree), ANY, Hist.Height(Shape(b.tree)), Trees.LOWEST, Trees.HIGHEST); }
    forall n | n in base ensures |n| <= MAX_KEY {
      assert n in Encoded(base);
      AllReadHas(es, n);
      ToMapKeys(AllRead(es), n);
    }
  }

  /** The pages besides the bucket trees: the catalog and the freelist chain. */
  ghost function Fixed(cat: Tenant, chain: seq<PageId>): multiset<PageId> { PagesOf(cat) + multiset(chain) }

  /** What a write replies, going by its key, its mode and whether the key is there. */
  ghost predicate Replies(es: seq<Entry>, key: Key, mode: Upd.Mode, u: BTrees.UpdateReply) {
    && (u.KeyTooBig? <==> |key| > MAX_KEY)
    && (|key| <= MAX_KEY ==>
        (u.KeyExists? <==> mode == Upd.Insert && Has(es, key))
        && (u.KeyNotFound? <==> mode == Upd.Update && !Has(es, key)))
  }

  /** What a delete in one tree replies and leaves, and when the transaction around it stays valid. */
  ghost predicate Erases(before: Hist.Root, after: Hist.Root, key: Key, d: BTrees.DeleteReply, valid: bool) {
    && (d.NotFound? <==> !Has(Hist.Contents(before), key)) && (d.TooLarge? <==> Hist.DeleteRoot(before, key).Broken?)
    && (d.Found? ==> Hist.Contents(after) == Remove(Hist.Contents(before), key))
    && (d.NotFound? ==> after == before)
    && (!d.NotFound? ==> (Hist.SoundRoot(before, key) <==> d.Found? && valid))
    && (Hist.RootDense(before) && !d.TooLarge? ==> valid && Hist.RootDense(after))
  }

  /** At most how many pages a write takes at the end of the file: the overflow pages of the value, two for each level
      of the tree, and a new root. */
  ghost function PutPages(r: Hist.Root, value: Bytes): nat { ValuePages(value) + 2 * BTrees.Tall(r) + 3 }

  /** And a delete: one for the leaf, and two for each level above. */
  ghost function ErasePages(r: Hist.Root): nat { 2 * BTrees.Tall(r) + 1 }

  datatype LoadReply = Filled | NotEmpty | Rejected

  class Txn {
    const db: DB
    var buckets: map<Name, Record>
    ghost var cat: Tenant
    ghost var base: map<Name, PageId>
    ghost var trees: map<Name, Tenant>

    /** The catalog is as committed, every bucket the transaction sees is on its pages, and catalog, buckets
        and freelist chain together make up the pages in use. */
    ghost predicate Valid()
      reads this, db
    {
      && db.Open() && db.meta.catalogRoot == db.current.catalogRoot == cat.root
         && db.meta.freelistRoot == db.current.freelistRoot
      && CatOk(db.cache, cat, base) && AllOk(db.cache, trees)
      && Agree(base, buckets) && NowOf(base, buckets) == Roots(trees)
      && db.Live() == Fixed(cat, OldChain(db)) + AllPages(trees)
    }

    constructor (db: DB, ghost cat: Tenant, ghost base: map<Name, PageId>, ghost trees: map<Name, Tenant>)
      ensures this.db == db && buckets == map[] && this.cat == cat && this.base == base && this.trees == trees
    {
      this.db, buckets, this.cat, this.base, this.trees := db, map[], cat, base, trees;
    }

    /** catalogLookup. */
    method CatalogLookup(name: Name) returns (root: PageId, found: bool)
      requires Valid()
      ensures found <==> name in base
      ensures found ==> root == base[name]
    {
      hide Inv, DB.View, DB.Live, Stored, Shape, TreePages, Hist.RootWf, Hist.RootDense, Hist.Contents, AllOk,
           AllPages, NowOf, Agree, OldChain, Has, Digits, Value, Reads, Hist.AsMap, Encoded, TenantOk, ShapeOf,
           PagesOf;
      ghost var rest := multiset(OldChain(db)) + AllPages(trees);
      assert Fixed(cat, OldChain(db)) + AllPages(trees) == rest + PagesOf(cat);
      var bt := new BTrees.BTree(db, db.meta.catalogRoot, cat.tree);
      BTreeValid(bt, cat, rest);
      var r := bt.Search(name, ANY, rest);
      CatFinds(db.cache, cat, base, name, r);
      if r.Some? {
        return Value(r.value), true;
      }
      return 0, false;
    }

    /** lookupBucket finds exactly the buckets the transaction sees. */
    method LookupBucket(name: Name) returns (r: Reply)
      requires Valid()
      modifies this`buckets
      ensures Valid() && r == (if name in trees then Ok else BucketNotFound)
      ensures r == Ok ==> name in buckets && !buckets[name].dropped && buckets[name].root == trees[name].root
      ensures old(buckets.Keys) <= buckets.Keys <= old(buckets.Keys) + {name}
    {
      hide Inv, DB.View, DB.Live, CatOk, AllOk, AllPages, NowOf, Agree, OldChain, Fixed;
      Sees(base, buckets, name);
      if name in buckets {
        return if buckets[name].dropped then BucketNotFound else Ok;
      }
      var root, found := CatalogLookup(name);
      if !found {
        return BucketNotFound;
      }
      Recorded(base, buckets, name, Record(root, root, false, false));
      buckets := buckets[name := Record(root, root, false, false)];
      r := Ok;
    }

    /** CreateBucket: fails exactly if the transaction sees the bucket; otherwise it then sees an empty one. */
    method CreateBucket(name: Name) returns (r: Reply)
      requires Valid()
      modifies this`buckets, this`trees
      ensures Valid() && r == (if name in old(trees) then BucketExists else Ok)
      ensures trees == if r == Ok then old(trees)[name := Tenant(0, PLeaf(0, []))] else old(trees)
      ensures buckets.Keys <= old(buckets.Keys) + {name}
    {
      hide Inv, DB.View, DB.Live, CatOk, AllOk, AllPages, NowOf, Agree, OldChain, Fixed;
      Sees(base, buckets, name);
      NewTenant(db.cache, trees, name);
      if name in buckets {
        if !buckets[name].dropped {
          return BucketExists;
        }
        Recorded(base, buckets, name, buckets[name].(root := 0, dropped := false, created := true));
        buckets := buckets[name := buckets[name].(root := 0, dropped := false, created := true)];
      } else {
        var _, found := CatalogLookup(name);
        if found {
          return BucketExists;
        }
        Recorded(base, buckets, name, Record(0, 0, true, false));
        buckets := buckets[name := Record(0, 0, true, false)];
      }
      trees := trees[name := Tenant(0, PLeaf(0, []))];
      r := Ok;
    }

    /** DropBucket: fails exactly if the transaction does not see the bucket; otherwise exactly the pages of
        its tree are freed, and it is seen no more. */
    method DropBucket(name: Name) returns (r: Reply)
      requires Valid()
      modifies this`buckets, this`trees, db
      ensures Valid() && r == (if name in old(trees) then Ok else BucketNotFound) && trees == old(trees) - {name}
      ensures db.Live() + (if r == Ok then PagesOf(old(trees)[name]) else multiset{}) == old(db.Live())
      ensures db.Past() == old(db.Past()) && db.cache == old(db.cache) && db.meta == old(db.meta)
      ensures old(buckets.Keys) <= buckets.Keys <= old(buckets.Keys) + {name}
    {
      hide Inv, DB.View, DB.Live, DB.Past, DB.Still, CatOk, AllOk, AllPages, NowOf, Agree, OldChain, Fixed, PagesOf,
           TenantOk, ChainIn, Hist.Contents, Hist.RootWf, Shape, Stored, TreePages;
      r := LookupBucket(name);
      NoPages(trees, name);
      if r != Ok {
        return;
      }
      ghost var rest := Fixed(cat, OldChain(db)) + AllPages(trees - {name});
      OneOut(db.cache, Fixed(cat, OldChain(db)), trees, name);
      var bt := new BTrees.BTree(db, buckets[name].root, trees[name].tree);
      BTreeValid(bt, trees[name], rest);
      ReadPast(db);
      bt.FreeAll(ANY, rest);
      ReadPast(db);
      Recorded(base, buckets, name, buckets[name].(dropped := true));
      buckets := buckets[name := buckets[name].(dropped := true)];
      trees := trees - {name};
    }

    /** A write to a bucket changes what that bucket holds, and nothing else the transaction sees. */
    method Write(name: Name, key: Key, value: Bytes, mode: Upd.Mode) returns (r: Reply, u: BTrees.UpdateReply)
      requires Valid()
      modifies this`buckets, this`trees, db
      ensures Valid() && r == (if name in old(trees) then Ok else BucketNotFound) && db.Past() == old(db.Past())
      ensures db.meta.numPages <=
              old(db.meta.numPages) + (if r == Ok then PutPages(ShapeOf(old(trees)[name]), value) else 0)
      ensures r != Ok ==> trees == old(trees)
      ensures r == Ok ==> name in trees && trees - {name} == old(trees) - {name}
      ensures r == Ok ==>
                var es := old(Data(trees))[name];
                && Data(trees)[name] == (if u.Root? then WriteTo(es, key, value) else es)
                && Replies(es, key, mode, u)
      ensures r == Ok && old(Hist.RootDense(ShapeOf(trees[name]))) ==> Hist.RootDense(ShapeOf(trees[name]))
    {
      hide Inv, DB.View, DB.Live, DB.Past, DB.Still, CatOk, AllOk, AllPages, NowOf, Agree, OldChain, Fixed, PagesOf,
           TenantOk, Kept, Storable, Has, Put, Hist.Contents, Hist.RootDense, ShapeOf, Replies, ValuePages;
      u := BTrees.KeyTooBig;
      r := LookupBucket(name);
      if r != Ok {
        return;
      }
      ghost var b;
      u, b := WriteTree(name, key, value, mode);
      OneChanged(old(trees), name, b);
    }

    method WriteTree(name: Name, key: Key, value: Bytes, mode: Upd.Mode)
      returns (u: BTrees.UpdateReply, ghost b: Tenant)
      requires Valid()
      requires name in trees && name in buckets && !buckets[name].dropped && buckets[name].root == trees[name].root
      modifies this`buckets, this`trees, db
      ensures Valid() && db.Past() == old(db.Past()) && trees == old(trees)[name := b]
      ensures db.meta.numPages <= old(db.meta.numPages) + PutPages(ShapeOf(old(trees)[name]), value)
      ensures var es := Hist.Contents(ShapeOf(old(trees)[name]));
        && Hist.Contents(ShapeOf(b)) == (if u.Root? then WriteTo(es, key, value) else es)
        && Replies(es, key, mode, u)
      ensures Hist.RootDense(ShapeOf(old(trees)[name])) ==> Hist.RootDense(ShapeOf(b))
    {
      hide Inv, DB.View, DB.Live, DB.Past, DB.Still, CatOk, AllOk, AllPages, NowOf, Agree, OldChain, Fixed, PagesOf,
           TenantOk, Kept, Storable, Has, Put, Hist.Contents, Hist.RootDense, Hist.RootWf, Shape, Stored, TreePages,
           ChainIn, ShapeOf, Roots, ValuePages;
      ghost var fixed := Fixed(cat, OldChain(db));
      ghost var rest, c0 := fixed + AllPages(trees - {name}), db.cache;
      OneOut(db.cache, fixed, trees, name);
      var bt := new BTrees.BTree(db, buckets[name].root, trees[name].tree);
      BTreeValid(bt, trees[name], rest);
      ReadPast(db);
      AnyStorable(Entry(key, value));
      u := bt.Update(key, value, mode, ANY, rest);
      ReadPast(db);
      b := Tenant(bt.root, bt.tree);
      TenantValid(bt, b, rest);
      SetBucket(name, bt.root, b, fixed, c0);
    }

    /** A delete from a bucket, likewise. The transaction stays valid if and only if the delete is sound. */
    method Erase(name: Name, key: Key) returns (r: Reply, d: BTrees.DeleteReply)
      requires Valid()
      modifies this`buckets, this`trees, db
      ensures r == (if name in old(trees) then Ok else BucketNotFound) && db.Past() == old(db.Past())
      ensures r != Ok || d.NotFound? ==> Valid() && trees == old(trees)
      ensures db.meta.numPages <= old(db.meta.numPages) + (if r == Ok then ErasePages(ShapeOf(old(trees)[name])) else 0)
      ensures r == Ok ==> name in trees && trees - {name} == old(trees) - {name}
      ensures r == Ok ==> Erases(ShapeOf(old(trees)[name]), ShapeOf(trees[name]), key, d, Valid())
    {
      hide Inv, DB.View, DB.Live, DB.Past, DB.Still, CatOk, AllOk, AllPages, NowOf, Agree, OldChain, Fixed, PagesOf,
           TenantOk, Kept, ShapeOf, Erases;
      d := BTrees.NotFound(0);
      r := LookupBucket(name);
      if r != Ok {
        return;
      }
      ghost var b;
      d, b := EraseTree(name, key);
      OneChanged(old(trees), name, b);
      if d.NotFound? { assert old(trees)[name := old(trees)[name]] == old(trees); }
    }

    method EraseTree(name: Name, key: Key) returns (d: BTrees.DeleteReply, ghost b: Tenant)
      requires Valid() && name in trees
      requires name in buckets && !buckets[name].dropped && buckets[name].root == trees[name].root
      modifies this`buckets, this`trees, db
      ensures db.Past() == old(db.Past()) && trees == old(trees)[name := b]
      ensures Erases(ShapeOf(old(trees)[name]), ShapeOf(b), key, d, Valid())
      ensures d.NotFound? ==> Valid() && b == old(trees)[name]
      ensures db.meta.numPages <= old(db.meta.numPages) + ErasePages(ShapeOf(old(trees)[name]))
    {
      hide Inv, DB.View, DB.Live, DB.Past, DB.Still, CatOk, AllOk, AllPages, NowOf, Agree, OldChain, Fixed, PagesOf,
           TenantOk, Kept, Has, Remove, Hist.Contents, Hist.RootDense, Hist.RootWf, Shape, Stored, TreePages, ChainIn,
           ShapeOf, Roots, Hist.DeleteRoot, Hist.SoundRoot;
      ghost var fixed := Fixed(cat, OldChain(db));
      ghost var rest, c0 := fixed + AllPages(trees - {name}), db.cache;
      OneOut(db.cache, fixed, trees, name);
      var bt := new BTrees.BTree(db, buckets[name].root, trees[name].tree);
      BTreeValid(bt, trees[name], rest);
      ReadPast(db);
      d := bt.Delete(key, ANY, rest);
      ReadPast(db);
      b := if d.TooLarge? then trees[name] else Tenant(bt.root, bt.tree);
      if d.TooLarge? {
        assert trees[name := b] == trees;
        return;
      }
      TenantOnPages(bt, b, rest);
      SetBucket(name, bt.root, b, fixed, c0);
      if Valid() { OneOut(db.cache, fixed, trees, name); }
    }

    /** A bucket's Get finds exactly what the bucket holds. */
    method Get(name: Name, key: Key) returns (r: Reply, v: PageSearch.Found)
      requires Valid()
      modifies this`buckets
      ensures Valid() && r == (if name in trees then Ok else BucketNotFound)
      ensures r == Ok ==>
                (v.Some? <==> Has(Data(trees)[name], key)) && (v.Some? ==> Reads(Data(trees)[name], key, v.value))
    {
      hide Inv, DB.View, DB.Live, CatOk, AllOk, AllPages, NowOf, Agree, OldChain, Fixed, PagesOf, TenantOk, Has,
           Reads, Hist.Contents, ShapeOf;
      v := PageSearch.None;
      r := LookupBucket(name);
      if r != Ok {
        return;
      }
      ghost var fixed := Fixed(cat, OldChain(db));
      OneOut(db.cache, fixed, trees, name);
      var bt := new BTrees.BTree(db, buckets[name].root, trees[name].tree);
      BTreeValid(bt, trees[name], fixed + AllPages(trees - {name}));
      v := bt.Search(key, ANY, fixed + AllPages(trees - {name}));
    }

    /** A bulk load into an empty bucket: it then holds exactly the list. A bucket that is not empty refuses, and
        a list that is not accepted leaves the bucket empty, though pages may stay in use. */
    method LoadBucket(name: Name, es: seq<Entry>, target: nat) returns (r: Reply, o: LoadReply)
      requires Valid() && TB.Target(target)
      modifies this`buckets, this`trees, db
      ensures r == (if name in old(trees) then Ok else BucketNotFound) && db.Past() == old(db.Past())
      ensures db.Open() && db.meta.numPages <= old(db.meta.numPages) + BL.LoadPages(es, |es|)
      ensures r == Ok ==>
                o == if old(trees)[name].root != 0 then NotEmpty else if BL.Passing(es, |es|) then Filled else Rejected
      ensures r != Ok || o == NotEmpty ==> Valid() && trees == old(trees)
      ensures r == Ok && o == Rejected ==>
                trees == old(trees) && Fixed(cat, OldChain(db)) + AllPages(trees) <= db.Live()
      ensures r == Ok && o == Filled ==>
                && name in trees && trees - {name} == old(trees) - {name} && Data(trees)[name] == es
                   && (Sorted(es) ==> Valid())
    {
      hide Inv, DB.View, DB.Live, DB.Past, DB.Still, CatOk, AllOk, AllPages, NowOf, Agree, OldChain, Fixed, PagesOf,
           TenantOk, Kept, Hist.Contents, Hist.RootWf, ShapeOf, Sorted, BL.Passing, Stored, TreePages, Shape, ChainIn,
           TB.Filled, KeyOrder.KeysAfterFirst;
      o := NotEmpty;
      r := LookupBucket(name);
      if r != Ok || buckets[name].root != 0 {
        return;
      }
      ghost var fixed := Fixed(cat, OldChain(db));
      ghost var rest, c0 := fixed + AllPages(trees - {name}), db.cache;
      OneOut(db.cache, fixed, trees, name);
      var bt := new BTrees.BTree(db, 0, trees[name].tree);
      BTreeValid(bt, trees[name], rest);
      ReadPast(db);
      var ok := BL.Load(bt, es, target, rest);
      ReadPast(db);
      if !ok {
        NoTree(trees[name]);
        o := Rejected;
        return;
      }
      ghost var b := Tenant(bt.root, bt.tree);
      TenantOnPages(bt, b, rest);
      SetBucket(name, bt.root, b, fixed, c0);
      OneChanged(old(trees), name, b);
      o := Filled;
    }

    /** The tree of one bucket has been replaced by another on its own pages. */
    method SetBucket(name: Name, root: PageId, ghost b: Tenant, ghost fixed: multiset<PageId>, ghost c0: Store)
      requires db.Open() && db.meta.catalogRoot == db.current.catalogRoot == cat.root
               && db.meta.freelistRoot == db.current.freelistRoot
      requires CatOk(c0, cat, base) && AllOk(c0, trees) && Agree(base, buckets) && NowOf(base, buckets) == Roots(trees)
      requires name in trees && name in buckets && !buckets[name].dropped && b.root == root
               && fixed == Fixed(cat, OldChain(db))
      requires db.Live() == fixed + AllPages(trees - {name}) + PagesOf(b)
      requires Kept(c0, db.cache, fixed + AllPages(trees - {name}))
      modifies this`buckets, this`trees
      ensures trees == old(trees)[name := b] && (TenantOk(db.cache, b) ==> Valid())
    {
      hide Inv, DB.View, DB.Live, CatOk, AllOk, AllPages, NowOf, Agree, OldChain, Fixed, PagesOf, TenantOk, Kept;
      if TenantOk(db.cache, b) { OneIn(c0, db.cache, cat, base, OldChain(db), trees, name, b); }
      Recorded(base, buckets, name, buckets[name].(root := root));
      buckets := buckets[name := buckets[name].(root := root)];
      trees := trees[name := b];
    }
  }

  lemma NoTree(b: Tenant)
    requires b.root == 0
    ensures PagesOf(b) == multiset{}
  {
  }

  lemma OneOut(c: Store, fixed: multiset<PageId>, m: map<Name, Tenant>, n: Name)
    requires n in m && AllOk(c, m)
    ensures fixed + AllPages(m) == fixed + AllPages(m - {n}) + PagesOf(m[n])
    ensures TenantOk(c, m[n]) && AllOk(c, m - {n}) && Roots(m - {n}) == Roots(m) - {n}
  {
    hide AllPages, PagesOf, TenantOk;
    AllPagesSplit(m, n);
    AllOkLess(c, m, n);
  }

  lemma BTreeValid(bt: BTrees.BTree, b: Tenant, rest: multiset<PageId>)
    requires bt.root == b.root && bt.tree == b.tree && bt.db.Open() && TenantOk(bt.db.cache, b)
             && bt.db.Live() == rest + PagesOf(b)
    ensures bt.Valid(ANY, rest) && bt.Contents() == Hist.Contents(ShapeOf(b)) && bt.Shaped() == ShapeOf(b)
  {
    hide Inv, DB.View, DB.Live, Stored, Shape, TreePages, Hist.RootWf, Hist.Contents;
  }

  lemma TenantValid(bt: BTrees.BTree, b: Tenant, rest: multiset<PageId>)
    requires bt.Valid(ANY, rest) && b == Tenant(bt.root, bt.tree)
    ensures TenantOk(bt.db.cache, b) && bt.db.Live() == rest + PagesOf(b)
            && bt.Contents() == Hist.Contents(ShapeOf(b)) && bt.Shaped() == ShapeOf(b)
  {
    hide Inv, DB.View, DB.Live, Stored, Shape, TreePages, Hist.RootWf, Hist.Contents;
  }

  lemma TenantOnPages(bt: BTrees.BTree, b: Tenant, rest: multiset<PageId>)
    requires bt.OnPages(rest) && b == Tenant(bt.root, bt.tree)
    ensures TenantOk(bt.db.cache, b) <==> bt.Valid(ANY, rest)
    ensures bt.db.Live() == rest + PagesOf(b) && bt.Contents() == Hist.Contents(ShapeOf(b)) && bt.Shaped() == ShapeOf(b)
  {
    hide Inv, DB.View, DB.Live, Stored, Shape, TreePages, Hist.RootWf, Hist.Contents;
  }

  lemma OneChanged(m: map<Name, Tenant>, n: Name, b: Tenant)
    requires n in m
    ensures m[n := b] - {n} == m - {n} && Data(m[n := b])[n] == Hist.Contents(ShapeOf(b))
            && Data(m)[n] == Hist.Contents(ShapeOf(m[n]))
  {
  }

  ghost function ChainIn(current: Meta, versions: map<nat, Version>): seq<PageId> {
    if current.txnID in versions then versions[current.txnID].chain else []
  }

  lemma ChainIs(db: DB)
    ensures OldChain(db) == ChainIn(db.current, db.versions)
  {
  }

  /** What the transaction started from, read off the part of the database it does not change. */
  lemma ReadPast(db: DB)
    ensures var past := db.Past();
      db.current == past.0 && db.versions == past.2 && OldChain(db) == ChainIn(past.0, past.2)
          && db.meta.freelistRoot == past.5 && db.meta.catalogRoot == past.6
  {
  }

  /** The catalog and the other buckets are untouched by a change that keeps the pages around one bucket. */
  lemma OneIn(c0: Store, c1: Store, cat: Tenant, base: map<Name, PageId>, chain: seq<PageId>, m: map<Name, Tenant>,
              n: Name, b: Tenant)
    requires CatOk(c0, cat, base) && AllOk(c0, m) && n in m && TenantOk(c1, b)
             && Kept(c0, c1, Fixed(cat, chain) + AllPages(m - {n}))
    ensures CatOk(c1, cat, base) && AllOk(c1, m[n := b]) && Roots(m[n := b]) == Roots(m)[n := b.root]
    ensures Fixed(cat, chain) + AllPages(m - {n}) + PagesOf(b) == Fixed(cat, chain) + AllPages(m[n := b])
  {
    hide AllPages, PagesOf, TenantOk, Kept, Encoded, Hist.RootDense, Hist.AsMap;
    var rest := Fixed(cat, chain) + AllPages(m - {n});
    TenantKept(c0, c1, cat, rest);
    AllOkLess(c0, m, n);
    AllKept(c0, c1, m - {n}, rest);
    AllOkPut(c1, m, n, b);
    AllPagesPut(m, n, b);
  }

  lemma NewTenant(c: Store, m: map<Name, Tenant>, n: Name)
    requires AllOk(c, m)
    ensures n !in m ==>
              var m' := m[n := Tenant(0, PLeaf(0, []))];
              AllOk(c, m') && AllPages(m') == AllPages(m) && Roots(m') == Roots(m)[n := 0]
  {
    hide AllPages;
    NoPages(m, n);
    AllPagesPut(m, n, Tenant(0, PLeaf(0, [])));
    AllOkPut(c, m, n, Tenant(0, PLeaf(0, [])));
  }

  // ---- applying the changes to the catalog ----

  /** NameTooLong: the catalog refuses the name, and the commit is given up. TooLarge: a delete in the
      catalog had to put more into a page than fits. OutOfIds: page ids no longer fit eight bytes. */
  datatype Applies = Done | NameTooLong | TooLarge | OutOfIds

  lemma EncodedPut(m: map<Name, PageId>, n: Name, r: PageId)
    ensures Encoded(m[n := r]) == Encoded(m)[n := Digits(r, 8)] && Encoded(m - {n}) == Encoded(m) - {n}
  {
    hide Digits;
  }

  /** The catalog tree holds these roots, beside the pages in rest. */
  ghost predicate Catalogs(bt: BTrees.BTree, roots: map<Name, PageId>, rest: multiset<PageId>)
    reads bt, bt.db
  {
    bt.Valid(ANY, rest) && Hist.RootDense(bt.Shaped()) && Hist.AsMap(bt.Shaped()) == Encoded(roots)
  }

  /** Set the root of one name in the catalog. */
  method PutRoot(bt: BTrees.BTree, name: Name, root: PageId, ghost roots: map<Name, PageId>,
                 ghost rest: multiset<PageId>) returns (ok: bool)
    requires Catalogs(bt, roots, rest)
    modifies bt, bt.db
    ensures ok <==> |name| <= MAX_KEY
    ensures Catalogs(bt, if ok then roots[name := root] else roots, rest)
    ensures Kept(old(bt.db.cache), bt.db.cache, rest) && bt.db.Past() == old(bt.db.Past())
    ensures ok ==> Hist.UpdateRoot(old(bt.Shaped()), name, Digits(root, 8), Upd.Upsert) == Hist.Ok(bt.Shaped())
  {
    hide Inv, DB.View, DB.Live, DB.Past, DB.Still, Kept, Storable, Has, Put, Hist.Contents, Hist.RootDense,
         Hist.RootWf, Hist.UpdateRoot, Shape, Stored, TreePages, Digits, ToMap, Encoded;
    AnyStorable(Entry(name, Digits(root, 8)));
    Hist.ContentsSorted(bt.Shaped(), ANY);
    WriteIsUpdate(bt.Contents(), name, Digits(root, 8));
    Short(Digits(root, 8));
    EncodedPut(roots, name, root);
    var r := bt.Update(name, Digits(root, 8), Upd.Upsert, ANY, rest);
    ok := r != BTrees.KeyTooBig;
  }

  /** Take one name out of the catalog. */
  method DropRoot(bt: BTrees.BTree, name: Name, ghost roots: map<Name, PageId>, ghost rest: multiset<PageId>)
    returns (ok: bool)
    requires Catalogs(bt, roots, rest)
    modifies bt, bt.db
    ensures ok <==> !Hist.DeleteRoot(old(bt.Shaped()), name).Broken?
    ensures ok ==> Catalogs(bt, roots - {name}, rest) && Kept(old(bt.db.cache), bt.db.cache, rest)
    ensures ok ==> bt.Shaped() == Left(old(bt.Shaped()), Hist.DeleteRoot(old(bt.Shaped()), name))
    ensures bt.db.Past() == old(bt.db.Past())
  {
    hide Inv, DB.View, DB.Live, DB.Past, DB.Still, Kept, Has, Remove, Hist.Contents, Hist.RootDense, Hist.RootWf,
         Shape, Stored, TreePages, ToMap, Encoded, Hist.DeleteRoot, Sorted;
    Hist.ContentsSorted(bt.Shaped(), ANY);
    RemoveFromMap(bt.Contents(), name);
    NothingToRemove(bt.Contents(), name);
    EncodedPut(roots, name, 0);
    var r := bt.Delete(name, ANY, rest);
    ok := !r.TooLarge?;
  }

  lemma {:induction false} NothingToRemove(es: seq<Entry>, k: Key)
    ensures !Has(es, k) ==> Remove(es, k) == es
  {
    if es != [] && !Has(es, k) {
      assert Has([es[0]] + es[1..], k) <==> es[0].key == k || Has(es[1..], k);
      NothingToRemove(es[1..], k);
    }
  }

  /** A record whose name the catalog refuses. */
  ghost predicate Refused(cached: map<Name, Record>, n: Name) {
    n in cached && !cached[n].dropped && (cached[n].created || cached[n].root != cached[n].origRoot) && |n| > MAX_KEY
  }

  /** A record that takes its name out of the catalog. */
  ghost predicate Removes(cached: map<Name, Record>, n: Name) {
    n in cached && cached[n].dropped && cached[n].origRoot != 0
  }

  /** The tree a delete leaves. */
  ghost function Left(r: Hist.Root, d: Hist.Deletion): Hist.Root { if d.Removed? then d.root else r }

  datatype Played = Fine(root: Hist.Root) | Stuck

  /** What one record does to the catalog tree: a delete, a write, or nothing; it is stuck if the delete fails. */
  ghost function PlayOne(r: Hist.Root, n: Name, b: Record): Played {
    if b.dropped && b.origRoot != 0 then
      if Hist.DeleteRoot(r, n).Broken? then Stuck else Fine(Left(r, Hist.DeleteRoot(r, n)))
    else if !b.dropped && (b.created || b.root != b.origRoot) then
      var o := Hist.UpdateRoot(r, n, Digits(b.root, 8), Upd.Upsert);
      Fine(if o.Ok? then o.root else r)
    else Fine(r)
  }

  /** The records one after another. */
  ghost function Play(r: Hist.Root, cached: map<Name, Record>, order: seq<Name>): Played
    decreases |order|
  {
    if order == [] || order[0] !in cached then Fine(r)
    else
      var p := PlayOne(r, order[0], cached[order[0]]);
      if p.Stuck? then Stuck else Play(p.root, cached, order[1..])
  }

  lemma {:induction false} PlayNext(r: Hist.Root, cached: map<Name, Record>, order: seq<Name>, n: Name)
    requires (forall x :: x in order ==> x in cached) && n in cached && Play(r, cached, order).Fine?
    ensures Play(r, cached, order + [n]) == PlayOne(Play(r, cached, order).root, n, cached[n])
    decreases |order|
  {
    hide PlayOne;
    if order == [] {
      assert ([] + [n])[1..] == [];
    } else {
      PlayNext(PlayOne(r, order[0], cached[order[0]]).root, cached, order[1..], n);
      assert (order + [n])[1..] == order[1..] + [n];
    }
  }

  /** Names of records, each once. */
  ghost predicate InTurn(cached: map<Name, Record>, order: seq<Name>) {
    && (forall n :: n in order ==> n in cached)
    && (forall i, j :: 0 <= i < j < |order| ==> order[i] != order[j])
  }

  /** One record of applyBucketChanges. */
  method ApplyOne(bt: BTrees.BTree, name: Name, b: Record, ghost base: map<Name, PageId>,
                  ghost cached: map<Name, Record>, ghost done: set<Name>,
                  ghost rest: multiset<PageId>)
    returns (r: Applies)
    requires Agree(base, cached) && done <= cached.Keys && name in cached && name !in done && b == cached[name]
    requires Catalogs(bt, Applied(base, cached, done), rest) && Kept(bt.db.cache, bt.db.cache, rest)
    modifies bt, bt.db
    ensures r == Done ==> Catalogs(bt, Applied(base, cached, done + {name}), rest)
    ensures r != TooLarge ==> bt.db.Open() && Kept(old(bt.db.cache), bt.db.cache, rest)
    ensures r == NameTooLong <==> Refused(cached, name)
    ensures (r == TooLarge <==> Removes(cached, name) && Hist.DeleteRoot(old(bt.Shaped()), name).Broken?)
            && r != OutOfIds
    ensures r == Done ==> PlayOne(old(bt.Shaped()), name, b) == Fine(bt.Shaped())
    ensures bt.db.Past() == old(bt.db.Past())
  {
    hide Inv, DB.View, DB.Live, DB.Past, DB.Still, Kept, Applied, Agree, Hist.RootDense, Hist.RootWf, Hist.AsMap,
         Encoded, Stored, Shape, TreePages, Hist.DeleteRoot, Hist.UpdateRoot, Digits;
    OneApplied(base, cached, done, name);
    if b.dropped {
      if b.origRoot == 0 {
        return Done; // created and dropped in this transaction, or so it seems
      }
      var ok := DropRoot(bt, name, Applied(base, cached, done), rest);
      return if ok then Done else TooLarge;
    }
    if b.created || b.root != b.origRoot {
      var ok := PutRoot(bt, name, b.root, Applied(base, cached, done), rest);
      return if ok then Done else NameTooLong;
    }
    r := Done;
  }

  /** applyBucketChanges, record after record in whatever order they come up. */
  method ApplyAll(bt: BTrees.BTree, cached: map<Name, Record>, ghost base: map<Name, PageId>,
                  ghost rest: multiset<PageId>)
    returns (r: Applies, ghost order: seq<Name>)
    requires Agree(base, cached) && Catalogs(bt, base, rest) && Kept(bt.db.cache, bt.db.cache, rest)
    modifies bt, bt.db
    ensures r == Done ==> Catalogs(bt, Applied(base, cached, cached.Keys), rest)
    ensures r != TooLarge ==> bt.db.Open() && Kept(old(bt.db.cache), bt.db.cache, rest)
    ensures r == NameTooLong ==> exists n :: Refused(cached, n)
    ensures r == Done ==> forall n :: !Refused(cached, n)
    ensures (r == TooLarge ==> exists n :: Removes(cached, n)) && r != OutOfIds
    ensures InTurn(cached, order) && (r == TooLarge <==> Play(old(bt.Shaped()), cached, order).Stuck?)
    ensures r == Done ==>
              (forall n :: n in cached ==> n in order) && Play(old(bt.Shaped()), cached, order) == Fine(bt.Shaped())
    ensures bt.db.Past() == old(bt.db.Past())
  {
    hide Inv, DB.View, DB.Live, DB.Past, DB.Still, Kept, Applied, Agree, Catalogs, Hist.DeleteRoot, Play,
         BTrees.BTree.Shaped;
    ghost var start := bt.Shaped();
    order := [];
    NonePlayed(start, cached);
    var todo := cached.Keys;
    NoneApplied(base, cached);
    ghost var done: set<Name> := {};
    ghost var db := bt.db;
    OpenCatalog(bt, base, rest);
    r := Done;
    while todo != {}
      invariant todo <= cached.Keys && done == cached.Keys - todo && db.Open()
      invariant Catalogs(bt, Applied(base, cached, done), rest)
      invariant Kept(old(db.cache), db.cache, rest) && Kept(db.cache, db.cache, rest) && db.Past() == old(db.Past())
      invariant forall n :: n in done ==> !Refused(cached, n)
      invariant InTurn(cached, order) && (forall n :: n in order <==> n in done)
                && Play(start, cached, order) == Fine(bt.Shaped())
      decreases todo
    {
      var name :| name in todo;
      ghost var c := db.cache;
      PlayNext(start, cached, order, name);
      OnceMore(cached, order, name);
      order := order + [name];
      r := ApplyOne(bt, name, cached[name], base, cached, done, rest);
      if r == TooLarge {
        return;
      }
      KeptTrans(old(db.cache), c, db.cache, rest, rest);
      if r == NameTooLong {
        return;
      }
      KeptSame(c, db.cache, rest);
      todo, done := todo - {name}, done + {name};
    }
    assert done == cached.Keys;
    r := Done;
  }

  lemma NonePlayed(r: Hist.Root, cached: map<Name, Record>)
    ensures Play(r, cached, []) == Fine(r) && InTurn(cached, [])
  {
  }

  lemma OnceMore(cached: map<Name, Record>, order: seq<Name>, n: Name)
    requires InTurn(cached, order) && n in cached && n !in order
    ensures InTurn(cached, order + [n])
  {
  }

  lemma OpenCatalog(bt: BTrees.BTree, roots: map<Name, PageId>, rest: multiset<PageId>)
    requires Catalogs(bt, roots, rest)
    ensures bt.db.Open()
  {
    hide Inv;
  }

  lemma KeptSame(c0: Store, c1: Store, m: multiset<PageId>)
    requires Kept(c0, c1, m)
    ensures Kept(c1, c1, m)
  {
  }
}
