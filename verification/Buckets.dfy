/** Named buckets: the changes a transaction makes to them, and the catalog it commits. */
module Buckets {
  import opened Keys
  import opened OrderedMap
  import opened Layout
  import opened Values
  import Upd = TreeUpdate
  import Hist = TreeHistory
  import opened Pages
  import opened Protocol
  import opened Transactions
  import opened BTrees
  import opened Placed
  import PagePairs
  import opened Tenants

  // ---- one bucket: its root id tells whether it was changed ----

  class Bucket {
    const bt: BTree
    const origRoot: PageId
    ghost const orig: seq<Entry>
    ghost var touched: bool

    /** Until the first change the bucket is as committed. From then on its committed root page is no
        longer in use, and never will be again in this transaction. */
    ghost predicate Valid(q: Limits, rest: multiset<PageId>)
      reads this, bt, bt.db
    {
      && bt.Valid(q, rest)
      && (if origRoot == 0 then orig == [] else origRoot in InUse(bt.db.View()))
      && (touched && origRoot != 0 ==> origRoot !in bt.db.Still())
      && (!touched ==> bt.root == origRoot && bt.Contents() == orig)
    }

    constructor (bt: BTree)
      ensures this.bt == bt && origRoot == bt.root && orig == bt.Contents() && !touched
    {
      this.bt, origRoot, orig, touched := bt, bt.root, bt.Contents(), false;
    }

    /** Put, Insert and Update, by mode. */
    method Write(key: Key, value: Bytes, mode: Upd.Mode, ghost q: Limits, ghost rest: multiset<PageId>)
      returns (r: UpdateReply)
      requires Valid(q, rest) && (|key| <= MAX_KEY ==> Storable(Entry(key, value), q))
      modifies this, bt, bt.db
      ensures Valid(q, rest) && Kept(old(bt.db.cache), bt.db.cache, rest)
      ensures r.Root? ==> bt.Contents() == WriteTo(old(bt.Contents()), key, value)
      ensures !r.Root? ==> bt.Contents() == old(bt.Contents())
      ensures r.KeyTooBig? <==> |key| > MAX_KEY
      ensures |key| <= MAX_KEY ==> (r.KeyExists? <==> mode == Upd.Insert && Has(old(bt.Contents()), key))
      ensures |key| <= MAX_KEY ==> (r.KeyNotFound? <==> mode == Upd.Update && !Has(old(bt.Contents()), key))
      ensures old(Hist.RootDense(bt.Shaped())) ==> Hist.RootDense(bt.Shaped())
    {
      hide Inv, Kept, Stored, Placed.Shape, Hist.RootWf, Hist.RootDense, Hist.Contents, Storable, Put, Has, Reads,
           DB.Live, TreePages;
      r := bt.Update(key, value, mode, q, rest);
      if r.Root? && !Reads(old(bt.Contents()), key, value) { touched := true; }
    }

    /** Delete, on any bucket: it stays valid if and only if the delete is sound. */
    method Delete(key: Key, ghost q: Limits, ghost rest: multiset<PageId>) returns (r: DeleteReply)
      requires Valid(q, rest)
      modifies this, bt, bt.db
      ensures r.Found? ==> bt.Contents() == Remove(old(bt.Contents()), key)
      ensures r.NotFound? ==> Valid(q, rest) && bt.Contents() == old(bt.Contents())
      ensures (r.NotFound? <==> !Has(old(bt.Contents()), key))
              && (r.TooLarge? <==> Hist.DeleteRoot(old(bt.Shaped()), key).Broken?)
      ensures !r.TooLarge? ==> Kept(old(bt.db.cache), bt.db.cache, rest)
      ensures !r.NotFound? ==> (Hist.SoundRoot(old(bt.Shaped()), key) <==> r.Found? && Valid(q, rest))
      ensures old(Hist.RootDense(bt.Shaped())) && !r.TooLarge? ==> Valid(q, rest) && Hist.RootDense(bt.Shaped())
    {
      hide Inv, Kept, Stored, Placed.Shape, Hist.RootWf, Hist.RootDense, Hist.Contents, Has, Remove, Hist.DeleteRoot,
           DB.Live, TreePages, Hist.SoundRoot;
      r := bt.Delete(key, q, rest);
      if r.Found? { touched := true; }
    }
  }

  /** Comparing root ids finds every change: a bucket with its original root holds what it held. */
  lemma RootTells(b: Bucket, q: Limits, rest: multiset<PageId>)
    requires b.Valid(q, rest)
    ensures b.bt.Contents() != b.orig ==> b.bt.root != b.origRoot
  {
    hide Inv, Stored, Hist.RootWf, Hist.RootDense, Placed.Shape;
    if b.origRoot != 0 && b.bt.root == b.origRoot {
      PagePairs.PagesParts(b.bt.tree);
      hide TreePages;
      assert b.bt.db.Live()[b.bt.root] >= 1;
    }
  }

  // ---- the catalog ----

  /** A bucket the transaction has looked at: its root in the catalog, its root now, and what was done to it. */
  datatype Record = Record(origRoot: PageId, root: PageId, created: bool, dropped: bool)

  datatype Reply = Ok | BucketNotFound | BucketExists

  /** What the records make of the catalog: the transaction's own view. */
  ghost function NowOf(catalog: map<Name, PageId>, cached: map<Name, Record>): map<Name, PageId> {
    map n | n in catalog.Keys + cached.Keys && (n in cached ==> !cached[n].dropped) ::
        if n in cached then cached[n].root else catalog[n]
  }

  /** Records and catalog agree about what was there at the start. */
  ghost predicate Agree(catalog: map<Name, PageId>, cached: map<Name, Record>) {
    forall n :: n in cached ==>
      if n in catalog then catalog[n] == cached[n].origRoot else cached[n].origRoot == 0 && cached[n].created
  }

  /** A dropped bucket whose root in the catalog was 0: the commit takes it for one created and dropped in
      the same transaction, and leaves its entry in the catalog. */
  ghost function Overlooked(catalog: map<Name, PageId>, cached: map<Name, Record>): set<Name> {
    set n | n in cached && cached[n].dropped && cached[n].origRoot == 0 && n in catalog
  }

  /** The transaction sees a bucket it has not dropped, or one in the catalog it has not looked at. */
  lemma Sees(catalog: map<Name, PageId>, cached: map<Name, Record>, name: Name)
    ensures name in NowOf(catalog, cached) <==> if name in cached then !cached[name].dropped else name in catalog
    ensures name in NowOf(catalog, cached) && name !in cached ==> NowOf(catalog, cached)[name] == catalog[name]
    ensures name in NowOf(catalog, cached) && name in cached ==> NowOf(catalog, cached)[name] == cached[name].root
  {
  }

  /** A record that keeps the original root changes what the transaction sees of one bucket. */
  lemma Recorded(catalog: map<Name, PageId>, cached: map<Name, Record>, name: Name, b: Record)
    requires Agree(catalog, cached)
    requires if name in cached then b.origRoot == cached[name].origRoot && (cached[name].created ==> b.created)
             else if name in catalog then b.origRoot == catalog[name] else b.origRoot == 0 && b.created
    ensures Agree(catalog, cached[name := b])
    ensures NowOf(catalog, cached[name := b]) == if b.dropped then NowOf(catalog, cached) - {name}
            else NowOf(catalog, cached)[name := b.root]
    ensures name in NowOf(catalog, cached) && !b.dropped && NowOf(catalog, cached)[name] == b.root ==>
              NowOf(catalog, cached[name := b]) == NowOf(catalog, cached)
  {
  }

  lemma NoneApplied(catalog: map<Name, PageId>, cached: map<Name, Record>)
    ensures cached.Keys - cached.Keys == {} && Applied(catalog, cached, {}) == catalog
  {
  }

  /** The catalog once the records in done have been applied. */
  ghost function Applied(catalog: map<Name, PageId>, cached: map<Name, Record>, done: set<Name>): map<Name, PageId>
    requires done <= cached.Keys
  {
    map n | n in catalog.Keys + done && !(n in done && cached[n].dropped && (cached[n].origRoot != 0 || n !in catalog))
      :: if n in done && !cached[n].dropped then cached[n].root else if n in catalog then catalog[n] else 0
  }

  lemma OneApplied(catalog: map<Name, PageId>, cached: map<Name, Record>, done: set<Name>, name: Name)
    requires Agree(catalog, cached) && done <= cached.Keys && name in cached && name !in done
    ensures var b, before := cached[name], Applied(catalog, cached, done);
      Applied(catalog, cached, done + {name}) ==
        if b.dropped then (if b.origRoot != 0 then before - {name} else before)
        else if b.created || b.root != b.origRoot then before[name := b.root] else before
  {
  }

  lemma AllApplied(catalog: map<Name, PageId>, cached: map<Name, Record>)
    requires Agree(catalog, cached)
    ensures Applied(catalog, cached, cached.Keys) ==
            NowOf(catalog, cached) + map n | n in Overlooked(catalog, cached) :: 0
    ensures Applied(catalog, cached, cached.Keys) == NowOf(catalog, cached) <==> Overlooked(catalog, cached) == {}
  {
    var all, now, missed := Applied(catalog, cached, cached.Keys), NowOf(catalog, cached), Overlooked(catalog, cached);
    assert all.Keys == now.Keys + missed;
    assert now.Keys !! missed;
  }

  /** A committed bucket with root 0 that is looked up and dropped: the transaction no longer sees it, yet
      it is still in the catalog after the commit. */
  lemma DroppedEmptyBucketStays(n: Name)
    ensures var catalog: map<Name, PageId>, cached := map[n := 0], map[n := Record(0, 0, false, true)];
      Agree(catalog, cached) && NowOf(catalog, cached) == map[] && Applied(catalog, cached, cached.Keys) == catalog
  {
    var catalog: map<Name, PageId>, cached := map[n := 0], map[n := Record(0, 0, false, true)];
    assert Overlooked(catalog, cached) == {n};
    AllApplied(catalog, cached);
  }
}
