/** Many trees on one set of pages: a tree for each name, and the pages all of them use. */
module Tenants {
  import opened Keys
  import opened OrderedMap
  import opened Layout
  import Hist = TreeHistory
  import opened Pages
  import opened Transactions
  import opened Placed
  import Snapshots

  type Name = Bytes

  /** A tree by its root page; root 0 is the empty tree. */
  datatype Tenant = Tenant(root: PageId, tree: PTree)

  ghost function ShapeOf(b: Tenant): Hist.Root { if b.root == 0 then Hist.Empty else Hist.At(Shape(b.tree)) }

  ghost function PagesOf(b: Tenant): multiset<PageId> { if b.root == 0 then multiset{} else TreePages(b.tree) }

  /** The store holds the tree, and it is well formed. */
  ghost predicate TenantOk(c: Store, b: Tenant) {
    && (b.root != 0 ==> b.tree.id == b.root && Stored(c, b.tree))
    && Hist.RootWf(ShapeOf(b), ANY)
  }

  ghost predicate AllOk(c: Store, m: map<Name, Tenant>) {
    forall n :: n in m ==> TenantOk(c, m[n])
  }

  /** The pages of all the trees, each as often as it is referenced. */
  ghost function AllPages(m: map<Name, Tenant>): multiset<PageId>
    decreases |m|
  {
    if m == map[] then multiset{} else
      var n :| n in m;
      PagesOf(m[n]) + AllPages(m - {n})
  }

  /** Any one of the trees may be singled out. */
  lemma {:induction false} AllPagesSplit(m: map<Name, Tenant>, n: Name)
    requires n in m
    ensures AllPages(m) == PagesOf(m[n]) + AllPages(m - {n})
    decreases |m|
  {
    hide PagesOf;
    var x :| x in m && AllPages(m) == PagesOf(m[x]) + AllPages(m - {x});
    if x != n {
      AllPagesSplit(m - {x}, n);
      AllPagesSplit(m - {n}, x);
      assert m - {x} - {n} == m - {n} - {x};
    }
  }

  lemma AllPagesPut(m: map<Name, Tenant>, n: Name, b: Tenant)
    ensures AllPages(m[n := b]) == PagesOf(b) + AllPages(m - {n})
  {
    hide PagesOf, AllPages;
    AllPagesSplit(m[n := b], n);
    assert m[n := b] - {n} == m - {n};
  }

  lemma NoPages(m: map<Name, Tenant>, n: Name)
    ensures n !in m ==> m - {n} == m
    ensures AllPages(map[]) == multiset{}
  {
  }

  lemma TenantKept(c0: Store, c1: Store, b: Tenant, m: multiset<PageId>)
    requires TenantOk(c0, b) && Kept(c0, c1, m) && PagesOf(b) <= m
    ensures TenantOk(c1, b)
  {
    hide Stored, TreePages, Kept, Hist.RootWf, Shape;
    if b.root != 0 { StoredKept(c0, c1, b.tree, m); }
  }

  lemma AllKept(c0: Store, c1: Store, m: map<Name, Tenant>, rest: multiset<PageId>)
    requires AllOk(c0, m) && Kept(c0, c1, rest) && AllPages(m) <= rest
    ensures AllOk(c1, m)
  {
    hide TenantOk, Kept, PagesOf, AllPages;
    forall n | n in m ensures TenantOk(c1, m[n]) {
      AllPagesSplit(m, n);
      TenantKept(c0, c1, m[n], rest);
    }
  }

  lemma AllOkPut(c: Store, m: map<Name, Tenant>, n: Name, b: Tenant)
    requires AllOk(c, m - {n}) && TenantOk(c, b)
    ensures AllOk(c, m[n := b])
  {
    hide TenantOk;
    forall x | x in m[n := b] && x != n ensures TenantOk(c, m[x]) { assert x in m - {n} && (m - {n})[x] == m[x]; }
  }

  lemma AllOkLess(c: Store, m: map<Name, Tenant>, n: Name)
    requires AllOk(c, m)
    ensures AllOk(c, m - {n})
  {
    hide TenantOk;
  }

  lemma AllInStore(image: Store, store: Store, m: map<Name, Tenant>)
    requires AllOk(image, m) && Keeps(store, image)
    ensures AllOk(store, m)
  {
    hide Stored, Keeps, Hist.RootWf, Shape;
    forall n | n in m ensures TenantOk(store, m[n]) {
      if m[n].root != 0 { Snapshots.TreeInStore(image, store, m[n].tree); }
    }
  }

  ghost function Roots(m: map<Name, Tenant>): map<Name, PageId> { map n | n in m :: m[n].root }

  /** What the trees hold, by name. */
  ghost function Data(m: map<Name, Tenant>): map<Name, seq<Entry>> { map n | n in m :: Hist.Contents(ShapeOf(m[n])) }
}
