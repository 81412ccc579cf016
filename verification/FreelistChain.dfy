/** The freelist on disk: a chain of pages, each naming up to 510 free pages. */
module FreelistChain {
  import opened Pages

  /** Page ids that fit in one page after a 16-byte header. */
  const PER_PAGE: nat := (4096 - 16) / 8

  /** The pages of a chain, by following it. */
  method WalkChainIDs(store: Store, head: PageId, ghost chain: seq<PageId>, ghost ids: seq<PageId>)
    returns (r: seq<PageId>)
    requires Lists(store, chain, ids) && head == Head(chain)
    ensures r == chain
  {
    r := [];
    var id := head;
    ghost var left, names := chain, ids;
    while id != 0
      invariant Lists(store, left, names) && id == Head(left) && r + left == chain
      decreases |left|
    {
      r := r + [id];
      names := names[|store[id].ids|..];
      left := left[1..];
      id := store[id].next;
    }
  }

  /** The ids a chain lists, page after page. */
  method ReadFreelistChain(store: Store, head: PageId, ghost chain: seq<PageId>, ghost ids: seq<PageId>)
    returns (all: seq<PageId>)
    requires Lists(store, chain, ids) && head == Head(chain)
    ensures all == ids
  {
    all := [];
    var id := head;
    ghost var left, names := chain, ids;
    while id != 0
      invariant Lists(store, left, names) && id == Head(left) && all + names == ids
      decreases |left|
    {
      var page := store[id];
      all := all + page.ids;
      names := names[|page.ids|..];
      left := left[1..];
      id := page.next;
    }
  }

  /** Where page i of a chain begins in a list of n ids. */
  function Start(i: nat, n: nat): (s: nat)
    ensures s <= n
  {
    if i * PER_PAGE < n then i * PER_PAGE else n
  }

  lemma StartGrows(i: nat, n: nat)
    ensures Start(i, n) <= Start(i + 1, n)
  {
  }

  /** What page i of the chain is given. */
  function ChainPage(chain: seq<PageId>, ids: seq<PageId>, i: nat): Page
    requires i < |chain|
  {
    StartGrows(i, |ids|);
    FreelistPage(if i + 1 < |chain| then chain[i + 1] else 0, ids[Start(i, |ids|)..Start(i + 1, |ids|)])
  }

  /** Pages filled one after the other from an id list that they have room for list exactly those ids. */
  lemma {:induction false} FilledChain(store: Store, chain: seq<PageId>, ids: seq<PageId>, i: nat)
    requires i <= |chain| && Start(|chain|, |ids|) == |ids|
    requires forall j :: i <= j < |chain| ==>
               chain[j] != 0 && chain[j] in store && store[chain[j]] == ChainPage(chain, ids, j)
    ensures Lists(store, chain[i..], ids[Start(i, |ids|)..])
    decreases |chain| - i
  {
    hide Lists, Start;
    if i == |chain| {
      EmptyLists(store, chain, ids);
    } else {
      FilledChain(store, chain, ids, i + 1);
      var a, b := Start(i, |ids|), Start(i + 1, |ids|);
      StartGrows(i, |ids|);
      SliceParts(ids, a, b);
      assert chain[i..][1..] == chain[i + 1..];
      ListsCons(store, chain[i..], ids[a..], b - a);
    }
  }

  lemma EmptyLists(store: Store, chain: seq<PageId>, ids: seq<PageId>)
    ensures Lists(store, chain[|chain|..], ids[|ids|..])
  {
  }

  lemma SliceParts<T>(s: seq<T>, a: nat, b: nat)
    requires a <= b <= |s|
    ensures s[a..][..b - a] == s[a..b] && s[a..][b - a..] == s[b..]
  {
  }

  lemma ListsCons(store: Store, chain: seq<PageId>, ids: seq<PageId>, n: nat)
    requires chain != [] && chain[0] in store && chain[0] != 0 && n <= |ids|
    requires store[chain[0]] == FreelistPage(Head(chain[1..]), ids[..n]) && Lists(store, chain[1..], ids[n..])
    ensures Lists(store, chain, ids)
  {
  }

  /** A chain of k pages is neither too short for n ids nor so long that a page would start past them. */
  ghost predicate Sized(k: nat, n: nat) {
    n <= PER_PAGE * k && (k > 0 ==> PER_PAGE * (k - 1) <= n)
  }
}
