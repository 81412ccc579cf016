/** Page ids and page contents, as the tree and the freelist see them. */
module Pages {
  import opened Keys

  type PageId = nat

  /** A leaf cell as stored: a value inline, or its length and the first page of its overflow chain. */
  datatype LeafCell = Inlined(key: Key, value: Bytes) | Spilled(key: Key, vallen: nat, first: PageId)

  datatype Page =
    | Blank
    | LeafPage(cells: seq<LeafCell>)
    | InternalPage(keys: seq<Key>, kids: seq<PageId>)
    | OverflowPage(next: PageId, chunk: Bytes)
    | FreelistPage(next: PageId, ids: seq<PageId>)

  type Store = map<PageId, Page>

  /** The store still has every page of an image, unchanged. */
  ghost predicate Keeps(store: Store, image: Store) {
    forall p :: p in image ==> p in store && store[p] == image[p]
  }

  /** The pages of a singly linked freelist chain, and the ids they list, in order. */
  ghost predicate Lists(store: Store, chain: seq<PageId>, ids: seq<PageId>) {
    if chain == [] then ids == []
    else
      && chain[0] in store && chain[0] != 0
      && store[chain[0]].FreelistPage?
      && store[chain[0]].next == Head(chain[1..])
      && |store[chain[0]].ids| <= |ids|
      && store[chain[0]].ids == ids[..|store[chain[0]].ids|]
      && Lists(store, chain[1..], ids[|store[chain[0]].ids|..])
  }

  function Head(chain: seq<PageId>): PageId { if chain == [] then 0 else chain[0] }

  lemma {:induction false} ListsKept(store: Store, store': Store, chain: seq<PageId>, ids: seq<PageId>)
    requires Lists(store, chain, ids)
    requires forall p :: p in chain ==> p in store' && (p in store ==> store'[p] == store[p])
    ensures Lists(store', chain, ids)
    decreases |chain|
  {
    if chain != [] {
      ListsKept(store, store', chain[1..], ids[|store[chain[0]].ids|..]);
    }
  }
}
