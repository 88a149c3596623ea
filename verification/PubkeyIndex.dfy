/** The paged key index: appending on chain, iterating in the client, and the flat list both stand for. */
module PubkeyIndex {
  import opened Base

  datatype Page = Page(initialized: bool, keys: seq<User>, space: nat)

  /** The page accounts that exist, by page id. */
  type Pages = map<nat, Page>

  /** Discriminator, bump, flag, vector length, and 32 bytes a key. */
  function Space(len: nat): nat {
    8 + 6 + len * 32
  }

  function PageId(totalKeys: nat, pageSize: nat): nat
    requires pageSize > 0
  {
    totalKeys / pageSize
  }

  function IndexPubkey(pages: Pages, pageId: nat, key: User): Pages {
    var page := if pageId in pages then pages[pageId] else Page(false, [], Space(1));
    var sized := if page.initialized then page.(space := Space(|page.keys| + 1)) else page.(initialized := true);
    pages[pageId := sized.(keys := sized.keys + [key])]
  }

  class IndexPages {
    var pages: Pages

    constructor ()
      ensures pages == map[]
    {
      pages := map[];
    }

    method Append(pageId: nat, key: User)
      modifies this
      ensures pages == IndexPubkey(old(pages), pageId, key)
    {
      if pageId !in pages {
        pages := pages[pageId := Page(false, [], Space(1))];
      }
      var page := pages[pageId];
      if !page.initialized {
        page := page.(initialized := true);
      } else {
        page := page.(space := Space(|page.keys| + 1));
      }
      page := page.(keys := page.keys + [key]);
      pages := pages[pageId := page];
    }
  }

  /** The position of the first key of page `p`. */
  function PageStart(p: nat, pageSize: nat): nat {
    p * pageSize
  }

  /** Page p exists while the list reaches it, and holds exactly its slice of the list in an account of
      exactly its size: 14 bytes and 32 a key. */
  ghost predicate IsIndexOf(pages: Pages, flat: seq<User>, pageSize: nat) {
    && pageSize > 0
    && forall p: nat :: PageCorrect(pages, flat, pageSize, p)
  }

  ghost predicate PageCorrect(pages: Pages, flat: seq<User>, pageSize: nat, p: nat) {
    && (p in pages <==> PageStart(p, pageSize) < |flat|)
    && (p in pages ==>
          HoldsSlice(pages[p], flat, PageStart(p, pageSize), Min(PageStart(p, pageSize) + pageSize, |flat|)))
  }

  predicate HoldsSlice(page: Page, flat: seq<User>, lo: nat, hi: nat) {
    && lo <= hi <= |flat|
    && page.initialized && page.keys == flat[lo..hi] && page.space == 14 + 32 * (hi - lo)
  }

  lemma {:induction false} PagesOrdered(p: nat, q: nat, pageSize: nat)
    requires p < q
    ensures PageStart(p, pageSize) + pageSize <= PageStart(q, pageSize)
    decreases q
  {
    assert PageStart(q, pageSize) == PageStart(q - 1, pageSize) + pageSize;
    if p < q - 1 {
      PagesOrdered(p, q - 1, pageSize);
    }
  }

  lemma PositionInPage(i: nat, pageSize: nat)
    requires pageSize > 0
    ensures i == PageStart(i / pageSize, pageSize) + i % pageSize && i % pageSize < pageSize
  {
  }

  lemma PageOfPosition(i: nat, pageSize: nat, q: nat)
    requires PageStart(q, pageSize) <= i < PageStart(q, pageSize) + pageSize
    ensures i / pageSize == q
  {
    PositionInPage(i, pageSize);
    if q < i / pageSize {
      PagesOrdered(q, i / pageSize, pageSize);
    } else if i / pageSize < q {
      PagesOrdered(i / pageSize, q, pageSize);
    }
  }

  /** Recording the next key at the page the counter selects appends it to the list: existing entries keep
      their place and no page is skipped. */
  lemma AppendKeepsIndex(pages: Pages, flat: seq<User>, pageSize: nat, key: User)
    requires IsIndexOf(pages, flat, pageSize)
    ensures IsIndexOf(IndexPubkey(pages, PageId(|flat|, pageSize), key), flat + [key], pageSize)
  {
    var id := PageId(|flat|, pageSize);
    PositionInPage(|flat|, pageSize);
    var after, longer := IndexPubkey(pages, id, key), flat + [key];
    forall p: nat ensures PageCorrect(after, longer, pageSize, p) {
      assert PageCorrect(pages, flat, pageSize, p);
      if p < id {
        PagesOrdered(p, id, pageSize);
        OldPageKept(flat, key, PageStart(p, pageSize), PageStart(p, pageSize) + pageSize);
      } else if p > id {
        PagesOrdered(id, p, pageSize);
      } else {
        AppendToPage(pages, flat, pageSize, key, id);
      }
    }
  }

  lemma OldPageKept(flat: seq<User>, key: User, lo: nat, hi: nat)
    requires lo <= hi <= |flat|
    ensures (flat + [key])[lo..hi] == flat[lo..hi]
  {
  }

  lemma AppendToPage(pages: Pages, flat: seq<User>, pageSize: nat, key: User, id: nat)
    requires PageCorrect(pages, flat, pageSize, id)
    requires PageStart(id, pageSize) <= |flat| < PageStart(id, pageSize) + pageSize
    ensures HoldsSlice(IndexPubkey(pages, id, key)[id], flat + [key], PageStart(id, pageSize), |flat| + 1)
  {
    var lo := PageStart(id, pageSize);
    assert (flat + [key])[lo..|flat| + 1] == flat[lo..] + [key];
    if id in pages {
      assert pages[id].keys == flat[lo..|flat|];
    } else {
      assert lo == |flat|;
    }
  }

  /** The entry the client looks up for position `i`. */
  function Entry(pages: Pages, pageSize: nat, i: nat): User
    requires pageSize > 0
  {
    var id := PageId(i, pageSize);
    if id in pages && i % pageSize < |pages[id].keys| then pages[id].keys[i % pageSize] else 0
  }

  function Entries(pages: Pages, pageSize: nat, total: nat): (r: seq<User>)
    requires pageSize > 0
    ensures |r| == total && forall i :: 0 <= i < total ==> r[i] == Entry(pages, pageSize, i)
  {
    seq(total, i requires 0 <= i < total => Entry(pages, pageSize, i))
  }

  lemma EntryIsFlat(pages: Pages, flat: seq<User>, pageSize: nat, i: nat)
    requires IsIndexOf(pages, flat, pageSize) && i < |flat|
    ensures var id := PageId(i, pageSize);
            id in pages && i % pageSize < |pages[id].keys| && pages[id].keys[i % pageSize] == flat[i]
  {
    PositionInPage(i, pageSize);
    assert PageCorrect(pages, flat, pageSize, PageId(i, pageSize));
  }

  lemma EntriesAreFlat(pages: Pages, flat: seq<User>, pageSize: nat)
    requires IsIndexOf(pages, flat, pageSize)
    ensures Entries(pages, pageSize, |flat|) == flat
  {
    forall i | 0 <= i < |flat| ensures Entry(pages, pageSize, i) == flat[i] {
      EntryIsFlat(pages, flat, pageSize, i);
    }
  }

  /** Inside a page the previous position has the same page. */
  lemma SamePage(i: nat, pageSize: nat)
    requires pageSize > 0 && i % pageSize != 0
    ensures i > 0 && PageId(i - 1, pageSize) == PageId(i, pageSize)
  {
    PositionInPage(i, pageSize);
    PageOfPosition(i - 1, pageSize, PageId(i, pageSize));
  }

  /** The client's iterator: it fetches a page only when a position starts one. A missing page or key is a
      failed fetch. */
  method GetIndexedKeys(pages: Pages, totalKeys: nat, pageSize: nat, ghost flat: seq<User>)
    returns (r: Result<seq<User>>)
    requires pageSize > 0
    ensures IsIndexOf(pages, flat, pageSize) && totalKeys == |flat| ==> r == Ok(flat)
    ensures r.Ok? ==> |r.value| == totalKeys
  {
    ghost var indexed := IsIndexOf(pages, flat, pageSize) && totalKeys == |flat|;
    var yielded: seq<User> := [];
    var page := Page(false, [], 0);
    var i := 0;
    while i < totalKeys
      invariant i <= totalKeys && |yielded| == i
      invariant indexed && i > 0 ==> PageId(i - 1, pageSize) in pages && page == pages[PageId(i - 1, pageSize)]
      invariant indexed ==> yielded == flat[..i]
    {
      var pageId, within := PageId(i, pageSize), i % pageSize;
      if indexed {
        EntryIsFlat(pages, flat, pageSize, i);
      }
      if within == 0 {
        if pageId !in pages {
          return Err(AccountNotInitialized);
        }
        page := pages[pageId];
      } else {
        SamePage(i, pageSize);
      }
      if within >= |page.keys| {
        return Err(Panicked);
      }
      yielded := yielded + [page.keys[within]];
      i := i + 1;
    }
    if indexed {
      assert flat[..i] == flat;
    }
    r := Ok(yielded);
  }
}
