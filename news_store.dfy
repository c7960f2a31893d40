/** The news list kept in the key-value store under `news:list`
    (src/lib/news-store.ts). The store is an object whose one field is the
    value under that key: `None` while the key is absent. Reads, writes and
    their latency are those of this field; other keys are not modelled. */
module NewsStore {
  import opened Wrappers
  import opened Sorting

  datatype NewsItem = NewsItem(
    id: string,
    title: string,
    body: string,
    imageUrl: Option<string>,
    createdAt: int)

  /** The comparator of `listNews`: newer (larger `createdAt`) first. */
  predicate Newer(a: NewsItem, b: NewsItem) {
    a.createdAt >= b.createdAt
  }

  lemma NewerIsTotalPreorder()
    ensures TotalPreorder(Newer)
  {
  }

  /** The items newest first: what `listNews` returns for the list `items`. */
  function NewestFirst(items: seq<NewsItem>): (r: seq<NewsItem>)
    ensures multiset(r) == multiset(items)
    ensures SortedBy(r, Newer)
  {
    NewerIsTotalPreorder();
    SortBySorted(items, Newer);
    SortBy(items, Newer)
  }

  /** `current.filter(n => n.id !== id)`. */
  function RemoveId(items: seq<NewsItem>, id: string): (r: seq<NewsItem>)
    ensures |r| <= |items|
    ensures forall k :: 0 <= k < |r| ==> r[k].id != id
  {
    if items == [] then []
    else (if items[0].id == id then [] else [items[0]]) + RemoveId(items[1..], id)
  }

  /** Filtering a concatenation filters each part: the kept items stay in
      their order. */
  lemma {:induction false} RemoveIdAppend(a: seq<NewsItem>, b: seq<NewsItem>, id: string)
    ensures RemoveId(a + b, id) == RemoveId(a, id) + RemoveId(b, id)
  {
    if a != [] {
      assert (a + b)[1..] == a[1..] + b;
      RemoveIdAppend(a[1..], b, id);
    } else {
      assert a + b == b;
    }
  }

  /** Every item without the id is kept as often as it occurs, every item
      with it is dropped. */
  lemma {:induction false} RemoveIdCounts(items: seq<NewsItem>, id: string, x: NewsItem)
    ensures multiset(RemoveId(items, id))[x] == if x.id == id then 0 else multiset(items)[x]
  {
    if items != [] {
      RemoveIdCounts(items[1..], id, x);
      assert items == [items[0]] + items[1..];
    }
  }

  /** Deleting an id that no item has changes nothing. */
  lemma {:induction false} RemoveAbsentId(items: seq<NewsItem>, id: string)
    requires forall k :: 0 <= k < |items| ==> items[k].id != id
    ensures RemoveId(items, id) == items
  {
    if items != [] {
      RemoveAbsentId(items[1..], id);
      assert items == [items[0]] + items[1..];
    }
  }

  class KvNewsStore {
    /** The value under `news:list`; `None` while the key is absent. */
    var list: Option<seq<NewsItem>>

    constructor(stored: Option<seq<NewsItem>>)
      ensures list == stored
    {
      list := stored;
    }

    /** `(await kv.get(KEY)) || []`: a missing key reads as the empty list. */
    function Current(): seq<NewsItem>
      reads this
    {
      list.GetOr([])
    }

    /** `listNews`: the stored items, newest first; the store is not written. */
    method ListNews() returns (items: seq<NewsItem>)
      ensures multiset(items) == multiset(Current())
      ensures SortedBy(items, Newer)
    {
      items := NewestFirst(Current());
    }

    /** `addNews`: the stored list with `item` appended. */
    method AddNews(item: NewsItem)
      modifies this
      ensures list == Some(old(Current()) + [item])
      ensures Current()[..|Current()| - 1] == old(Current())
    {
      var current := Current();
      current := current + [item];
      list := Some(current);
    }

    /** `deleteNews`: the stored list without the items that have `id`. */
    method DeleteNews(id: string)
      modifies this
      ensures list == Some(RemoveId(old(Current()), id))
    {
      var current := Current();
      var next := RemoveId(current, id);
      list := Some(next);
    }
  }
}
