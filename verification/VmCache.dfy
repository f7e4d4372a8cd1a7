/**
  A VM cache's resident pages (cache/mm_cache.cpp, mm_cache.h).  A page names
  its cache through a shared VMCacheRef object, so that moving all pages of a
  cache is O(1): the caches swap their trees and their refs.  Page indices are
  in pages; the page tree is a map.
*/
module VmCache {

  class CacheRef {
    var cache: Cache?

    constructor ()
      ensures cache == null
    {
      cache := null;
    }
  }

  class Page {
    var ref: CacheRef?
    var offset: int       // cache_offset
    var wired: nat        // wired_count

    constructor (wired: nat)
      ensures ref == null && this.wired == wired
    {
      ref := null;
      offset := 0;
      this.wired := wired;
    }
  }

  ghost function Wired(pages: map<int, Page>): set<int>
    reads pages.Values`wired
  {
    set o | o in pages && pages[o].wired > 0
  }

  /** Pages of `upper`, and those of `lower` that nothing in `upper` shadows. */
  function Union<P>(upper: map<int, P>, lower: map<int, P>): (m: map<int, P>)
    ensures m.Keys == upper.Keys + lower.Keys
    ensures forall o | o in upper :: m[o] == upper[o]
    ensures forall o | o in lower && o !in upper :: m[o] == lower[o]
  {
    lower + upper
  }

  /** The pages of `lower` that `upper` shadows. */
  function ShadowedPages<P>(upper: map<int, P>, lower: map<int, P>): map<int, P> {
    map o | o in lower && o in upper :: lower[o]
  }

  class Cache {
    var ref: CacheRef
    var pages: map<int, Page>
    var pageCount: nat
    var wiredPages: nat

    constructor ()
      ensures Valid() && fresh(ref) && pages == map[]
    {
      var r := new CacheRef();
      ref := r;
      pages := map[];
      pageCount := 0;
      wiredPages := 0;
      new;
      r.cache := this;
    }

    /** Every page in the tree names this cache, at the offset it is filed under; both counters are exact. */
    ghost predicate Valid()
      reads this, ref, pages.Values
    {
      && ref.cache == this
      && (forall o | o in pages :: pages[o].ref == ref && pages[o].offset == o)
      && pageCount == |pages|
      && wiredPages == |Wired(pages)|
    }

    method InsertPage(page: Page, o: int)
      requires Valid() && page.ref == null && o !in pages
      modifies this, page
      ensures Valid() && pages == old(pages)[o := page] && ref == old(ref)
      ensures page.ref == ref && page.wired == old(page.wired)
    {
      hide Wired;
      WithPage(pages, o, page);
      assert forall k | k in pages :: pages[k] != page;
      page.offset := o;
      pageCount := pageCount + 1;
      page.ref := ref;
      pages := pages[o := page];
      if page.wired > 0 {
        wiredPages := wiredPages + 1;
      }
    }

    method RemovePage(page: Page)
      requires Valid() && page.offset in pages && pages[page.offset] == page
      modifies this, page
      ensures Valid() && pages == old(pages) - {old(page.offset)} && ref == old(ref)
      ensures page.ref == null && page.wired == old(page.wired)
    {
      hide Wired;
      var o := page.offset;
      WithoutPage(pages, o);
      assert forall k | k in pages && k != o :: pages[k] != page;
      pages := pages - {o};
      pageCount := pageCount - 1;
      page.ref := null;
      if page.wired > 0 {
        wiredPages := wiredPages - 1;
      }
    }

    /** Moves a page from the cache it names into this one, at index `to`. */
    method MovePage(page: Page, to: int)
      requires Valid() && page.ref != null && page.ref.cache != null && page.ref.cache != this
      requires page.ref.cache.Valid()
      requires page.offset in page.ref.cache.pages && page.ref.cache.pages[page.offset] == page
      requires to !in pages
      modifies this, page.ref.cache, page
      ensures Valid() && pages == old(pages)[to := page] && ref == old(ref)
      ensures var from := old(page.ref.cache);
        from.Valid() && from.pages == old(from.pages) - {old(page.offset)} && from.ref == old(from.ref)
      ensures page.wired == old(page.wired)
    {
      var from := page.ref.cache;
      from.RemovePage(page);
      InsertPage(page, to);
    }

    /** Moves all pages of `from` here by swapping trees and refs; this cache is empty. */
    method MoveAllPages(from: Cache)
      requires Valid() && from.Valid() && from != this && pageCount == 0
      modifies this, from, ref, from.ref
      ensures Valid() && from.Valid()
      ensures pages == old(from.pages) && from.pages == map[]
      ensures ref == old(from.ref) && from.ref == old(ref)
    {
      assert pages == map[];
      from.pages, pages := pages, from.pages;
      pageCount := from.pageCount;
      from.pageCount := 0;
      wiredPages := from.wiredPages;
      from.wiredPages := 0;
      ref, from.ref := from.ref, ref;
      ref.cache := this;
      from.ref.cache := from;
    }

    /** _MergePagesSmallerSource: walk the source's pages and pull up those that are not shadowed. */
    method MergeSmallerSource(source: Cache)
      requires Valid() && source.Valid() && source != this
      modifies this, source, source.pages.Values
      ensures Valid() && source.Valid() && ref == old(ref) && source.ref == old(source.ref)
      ensures pages == Union(old(pages), old(source.pages))
      ensures source.pages == ShadowedPages(old(pages), old(source.pages))
    {
      ghost var mine, theirs := pages, source.pages;
      var keys := Iterate(source.pages);
      for i := 0 to |keys|
        invariant Valid() && source.Valid() && ref == old(ref) && source.ref == old(source.ref)
        invariant pages == Pulled(mine, theirs, keys[..i])
        invariant source.pages == PulledRest(mine, theirs, keys[..i])
      {
        PullStep(mine, theirs, keys, i);
        if keys[i] !in pages {
          MovePage(source.pages[keys[i]], keys[i]);
        }
      }
      assert keys[..|keys|] == keys;
      PulledAll(mine, theirs, keys);
    }

    /**
      _MergePagesSmallerConsumer: push the consumer's pages down, freeing the
      source pages in their way, then take everything back at once.
    */
    method MergeSmallerConsumer(source: Cache)
      requires Valid() && source.Valid() && source != this
      modifies this, source, ref, source.ref, pages.Values, source.pages.Values
      ensures Valid() && source.Valid() && ref == old(source.ref) && source.ref == old(ref)
      ensures pages == Union(old(pages), old(source.pages))
      ensures source.pages == map[]
    {
      ghost var mine, theirs := pages, source.pages;
      var keys := Iterate(pages);
      for i := 0 to |keys|
        invariant Valid() && source.Valid() && ref == old(ref) && source.ref == old(source.ref)
        invariant pages == PushedRest(mine, keys[..i])
        invariant source.pages == Pushed(mine, theirs, keys[..i])
      {
        PushStep(mine, theirs, keys, i);
        PushDown(source, keys[i]);
      }
      assert keys[..|keys|] == keys;
      PushedAll(mine, theirs, keys);
      MoveAllPages(source);
    }

    /** Moves all pages of the source that are not shadowed here, iterating over the smaller cache. */
    method MergePages(source: Cache, ghost mine: set<Page>, ghost theirs: set<Page>)
      requires Valid() && source.Valid() && source != this && Within(pages, mine) && Within(source.pages, theirs)
      modifies this, source, ref, source.ref, mine, theirs
      ensures Valid() && source.Valid()
      ensures pages == Union(old(pages), old(source.pages))
    {
      ValuesWithin(pages, mine);
      ValuesWithin(source.pages, theirs);
      if source.pageCount < pageCount {
        MergeSmallerSource(source);
      } else {
        MergeSmallerConsumer(source);
      }
    }

    /** One round of that loop. */
    method PushDown(source: Cache, o: int)
      requires Valid() && source.Valid() && source != this && o in pages
      modifies this, source, pages[o], if o in source.pages then {source.pages[o]} else {}
      ensures Valid() && source.Valid() && ref == old(ref) && source.ref == old(source.ref)
      ensures pages == old(pages) - {o} && source.pages == old(source.pages)[o := old(pages)[o]]
    {
      hide Wired;
      if o in source.pages {
        source.RemovePage(source.pages[o]);
      }
      source.MovePage(pages[o], o);
    }
  }

  /** Both counts with one page more. */
  lemma WithPage(pages: map<int, Page>, o: int, page: Page)
    requires o !in pages
    ensures |pages[o := page]| == |pages| + 1
    ensures |Wired(pages[o := page])| == |Wired(pages)| + (if page.wired > 0 then 1 else 0)
  {
    var m := pages[o := page];
    assert m.Keys == pages.Keys + {o};
    assert Wired(m) == if page.wired > 0 then Wired(pages) + {o} else Wired(pages);
  }

  /** With one page less. */
  lemma WithoutPage(pages: map<int, Page>, o: int)
    requires o in pages
    ensures |pages - {o}| == |pages| - 1
    ensures |Wired(pages - {o})| == |Wired(pages)| - (if pages[o].wired > 0 then 1 else 0)
  {
    var m := pages - {o};
    assert m.Keys == pages.Keys - {o};
    assert Wired(m) == Wired(pages) - {o};
  }

  /** The order in which a tree iterator visits the pages. */
  ghost predicate Enumerates<P>(keys: seq<int>, pages: map<int, P>) {
    && (forall i, j | 0 <= i < j < |keys| :: keys[i] != keys[j])
    && (forall o :: o in keys <==> o in pages)
  }

  ghost predicate Within(pages: map<int, Page>, all: set<Page>) { forall o | o in pages :: pages[o] in all }

  lemma ValuesWithin(pages: map<int, Page>, all: set<Page>)
    requires Within(pages, all)
    ensures pages.Values <= all
  {
    forall p | p in pages.Values ensures p in all {
      if p !in all {
        assert forall o | o in pages :: pages[o] != p;
      }
    }
  }

  lemma FiledPage(c: Cache, o: int)
    requires c.Valid() && o in c.pages
    ensures c.pages[o].ref == c.ref && c.ref.cache == c && c.pages[o].offset == o
  {
  }

  /** No page is in two caches. */
  lemma PagesApart(a: Cache, b: Cache)
    requires a.Valid() && b.Valid() && a != b
    ensures a.ref != b.ref
    ensures a.pages.Values !! b.pages.Values
  {
    forall p | p in a.pages.Values ensures p !in b.pages.Values {
      if p.ref == a.ref {
        assert forall o | o in b.pages :: b.pages[o] != p;
      } else {
        assert forall o | o in a.pages :: a.pages[o] != p;
      }
    }
  }

  lemma SomeElement(s: set<int>)
    ensures s == {} || exists o :: o in s
  {
    if forall o :: o !in s { assert s == {}; }
  }

  method Iterate(pages: map<int, Page>) returns (keys: seq<int>)
    ensures Enumerates(keys, pages)
  {
    var todo := pages.Keys;
    keys := [];
    while todo != {}
      invariant forall i, j | 0 <= i < j < |keys| :: keys[i] != keys[j]
      invariant forall o :: o in pages <==> o in keys || o in todo
      invariant forall o | o in keys :: o !in todo
      decreases todo
    {
      SomeElement(todo);
      var o :| o in todo;
      keys, todo := keys + [o], todo - {o};
    }
  }

  // ---- the loop of _MergePagesSmallerSource on maps ----

  ghost function Pulled<P>(mine: map<int, P>, theirs: map<int, P>, keys: seq<int>): map<int, P> {
    if keys == [] then mine
    else
      var o := keys[|keys| - 1];
      var m := Pulled(mine, theirs, keys[..|keys| - 1]);
      if o in m || o !in theirs then m else m[o := theirs[o]]
  }

  ghost function PulledRest<P>(mine: map<int, P>, theirs: map<int, P>, keys: seq<int>): map<int, P> {
    if keys == [] then theirs
    else
      var o := keys[|keys| - 1];
      var m := Pulled(mine, theirs, keys[..|keys| - 1]);
      var r := PulledRest(mine, theirs, keys[..|keys| - 1]);
      if o in m || o !in theirs then r else r - {o}
  }

  lemma {:induction false} PulledIs<P>(mine: map<int, P>, theirs: map<int, P>, keys: seq<int>)
    ensures forall o :: o in Pulled(mine, theirs, keys) <==> o in mine || (o in keys && o in theirs)
    ensures forall o | o in Pulled(mine, theirs, keys) ::
      Pulled(mine, theirs, keys)[o] == if o in mine then mine[o] else theirs[o]
    ensures forall o :: o in PulledRest(mine, theirs, keys) <==> o in theirs && (o in mine || o !in keys)
    ensures forall o | o in PulledRest(mine, theirs, keys) :: PulledRest(mine, theirs, keys)[o] == theirs[o]
  {
    if keys != [] {
      var n := |keys| - 1;
      PulledIs(mine, theirs, keys[..n]);
      assert keys == keys[..n] + [keys[n]];
    }
  }

  lemma PullStep<P>(mine: map<int, P>, theirs: map<int, P>, keys: seq<int>, i: nat)
    requires i < |keys| && Enumerates(keys, theirs)
    ensures keys[i] in theirs
    ensures keys[..i + 1][..i] == keys[..i]
    ensures keys[i] !in Pulled(mine, theirs, keys[..i]) ==>
      keys[i] in PulledRest(mine, theirs, keys[..i]) && PulledRest(mine, theirs, keys[..i])[keys[i]] == theirs[keys[i]]
  {
    assert keys[i] in keys;
    assert keys[..i + 1][..i] == keys[..i];
    PulledIs(mine, theirs, keys[..i]);
    assert keys[i] !in keys[..i];
  }

  lemma PulledAll<P>(mine: map<int, P>, theirs: map<int, P>, keys: seq<int>)
    requires Enumerates(keys, theirs)
    ensures Pulled(mine, theirs, keys) == Union(mine, theirs)
    ensures PulledRest(mine, theirs, keys) == ShadowedPages(mine, theirs)
  {
    PulledIs(mine, theirs, keys);
    var a, b := Pulled(mine, theirs, keys), Union(mine, theirs);
    var c, d := PulledRest(mine, theirs, keys), ShadowedPages(mine, theirs);
    forall o ensures o in a <==> o in b ensures o in c <==> o in d {
      assert o in keys <==> o in theirs;
    }
    assert a.Keys == b.Keys && c.Keys == d.Keys;
    assert forall o | o in a :: a[o] == b[o];
    assert forall o | o in c :: c[o] == d[o];
  }

  // ---- the loop of _MergePagesSmallerConsumer on maps ----

  ghost function Pushed<P>(mine: map<int, P>, theirs: map<int, P>, keys: seq<int>): map<int, P> {
    if keys == [] then theirs
    else
      var o := keys[|keys| - 1];
      var m := Pushed(mine, theirs, keys[..|keys| - 1]);
      if o in mine then m[o := mine[o]] else m
  }

  ghost function PushedRest<P>(mine: map<int, P>, keys: seq<int>): map<int, P> {
    if keys == [] then mine else PushedRest(mine, keys[..|keys| - 1]) - {keys[|keys| - 1]}
  }

  lemma {:induction false} PushedIs<P>(mine: map<int, P>, theirs: map<int, P>, keys: seq<int>)
    ensures forall o :: o in Pushed(mine, theirs, keys) <==> o in theirs || (o in keys && o in mine)
    ensures forall o | o in Pushed(mine, theirs, keys) ::
      Pushed(mine, theirs, keys)[o] == if o in keys && o in mine then mine[o] else theirs[o]
    ensures forall o :: o in PushedRest(mine, keys) <==> o in mine && o !in keys
    ensures forall o | o in PushedRest(mine, keys) :: PushedRest(mine, keys)[o] == mine[o]
  {
    if keys != [] {
      var n := |keys| - 1;
      PushedIs(mine, theirs, keys[..n]);
      assert keys == keys[..n] + [keys[n]];
    }
  }

  lemma PushStep<P>(mine: map<int, P>, theirs: map<int, P>, keys: seq<int>, i: nat)
    requires i < |keys| && Enumerates(keys, mine)
    ensures keys[i] in mine && keys[..i + 1][..i] == keys[..i]
    ensures keys[i] in PushedRest(mine, keys[..i]) && PushedRest(mine, keys[..i])[keys[i]] == mine[keys[i]]
    ensures keys[i] in Pushed(mine, theirs, keys[..i]) ==>
      keys[i] in theirs && Pushed(mine, theirs, keys[..i])[keys[i]] == theirs[keys[i]]
  {
    assert keys[i] in keys;
    assert keys[..i + 1][..i] == keys[..i];
    PushedIs(mine, theirs, keys[..i]);
    assert keys[i] !in keys[..i];
  }

  /** Both strategies give the same page map. */
  lemma PushedAll<P>(mine: map<int, P>, theirs: map<int, P>, keys: seq<int>)
    requires Enumerates(keys, mine)
    ensures Pushed(mine, theirs, keys) == Union(mine, theirs) && PushedRest(mine, keys) == map[]
  {
    PushedIs(mine, theirs, keys);
    var a, b := Pushed(mine, theirs, keys), Union(mine, theirs);
    forall o ensures o in a <==> o in b {
      assert o in keys <==> o in mine;
    }
    assert a.Keys == b.Keys;
    assert forall o | o in a :: a[o] == b[o];
    forall o ensures o !in PushedRest(mine, keys) {
      assert o in keys <==> o in mine;
    }
    assert PushedRest(mine, keys).Keys == {};
  }
}
