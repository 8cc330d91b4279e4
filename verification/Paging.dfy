/** The paging loop over Gitea listings (gitea.go). */
module Paging {
  import opened Types

  /** One answer of the server: the page's data after the callback's filtering, and the last page number the
      response claims; no response at all stops the loop. */
  datatype Reply<T> = Reply(items: seq<T>, lastPage: Option<int>)

  /** The callback: None is an error. */
  type Content<!T> = int -> Option<Reply<T>>

  /** The loop ends at this page: an error, no response, or no claim of a later page. */
  predicate Ends<T>(content: Content<T>, page: int) {
    content(page) == None || content(page).value.lastPage == None || page >= content(page).value.lastPage.value
  }

  /** `first` followed by what comes after it, unless that failed. */
  function Prepend<T>(first: seq<T>, rest: Option<seq<T>>): (r: Option<seq<T>>)
    ensures first == [] ==> r == rest
  {
    match rest
    case None => None
    case Some(items) => assert [] + items == items; Some(first + items)
  }

  lemma PrependConcat<T>(a: seq<T>, b: seq<T>, rest: Option<seq<T>>)
    ensures Prepend(a + b, rest) == Prepend(a, Prepend(b, rest))
  {
    if rest.Some? {
      assert a + b + rest.value == a + (b + rest.value);
    }
  }

  /** What the loop returns when it starts at `page`. */
  ghost function Gather<T>(content: Content<T>, page: int, bound: int): Option<seq<T>>
    requires page <= bound && Ends(content, bound)
    decreases bound - page
  {
    match content(page)
    case None => None
    case Some(r) =>
      if r.lastPage == None || page >= r.lastPage.value then Some(r.items)
      else Prepend(r.items, Gather(content, page + 1, bound))
  }

  /** What the loop has collected when it returns, with or without an error. */
  ghost function Collected<T>(content: Content<T>, page: int, bound: int): seq<T>
    requires page <= bound && Ends(content, bound)
    decreases bound - page
  {
    match content(page)
    case None => []
    case Some(r) => if Ends(content, page) then r.items else r.items + Collected(content, page + 1, bound)
  }

  /** What one page adds to the pages before it. */
  lemma OnePage<T>(content: Content<T>, ret: seq<T>, page: int, bound: int)
    requires page <= bound && Ends(content, bound) && content(page).Some?
    ensures var items := content(page).value.items;
            if Ends(content, page) then
              && Prepend(ret, Gather(content, page, bound)) == Some(ret + items)
              && ret + Collected(content, page, bound) == ret + items
            else
              && Prepend(ret, Gather(content, page, bound)) == Prepend(ret + items, Gather(content, page + 1, bound))
              && ret + Collected(content, page, bound) == ret + items + Collected(content, page + 1, bound)
  {
    if !Ends(content, page) {
      PrependConcat(ret, content(page).value.items, Gather(content, page + 1, bound));
    }
  }

  /** `allGiteaPages`. Some page must end the loop, which is the exact condition for it to return at all. After an
      error it returns the pages before the one that failed. */
  method AllGiteaPages<T>(content: Content<T>, ghost bound: int) returns (ret: seq<T>, err: bool)
    requires 1 <= bound && Ends(content, bound)
    ensures Gather(content, 1, bound) == if err then None else Some(ret)
    ensures ret == Collected(content, 1, bound)
  {
    ret, err := [], false;
    var pagesDone := false;
    var page := 1;
    while !pagesDone
      invariant pagesDone ==> Gather(content, 1, bound) == Some(ret) && Collected(content, 1, bound) == ret
      invariant !pagesDone ==> page <= bound
      invariant !pagesDone ==> Gather(content, 1, bound) == Prepend(ret, Gather(content, page, bound))
      invariant !pagesDone ==> Collected(content, 1, bound) == ret + Collected(content, page, bound)
      decreases !pagesDone, bound - page
    {
      var reply := content(page);
      if reply == None {
        return ret, true;
      }
      OnePage(content, ret, page, bound);
      ret := ret + reply.value.items;
      if reply.value.lastPage == None {
        return;
      }
      if page >= reply.value.lastPage.value {
        pagesDone := true;
      }
      page := page + 1;
    }
  }

  /** The loop after some iterations: before its next page, or returned. */
  datatype Loop<T> = At(page: int, ret: seq<T>) | Returned(result: Option<seq<T>>)

  function Iterate<T>(content: Content<T>, n: nat): Loop<T> {
    if n == 0 then At(1, [])
    else
      match Iterate(content, n - 1)
      case Returned(result) => Returned(result)
      case At(page, ret) =>
        match content(page)
        case None => Returned(None)
        case Some(r) => if Ends(content, page) then Returned(Some(ret + r.items)) else At(page + 1, ret + r.items)
  }

  lemma {:induction false} IterateInv<T>(content: Content<T>, n: nat)
    ensures match Iterate(content, n)
            case At(page, _) => page == n + 1 && forall p: nat :: 1 <= p <= n ==> !Ends(content, p)
            case Returned(_) => EndsBy(content, n)
  {
    if n > 0 {
      IterateInv(content, n - 1);
      if Iterate(content, n - 1).Returned? {
        var p: nat :| 1 <= p <= n - 1 && Ends(content, p);
        assert EndsBy(content, n);
      } else if Ends(content, n) {
        assert EndsBy(content, n);
      }
    }
  }

  ghost predicate EndsBy<T>(content: Content<T>, n: nat) {
    exists p: nat :: 1 <= p <= n && Ends(content, p)
  }

  ghost predicate EverReturns<T>(content: Content<T>) {
    exists n: nat :: Iterate(content, n).Returned?
  }

  ghost predicate EverEnds<T>(content: Content<T>) {
    exists n: nat :: EndsBy(content, n)
  }

  /** The loop returns exactly when some page ends it: a server that always claims a later page keeps it running. */
  lemma ReturnsIff<T>(content: Content<T>)
    ensures EverReturns(content) <==> EverEnds(content)
  {
    if EverReturns(content) {
      var n: nat :| Iterate(content, n).Returned?;
      IterateInv(content, n);
      assert EndsBy(content, n);
    }
    if EverEnds(content) {
      var n: nat :| EndsBy(content, n);
      var p: nat :| 1 <= p <= n && Ends(content, p);
      IterateInv(content, p);
      assert Iterate(content, p).Returned?;
    }
  }

  // ---------------------------------------------------------------- what the loop is for

  /** Map every item to the values it contributes, in order; any failure fails the whole. */
  function FilterMap<A, T>(list: seq<A>, f: A -> Option<seq<T>>): Option<seq<T>> {
    if list == [] then Some([])
    else
      match f(list[0])
      case None => None
      case Some(first) => Prepend(first, FilterMap(list[1..], f))
  }

  /** The server's pages of a list: full pages of `size` items and one last page. */
  function SplitPages<A>(list: seq<A>, size: nat): (pages: seq<seq<A>>)
    requires size > 0
    ensures pages != []
  {
    if |list| <= size then [list] else [list[..size]] + SplitPages(list[size..], size)
  }

  /** What the server claims: before the last page some later page, and from then on, at some page, no later one. */
  ghost predicate Honest(claims: int -> int, pages: nat) {
    (forall p :: 1 <= p < pages ==> claims(p) > p) && exists last :: NoLater(claims, pages, last)
  }

  predicate NoLater(claims: int -> int, pages: nat, last: int) {
    1 <= last && pages <= last && claims(last) <= last
  }

  /** A listing callback over a paged list: fetch page `p` and filter-map it. */
  function PagedContent<A, T>(pages: seq<seq<A>>, claims: int -> int, f: A -> Option<seq<T>>): Content<T> {
    p =>
      match FilterMap(if 1 <= p <= |pages| then pages[p - 1] else [], f)
      case None => None
      case Some(items) => Some(Reply(items, Some(claims(p))))
  }

  function Flatten<A>(pages: seq<seq<A>>): seq<A> {
    if pages == [] then [] else pages[0] + Flatten(pages[1..])
  }

  lemma {:induction false} PagesFlatten<A>(list: seq<A>, size: nat)
    requires size > 0
    ensures Flatten(SplitPages(list, size)) == list
    ensures forall i :: 0 < i < |SplitPages(list, size)| ==> SplitPages(list, size)[i] != []
  {
    if |list| > size {
      PagesFlatten(list[size..], size);
      assert SplitPages(list, size)[1..] == SplitPages(list[size..], size);
    } else {
      assert SplitPages(list, size)[1..] == [];
    }
  }

  lemma {:induction false} FilterMapConcat<A, T>(s: seq<A>, t: seq<A>, f: A -> Option<seq<T>>)
    ensures FilterMap(s + t, f) ==
            match FilterMap(s, f) case None => None case Some(a) => Prepend(a, FilterMap(t, f))
  {
    if s == [] {
      assert s + t == t;
    } else {
      assert (s + t)[1..] == s[1..] + t;
      FilterMapConcat(s[1..], t, f);
      if f(s[0]).Some? && FilterMap(s[1..], f).Some? {
        PrependConcat(f(s[0]).value, FilterMap(s[1..], f).value, FilterMap(t, f));
      }
    }
  }

  lemma {:induction false} GatherPages<A, T>(pages: seq<seq<A>>, claims: int -> int, f: A -> Option<seq<T>>, p: int,
                                             last: int)
    requires (forall i :: 1 <= i < |pages| ==> claims(i) > i) && NoLater(claims, |pages|, last)
    requires 1 <= p <= last && Ends(PagedContent(pages, claims, f), last)
    ensures Gather(PagedContent(pages, claims, f), p, last) ==
            FilterMap(if p <= |pages| then Flatten(pages[p - 1..]) else [], f)
    decreases last - p
  {
    if p < last {
      GatherPages(pages, claims, f, p + 1, last);
    }
    if p <= |pages| {
      assert pages[p - 1..][1..] == pages[p..];
      FilterMapConcat(pages[p - 1], Flatten(pages[p..]), f);
      assert pages[p - 1] + [] == pages[p - 1];
    }
  }

  /** Paging is transparent: for every list, page size and per-item filter-map, the loop ends and returns the
      filter-map of the whole list in order, and fails exactly when that fails. */
  lemma PagingIsTransparent<A, T>(list: seq<A>, size: nat, claims: int -> int, f: A -> Option<seq<T>>)
    returns (last: int)
    requires size > 0 && Honest(claims, |SplitPages(list, size)|)
    ensures var content := PagedContent(SplitPages(list, size), claims, f);
            1 <= last && Ends(content, last) && Gather(content, 1, last) == FilterMap(list, f)
  {
    var pages := SplitPages(list, size);
    PagesFlatten(list, size);
    last :| NoLater(claims, |pages|, last);
    GatherPages(pages, claims, f, 1, last);
    assert pages[0..] == pages;
  }

  function Everything<A>(): A -> Option<seq<A>> {
    a => Some([a])
  }

  lemma {:induction false} EverythingKeeps<A>(list: seq<A>)
    ensures FilterMap(list, Everything()) == Some(list)
  {
    if list != [] {
      EverythingKeeps(list[1..]);
      assert [list[0]] + list[1..] == list;
    }
  }

  /** The callback passes on each page as it is. */
  ghost predicate Passes<A>(content: Content<A>, pages: seq<seq<A>>, claims: int -> int) {
    forall p :: 1 <= p <= |pages| ==> content(p) == Some(Reply(pages[p - 1], Some(claims(p))))
  }

  lemma EverythingPasses<A>(pages: seq<seq<A>>, claims: int -> int)
    ensures Passes(PagedContent(pages, claims, Everything()), pages, claims)
  {
    forall p | 1 <= p <= |pages|
      ensures PagedContent(pages, claims, Everything())(p) == Some(Reply(pages[p - 1], Some(claims(p))))
    {
      EverythingKeeps(pages[p - 1]);
    }
  }

  lemma RestOfPages<A>(pages: seq<seq<A>>, p: int)
    requires 1 <= p < |pages| && pages[p] != []
    ensures |Flatten(pages[p - 1..])| == |pages[p - 1]| + |Flatten(pages[p..])| && |Flatten(pages[p..])| > 0
  {
    assert pages[p - 1..][1..] == pages[p..];
  }

  /** A page before the last one that ends the loop cuts the list short. */
  lemma {:induction false} CutShort<A>(pages: seq<seq<A>>, claims: int -> int, content: Content<A>, p: int, early: int,
                                       last: int)
    requires 1 <= p <= early < |pages| && claims(early) <= early && p <= last
    requires Passes(content, pages, claims) && Ends(content, last)
    requires forall i :: 0 < i < |pages| ==> pages[i] != []
    ensures Gather(content, p, last).Some? && |Gather(content, p, last).value| < |Flatten(pages[p - 1..])|
    decreases last - p
  {
    assert content(p) == Some(Reply(pages[p - 1], Some(claims(p))));
    RestOfPages(pages, p);
    if claims(p) > p {
      CutShort(pages, claims, content, p + 1, early, last);
    }
  }

  /** The loop returns the list, at some page. */
  ghost predicate ReturnsAll<A>(list: seq<A>, size: nat, claims: int -> int, last: int)
    requires size > 0
  {
    var content := PagedContent(SplitPages(list, size), claims, Everything());
    1 <= last && Ends(content, last) && Gather(content, 1, last) == Some(list)
  }

  /** What is asked of the server's claims is exactly what the loop needs to return a whole list. */
  lemma TransparentIffHonest<A>(list: seq<A>, size: nat, claims: int -> int)
    requires size > 0
    ensures (exists last :: ReturnsAll(list, size, claims, last)) <==> Honest(claims, |SplitPages(list, size)|)
  {
    var pages := SplitPages(list, size);
    PagesFlatten(list, size);
    assert pages[0..] == pages;
    if Honest(claims, |pages|) {
      var last := PagingIsTransparent(list, size, claims, Everything());
      EverythingKeeps(list);
      assert ReturnsAll(list, size, claims, last);
    } else if last :| ReturnsAll(list, size, claims, last) {
      EverythingPasses(pages, claims);
      if early :| 1 <= early < |pages| && claims(early) <= early {
        CutShort(pages, claims, PagedContent(pages, claims, Everything()), 1, early, last);
      } else {
        EverythingKeeps(if 1 <= last <= |pages| then pages[last - 1] else []);
        assert NoLater(claims, |pages|, last);
      }
      assert false;
    }
  }

  /** The filter-map has what its items contribute, and fails when one of them does. */
  lemma {:induction false} FilterMapMembers<A, T>(list: seq<A>, f: A -> Option<seq<T>>)
    ensures FilterMap(list, f) == None <==> exists a :: a in list && f(a) == None
    ensures FilterMap(list, f).Some? ==>
              forall v :: v in FilterMap(list, f).value <==> exists a :: a in list && Contributes(f, a, v)
  {
    if list != [] {
      FilterMapMembers(list[1..], f);
      assert forall a :: a in list <==> a == list[0] || a in list[1..];
      if FilterMap(list, f).Some? {
        var first, rest := f(list[0]).value, FilterMap(list[1..], f).value;
        forall v
          ensures v in first + rest <==> exists a :: a in list && Contributes(f, a, v)
        {
          assert v in first <==> Contributes(f, list[0], v);
        }
      }
    }
  }

  predicate Contributes<A, T(==)>(f: A -> Option<seq<T>>, a: A, v: T) {
    f(a).Some? && v in f(a).value
  }

  /** `values` are what the items at the increasing positions `at` give, and no other item gives anything. */
  ghost predicate Aligned<A(!new), T(!new)>(list: seq<A>, values: seq<T>, gives: (A, T) -> bool, at: seq<nat>) {
    && |at| == |values|
    && (forall i :: 0 <= i < |at| ==> at[i] < |list| && gives(list[at[i]], values[i]))
    && (forall i, j :: 0 <= i < j < |at| ==> at[i] < at[j])
    && (forall k: nat, v :: k < |list| && gives(list[k], v) ==> k in at)
  }

  ghost predicate InOrder<A(!new), T(!new)>(list: seq<A>, values: seq<T>, gives: (A, T) -> bool) {
    exists at: seq<nat> :: Aligned(list, values, gives, at)
  }

  /** An item contributes the one value it gives, or nothing. */
  ghost predicate GivesOne<A(!new), T(!new)>(f: A -> Option<seq<T>>, gives: (A, T) -> bool) {
    forall a :: f(a).Some? ==> if f(a).value == [] then forall v :: !gives(a, v)
                               else |f(a).value| == 1 && gives(a, f(a).value[0])
  }

  lemma {:induction false} FilterMapAligned<A(!new), T(!new)>(list: seq<A>, f: A -> Option<seq<T>>,
                                                             gives: (A, T) -> bool) returns (at: seq<nat>)
    requires GivesOne(f, gives) && FilterMap(list, f).Some?
    ensures Aligned(list, FilterMap(list, f).value, gives, at)
  {
    at := [];
    if list != [] {
      var n := |list| - 1;
      var front, last := list[..n], list[n];
      assert list == front + [last];
      FilterMapConcat(front, [last], f);
      LastItem(last, f);
      var values := FilterMap(front, f).value;
      var before := FilterMapAligned(front, f, gives);
      at := if f(last).value == [] then before else before + [n];
      assert values + [] == values;
      assert FilterMap(list, f).value == values + f(last).value;
      AlignedMore(front, last, values, f(last).value, gives, before, at);
    }
  }

  lemma LastItem<A, T>(last: A, f: A -> Option<seq<T>>)
    ensures FilterMap([last], f) == f(last)
  {
    assert [last][1..] == [];
    if f(last).Some? {
      assert f(last).value + [] == f(last).value;
    }
  }

  lemma AlignedMore<A(!new), T(!new)>(front: seq<A>, last: A, values: seq<T>, more: seq<T>, gives: (A, T) -> bool,
                                      before: seq<nat>, at: seq<nat>)
    requires Aligned(front, values, gives, before)
    requires if more == [] then at == before && forall v :: !gives(last, v)
             else |more| == 1 && at == before + [|front|] && gives(last, more[0])
    ensures Aligned(front + [last], values + more, gives, at)
  {
    var list := front + [last];
    assert forall k :: 0 <= k < |front| ==> list[k] == front[k];
    forall k: nat, v | k < |list| && gives(list[k], v)
      ensures k in at
    {
      if k < |front| {
        assert gives(front[k], v);
      } else {
        assert at[|before|] == k;
      }
    }
  }

  lemma OneItem<A, T>(item: A, f: A -> Option<seq<T>>, value: T)
    requires f(item) == Some([value])
    ensures FilterMap([item], f) == Some([value])
  {
    assert [item][1..] == [];
    assert [value] + [] == [value];
  }
}
