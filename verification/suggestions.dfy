/** The filter of `showSuggestions` in src/index.js: search items whose id is
    already in the list are not offered again. */
module Suggestions {
  import opened Records
  import opened Store

  /** The search items not yet in the list, in the order the search returned them. */
  function FreshItems(items: seq<SearchItem>, store: seq<Repo>): (r: seq<SearchItem>)
    ensures |r| <= |items|
  {
    if |items| == 0 then []
    else Offer(items[0], store) + FreshItems(items[1..], store)
  }

  /** An item is offered exactly when the search returned it and its id is not
      listed; nothing is offered exactly when every returned id is listed. */
  lemma {:induction false} FreshItemsMembers(items: seq<SearchItem>, store: seq<Repo>)
    ensures forall x :: x in FreshItems(items, store) <==> x in items && !HasId(store, x.id)
    ensures |FreshItems(items, store)| == 0 <==> forall x :: x in items ==> HasId(store, x.id)
  {
    if |items| > 0 {
      FreshItemsMembers(items[1..], store);
      assert forall x :: x in items <==> x == items[0] || x in items[1..];
    }
  }

  /** A single search item as offered: nothing when its id is already listed. */
  function Offer(item: SearchItem, store: seq<Repo>): seq<SearchItem> {
    if HasId(store, item.id) then [] else [item]
  }

  /** The offered items keep the search order. */
  lemma {:induction false} FreshItemsIsSubsequence(items: seq<SearchItem>, store: seq<Repo>)
    ensures IsSubsequence(FreshItems(items, store), items)
  {
    if |items| > 0 {
      FreshItemsIsSubsequence(items[1..], store);
      var rest := FreshItems(items[1..], store);
      if HasId(store, items[0].id) {
        assert FreshItems(items, store) == rest;
      } else {
        assert FreshItems(items, store) == [items[0]] + rest;
        assert ([items[0]] + rest)[1..] == rest;
      }
    }
  }

  /** Filtering works piecewise over a joined item list. */
  lemma {:induction false} FreshItemsAppend(a: seq<SearchItem>, b: seq<SearchItem>, store: seq<Repo>)
    ensures FreshItems(a + b, store) == FreshItems(a, store) + FreshItems(b, store)
  {
    if |a| == 0 {
      assert a + b == b;
    } else {
      assert (a + b)[1..] == a[1..] + b;
      assert (a + b)[0] == a[0];
      FreshItemsAppend(a[1..], b, store);
      var o := Offer(a[0], store);
      calc {
        FreshItems(a + b, store);
        o + FreshItems(a[1..] + b, store);
        o + (FreshItems(a[1..], store) + FreshItems(b, store));
        (o + FreshItems(a[1..], store)) + FreshItems(b, store);
        FreshItems(a, store) + FreshItems(b, store);
      }
    }
  }

  /** With an empty list every search item is offered. */
  lemma {:induction false} FreshItemsEmptyStore(items: seq<SearchItem>)
    ensures FreshItems(items, []) == items
  {
    if |items| > 0 {
      FreshItemsEmptyStore(items[1..]);
      assert Offer(items[0], []) == [items[0]];
      assert items == [items[0]] + items[1..];
    }
  }

  /** The filter as `repos.filter(...)` runs it: one `find` over the list per
      search item, keeping the items the `find` misses. */
  method FilterFresh(items: seq<SearchItem>, store: seq<Repo>) returns (r: seq<SearchItem>)
    ensures r == FreshItems(items, store)
  {
    r := [];
    var i := 0;
    while i < |items|
      invariant 0 <= i <= |items|
      invariant r == FreshItems(items[..i], store)
    {
      var hit := FindById(store, items[i].id);
      assert items[..i + 1] == items[..i] + [items[i]];
      FreshItemsAppend(items[..i], [items[i]], store);
      assert FreshItems([items[i]], store) == Offer(items[i], store) by {
        assert [items[i]][1..] == [];
      }
      if hit.None? {
        r := r + [items[i]];
      }
      i := i + 1;
    }
    assert items[..i] == items;
  }
}
