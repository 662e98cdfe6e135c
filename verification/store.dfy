/** The ordered list of added repositories (`repositories` in src/index.js)
    and the list operations `addRepository` and `removeRepository` perform on it. */
module Store {
  import opened Records

  /** `repositories.find(r => r.id === id)`: the first record carrying `id`,
      or nothing when no record does. */
  method FindById(store: seq<Repo>, id: int) returns (found: Option<Repo>)
    ensures found.None? <==> !HasId(store, id)
    ensures found.Some? ==> exists i :: 0 <= i < |store| && store[i] == found.value
                                        && store[i].id == id
                                        && forall j :: 0 <= j < i ==> store[j].id != id
  {
    var i := 0;
    while i < |store|
      invariant 0 <= i <= |store|
      invariant forall j :: 0 <= j < i ==> store[j].id != id
    {
      if store[i].id == id {
        return Some(store[i]);
      }
      i := i + 1;
    }
    return None;
  }

  /** The list change of `addRepository`: a repository whose id is already
      listed changes nothing; otherwise its projection is appended, every
      earlier record staying where it was. */
  function Add(store: seq<Repo>, item: SearchItem): (r: seq<Repo>)
    ensures HasId(r, item.id)
    ensures HasId(store, item.id) ==> r == store
    ensures !HasId(store, item.id) ==>
              && |r| == |store| + 1
              && r[..|store|] == store
              && r[|store|] == Repo(item.id, item.name, item.owner.login, item.stargazersCount)
    ensures UniqueIds(store) ==> UniqueIds(r)
  {
    if HasId(store, item.id) then store
    else
      var r := store + [Project(item)];
      assert r[|store|] in r;
      r
  }

  /** The list change of `removeRepository`: the records carrying `id` are
      dropped (see RemoveMembers). */
  function Remove(store: seq<Repo>, id: int): (r: seq<Repo>)
    ensures |r| <= |store|
  {
    if |store| == 0 then []
    else Keep(store[0], id) + Remove(store[1..], id)
  }

  /** Every record carrying `id` is dropped and every other record is kept;
      removing an id that is not listed changes nothing. */
  lemma {:induction false} RemoveMembers(store: seq<Repo>, id: int)
    ensures !HasId(Remove(store, id), id)
    ensures forall x :: x in Remove(store, id) <==> x in store && x.id != id
    ensures !HasId(store, id) ==> Remove(store, id) == store
  {
    if |store| > 0 {
      RemoveMembers(store[1..], id);
      assert forall x :: x in store <==> x == store[0] || x in store[1..];
      if !HasId(store, id) {
        assert store[0] in store;
        assert !HasId(store[1..], id);
        assert store == [store[0]] + store[1..];
      }
    }
  }

  /** A single record as removal leaves it: nothing when it carries `id`. */
  function Keep(r: Repo, id: int): seq<Repo> {
    if r.id == id then [] else [r]
  }

  /** Removing twice has the effect of removing once. */
  lemma RemoveIdempotent(store: seq<Repo>, id: int)
    ensures Remove(Remove(store, id), id) == Remove(store, id)
  {
    RemoveMembers(store, id);
    RemoveMembers(Remove(store, id), id);
  }

  /** Removal keeps the remaining records in their relative order. */
  lemma {:induction false} RemoveIsSubsequence(store: seq<Repo>, id: int)
    ensures IsSubsequence(Remove(store, id), store)
  {
    if |store| > 0 {
      RemoveIsSubsequence(store[1..], id);
      var rest := Remove(store[1..], id);
      if store[0].id == id {
        assert Remove(store, id) == rest;
      } else {
        assert Remove(store, id) == [store[0]] + rest;
        assert ([store[0]] + rest)[1..] == rest;
      }
    }
  }

  /** Removal counts records: a record carrying `id` is left zero times, and
      every other record as many times as the list held it. */
  lemma {:induction false} RemoveMultiset(store: seq<Repo>, id: int)
    ensures forall x :: multiset(Remove(store, id))[x] == if x.id == id then 0 else multiset(store)[x]
  {
    if |store| > 0 {
      RemoveMultiset(store[1..], id);
      assert store == [store[0]] + store[1..];
      assert multiset(store) == multiset([store[0]]) + multiset(store[1..]);
      assert Remove(store, id) == Keep(store[0], id) + Remove(store[1..], id);
      assert multiset(Remove(store, id))
          == multiset(Keep(store[0], id)) + multiset(Remove(store[1..], id));
    }
  }

  /** Removal works piecewise: removing from two lists joined is joining
      what is left of each. */
  lemma {:induction false} RemoveAppend(a: seq<Repo>, b: seq<Repo>, id: int)
    ensures Remove(a + b, id) == Remove(a, id) + Remove(b, id)
  {
    if |a| == 0 {
      assert a + b == b;
    } else {
      assert (a + b)[1..] == a[1..] + b;
      assert (a + b)[0] == a[0];
      RemoveAppend(a[1..], b, id);
      var k := Keep(a[0], id);
      calc {
        Remove(a + b, id);
        k + Remove(a[1..] + b, id);
        k + (Remove(a[1..], id) + Remove(b, id));
        (k + Remove(a[1..], id)) + Remove(b, id);
        Remove(a, id) + Remove(b, id);
      }
    }
  }

  /** Removal undoes an addition: adding a repository that was not listed and
      then removing its id gives back the list as it was. */
  lemma RemoveUndoesAdd(store: seq<Repo>, item: SearchItem)
    requires !HasId(store, item.id)
    ensures Remove(Add(store, item), item.id) == store
  {
    RemoveAppend(store, [Project(item)], item.id);
    RemoveMembers(store, item.id);
    assert Remove([Project(item)], item.id) == [] by {
      assert [Project(item)][1..] == [];
    }
  }

  /** Removal keeps ids unique. */
  lemma {:induction false} RemoveKeepsUnique(store: seq<Repo>, id: int)
    requires UniqueIds(store)
    ensures UniqueIds(Remove(store, id))
  {
    if |store| > 0 {
      assert store == [store[0]] + store[1..];
      UniqueCons(store[0], store[1..]);
      RemoveKeepsUnique(store[1..], id);
      var rest := Remove(store[1..], id);
      RemoveMembers(store[1..], id);
      if store[0].id != id {
        assert !HasId(rest, store[0].id);
        UniqueCons(store[0], rest);
      }
    }
  }

  /** In a list with unique ids, removing the id of the record at index `i`
      removes exactly that record. */
  lemma RemoveAt(store: seq<Repo>, i: int)
    requires UniqueIds(store)
    requires 0 <= i < |store|
    ensures Remove(store, store[i].id) == store[..i] + store[i + 1..]
  {
    var id := store[i].id;
    var pre, post := store[..i], store[i + 1..];
    var mid := [store[i]] + post;
    assert store == pre + mid;
    NotInSlice(store, 0, i, i);
    assert pre == store[0..i];
    RemoveMembers(pre, id);
    NotInSlice(store, i + 1, |store|, i);
    RemoveMembers(post, id);
    assert Remove(mid, id) == post by {
      assert mid[0].id == id && mid[1..] == post;
    }
    RemoveAppend(pre, mid, id);
  }

  /** In a list with unique ids, the slice `store[lo..hi]` not containing
      index `i` does not carry the id of `store[i]`. */
  lemma NotInSlice(store: seq<Repo>, lo: int, hi: int, i: int)
    requires UniqueIds(store)
    requires 0 <= lo <= hi <= |store| && 0 <= i < |store|
    requires i < lo || hi <= i
    ensures !HasId(store[lo..hi], store[i].id)
  {
    forall x | x in store[lo..hi]
      ensures x.id != store[i].id
    {
      var k :| 0 <= k < hi - lo && store[lo..hi][k] == x;
      assert store[lo + k] == x;
    }
  }
}
