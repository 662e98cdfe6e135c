/** `showRepositories` in src/index.js as a pure render: the contents of the
    list container computed from the list alone. */
module ListView {
  import opened Records
  import opened Store

  /** One entry of the list container: the "no repositories" placeholder, or a
      row showing a record's name, owner and stars with a remove control bound
      to the record's id. */
  datatype ListItem =
    | NoRepos
    | RepoRow(name: string, owner: string, stars: int, removeId: int)

  function Row(r: Repo): ListItem {
    RepoRow(r.name, r.owner, r.stars, r.id)
  }

  /** The rendered list: one placeholder for an empty list, otherwise one row
      per record in list order. */
  function Render(store: seq<Repo>): (v: seq<ListItem>)
    ensures |v| > 0
    ensures NoRepos in v <==> |store| == 0
    ensures |store| == 0 ==> v == [NoRepos]
    ensures |store| > 0 ==>
              && |v| == |store|
              && forall i :: 0 <= i < |v| ==>
                   && v[i].RepoRow?
                   && v[i].name == store[i].name
                   && v[i].owner == store[i].owner
                   && v[i].stars == store[i].stars
                   && v[i].removeId == store[i].id
  {
    if |store| == 0 then [NoRepos]
    else seq(|store|, i requires 0 <= i < |store| => Row(store[i]))
  }

  /** Nothing of a record is lost in rendering: two lists that render alike
      are the same list. */
  lemma RenderInjective(a: seq<Repo>, b: seq<Repo>)
    requires Render(a) == Render(b)
    ensures a == b
  {
    if |a| > 0 {
      assert |b| > 0;
      forall i | 0 <= i < |a|
        ensures a[i] == b[i]
      {
        var v := Render(a);
        assert v[i] == Render(b)[i];
      }
    }
  }

  /** Some row of `v` carries a remove control bound to `id`. */
  predicate HasRemoveControl(v: seq<ListItem>, id: int) {
    exists k :: 0 <= k < |v| && v[k].RepoRow? && v[k].removeId == id
  }

  /** The remove controls of the rendered list are bound to exactly the ids in
      the list. */
  lemma RemoveTargets(store: seq<Repo>, id: int)
    ensures HasRemoveControl(Render(store), id) <==> HasId(store, id)
  {
    var v := Render(store);
    if HasId(store, id) {
      var r :| r in store && r.id == id;
      var k :| 0 <= k < |store| && store[k] == r;
      assert v[k].RepoRow? && v[k].removeId == id;
    }
    if HasRemoveControl(v, id) {
      var k :| 0 <= k < |v| && v[k].RepoRow? && v[k].removeId == id;
      assert store[k] in store;
    }
  }

  /** The remove control of row `i` takes away exactly record `i`, whatever
      the position: the rows are bound to ids, not to indices. */
  lemma RemoveRow(store: seq<Repo>, i: int)
    requires UniqueIds(store)
    requires 0 <= i < |store|
    ensures Remove(store, Render(store)[i].removeId) == store[..i] + store[i + 1..]
  {
    RemoveAt(store, i);
  }
}
