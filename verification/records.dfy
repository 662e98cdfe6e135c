/** Entities of the repository widget: the items a repository search returns,
    and the records the widget keeps in its list (src/index.js). */
module Records {

  datatype Option<+T> = None | Some(value: T)

  /** The owning account of a search item; the widget only reads its login. */
  datatype Owner = Owner(login: string)

  /** One element of the `items` array of a repository search response. */
  datatype SearchItem = SearchItem(id: int, name: string, owner: Owner, stargazersCount: int)

  /** A stored repository record. `stars` is captured when the record is added
      and never refreshed. */
  datatype Repo = Repo(id: int, name: string, owner: string, stars: int)

  /** The record a search item becomes when it is added. */
  function Project(item: SearchItem): Repo {
    Repo(item.id, item.name, item.owner.login, item.stargazersCount)
  }

  /** Some record of `rs` carries `id`. */
  predicate HasId(rs: seq<Repo>, id: int) {
    exists r :: r in rs && r.id == id
  }

  /** No two records of `rs` share an id. */
  predicate UniqueIds(rs: seq<Repo>) {
    forall i, j | 0 <= i < j < |rs| :: rs[i].id != rs[j].id
  }

  /** `a` is obtained from `b` by deleting elements, keeping the others in order. */
  predicate IsSubsequence<T(==)>(a: seq<T>, b: seq<T>)
    decreases |b|
  {
    if |a| == 0 then true
    else if |b| == 0 then false
    else (a[0] == b[0] && IsSubsequence(a[1..], b[1..])) || IsSubsequence(a, b[1..])
  }

  /** A list with a record in front has unique ids exactly when the rest does
      and does not already hold the front record's id. */
  lemma UniqueCons(x: Repo, t: seq<Repo>)
    ensures UniqueIds([x] + t) <==> !HasId(t, x.id) && UniqueIds(t)
  {
    var s := [x] + t;
    if UniqueIds(s) {
      forall r | r in t
        ensures r.id != x.id
      {
        var j :| 0 <= j < |t| && t[j] == r;
        assert s[0] == x && s[j + 1] == r;
        assert s[0].id != s[j + 1].id;
      }
      forall i, j | 0 <= i < j < |t|
        ensures t[i].id != t[j].id
      {
        assert s[i + 1] == t[i] && s[j + 1] == t[j];
      }
    }
    if !HasId(t, x.id) && UniqueIds(t) {
      forall i, j | 0 <= i < j < |s|
        ensures s[i].id != s[j].id
      {
        assert s[j] == t[j - 1];
        if i > 0 {
          assert s[i] == t[i - 1];
        } else {
          assert t[j - 1] in t;
        }
      }
    }
  }
}
