/** What the server answers about an image: to a follower that fetches it, and in an export. */
module Views {
  import opened Options
  import opened Catalog

  datatype View = View(version: nat, number: int, content: Content, url: string)

  /** GetImage for a follower: nothing for a missing or deleted image, coalesced metadata without a version. */
  function Fetch(db: Store, i: nat): Option<View> {
    if i !in db.images || db.images[i].deletedAt.Some? then None
    else
      var row := SnapshotOf(i, db.images[i]);
      var version := if db.images[i].current.Some? then db.images[i].current.value else 0;
      Some(View(version, row.number, row.content, row.url))
  }

  /** The rows of the export: live images joined with their current version. */
  function LiveView(db: Store): map<nat, View> {
    map i | i in db.images && Live(db.images[i]) :: Fetch(db, i).value
  }

  /** What a follower should hold, read off the version lists: exactly the images that are not deleted and have a
      version, each with its last version's id, number and metadata and its own address. */
  lemma LiveViewShows(db: Store, i: nat)
    requires StoreInv(db)
    ensures i in LiveView(db) <==> i in db.images && db.images[i].deletedAt.None? && db.images[i].versions != []
    ensures i in LiveView(db) ==>
      var img, view := db.images[i], LiveView(db)[i];
      var last := img.versions[|img.versions| - 1];
      && view.version == last.id && view.number == last.number && view.content == last.content && view.url == img.url
  {
    if i in db.images {
      LiveIsVersioned(db, i);
      SnapshotIsLast(db, i);
      assert ImageInv(db, i);
    }
  }

  function At<T>(m: map<nat, T>, i: nat): Option<T> {
    if i in m then Some(m[i]) else None
  }

  lemma SameMap<T>(a: map<nat, T>, b: map<nat, T>)
    requires forall i :: At(a, i) == At(b, i)
    ensures a == b
  {
    forall i: nat ensures i in a <==> i in b { assert At(a, i) == At(b, i); }
    forall i | i in a ensures a[i] == b[i] { assert At(a, i) == At(b, i); }
  }
}
