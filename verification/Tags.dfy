/** The tag and version_tag tables, and the two tag queries of an export row. */
module Tags {
  import opened Options
  import opened Catalog
  import opened IndexProtocol
  import Keyset

  /** `next` is the identity sequence of the tag table. */
  datatype TagRows = TagRows(names: map<nat, string>, links: set<(nat, nat)>, next: nat)

  // ----- statements -----

  /** One row of CreateTags; a name that exists already only uses up an id. */
  function CreateTag(rows: TagRows, name: string): TagRows {
    (if name in rows.names.Values then rows else rows.(names := rows.names[rows.next := name])).(next := rows.next + 1)
  }

  function CreateTags(rows: TagRows, names: seq<string>): TagRows {
    if names == [] then rows else CreateTag(CreateTags(rows, names[..|names| - 1]), names[|names| - 1])
  }

  /** The version_tag rows a new version gets: those of the tags whose name is any of `names`. */
  function LinkTags(rows: TagRows, version: nat, names: seq<string>): TagRows {
    rows.(links := rows.links + set t | t in rows.names && rows.names[t] in names :: (version, t))
  }

  function AddVersion(rows: TagRows, version: nat, names: seq<string>): TagRows {
    LinkTags(CreateTags(rows, names), version, names)
  }

  function TagsOf(rows: TagRows, version: nat): set<nat> {
    set t | t in rows.names && (version, t) in rows.links
  }

  function NamesOf(rows: TagRows, version: nat): set<string> {
    set t | t in TagsOf(rows, version) :: rows.names[t]
  }

  // ----- the tag tables follow the versions -----

  ghost predicate RowsInv(rows: TagRows) {
    && rows.next > 0
    && (forall t :: t in rows.names ==> 0 < t < rows.next)
    && (forall t, u :: t in rows.names && u in rows.names && rows.names[t] == rows.names[u] ==> t == u)
    && (forall link :: link in rows.links ==> link.1 in rows.names)
  }

  /** Each version is linked to exactly its tags, and nothing is linked to a version still to come. */
  ghost predicate TagsInv(rows: TagRows, db: Store) {
    && RowsInv(rows)
    && (forall link :: link in rows.links ==> link.0 < db.nextVersion)
    && forall i, v :: i in db.images && v in db.images[i].versions ==> NamesOf(rows, v.id) == v.content.tags
  }

  ghost predicate Extends(rows: TagRows, rows': TagRows) {
    forall t :: t in rows.names ==> t in rows'.names && rows'.names[t] == rows.names[t]
  }

  lemma CreateTagKeeps(rows: TagRows, name: string)
    requires RowsInv(rows)
    ensures var rows' := CreateTag(rows, name);
      RowsInv(rows') && Extends(rows, rows') && rows'.links == rows.links && name in rows'.names.Values
  {
    var rows' := CreateTag(rows, name);
    if name !in rows.names.Values {
      assert rows'.names[rows.next] == name;
      assert forall t :: t in rows.names ==> rows.names[t] in rows.names.Values;
    }
  }

  lemma {:induction false} CreateTagsKeep(rows: TagRows, names: seq<string>)
    requires RowsInv(rows)
    ensures var rows' := CreateTags(rows, names);
      && RowsInv(rows') && Extends(rows, rows') && rows'.links == rows.links
      && forall name :: name in names ==> name in rows'.names.Values
  {
    if names != [] {
      var head, last := names[..|names| - 1], names[|names| - 1];
      var before := CreateTags(rows, head);
      CreateTagsKeep(rows, head);
      CreateTagKeeps(before, last);
      forall name | name in names ensures name in CreateTags(rows, names).names.Values {
        if name != last {
          assert name in head;
          var t :| t in before.names && before.names[t] == name;
          assert CreateTags(rows, names).names[t] == name;
        }
      }
    }
  }

  lemma LinkedNames(rows: TagRows, version: nat, names: seq<string>)
    requires RowsInv(rows) && (forall name :: name in names ==> name in rows.names.Values)
    requires forall link :: link in rows.links ==> link.0 != version
    ensures NamesOf(LinkTags(rows, version, names), version) == set name | name in names
  {
    var rows' := LinkTags(rows, version, names);
    forall name | name in names ensures name in NamesOf(rows', version) {
      var t :| t in rows.names && rows.names[t] == name;
      assert t in TagsOf(rows', version);
    }
  }

  lemma OtherNames(rows: TagRows, rows': TagRows, version: nat, other: nat)
    requires RowsInv(rows) && Extends(rows, rows')
    requires forall link: (nat, nat) :: link.0 != version ==> (link in rows'.links <==> link in rows.links)
    requires other != version
    ensures NamesOf(rows', other) == NamesOf(rows, other)
  {
    assert TagsOf(rows', other) == TagsOf(rows, other);
  }

  lemma AddVersionLinks(rows: TagRows, version: nat, names: seq<string>)
    requires RowsInv(rows) && forall link :: link in rows.links ==> link.0 != version
    ensures var rows' := AddVersion(rows, version, names);
      && RowsInv(rows') && NamesOf(rows', version) == (set name | name in names)
      && (forall link :: link in rows'.links ==> link in rows.links || link.0 == version)
      && forall other :: other != version ==> NamesOf(rows', other) == NamesOf(rows, other)
  {
    var created := CreateTags(rows, names);
    CreateTagsKeep(rows, names);
    LinkedNames(created, version, names);
    forall other | other != version ensures NamesOf(AddVersion(rows, version, names), other) == NamesOf(rows, other) {
      OtherNames(rows, AddVersion(rows, version, names), version, other);
    }
  }

  /** The content of the version an event adds, if it adds one. */
  function Added(w: World, e: Event): Option<Content> {
    match e
    case Uploaded(content, _, _, _) => Some(content)
    case EditCommit(slot) =>
      if slot in w.drafts && w.drafts[slot].image !in w.locks && CommitUpdate(w.db, w.drafts[slot]).Ok?
      then Some(w.drafts[slot].content) else None
    case _ => None
  }

  /** What an event does to the tag tables; `names` are the tags of its version in the order of the request. */
  function TagStep(rows: TagRows, w: World, e: Event, names: seq<string>): TagRows {
    if Added(w, e).Some? then AddVersion(rows, w.db.nextVersion, names) else rows
  }

  predicate Names(w: World, e: Event, names: seq<string>) {
    Added(w, e).Some? ==> (set name | name in names) == Added(w, e).value.tags
  }

  ghost predicate SameVersions(db: Store, db': Store) {
    db'.images.Keys == db.images.Keys && forall i :: i in db.images ==> db'.images[i].versions == db.images[i].versions
  }

  lemma ModeratedKeepsVersions(w: World, e: Event)
    requires e.Moderated?
    ensures SameVersions(w.db, Step(w, e).db)
  {
    if Step(w, e).db != w.db { ModerateRow(w.db, e.request, e.action, e.expected, e.actor, e.now); }
  }

  lemma CommitKeepsVersions(w: World, i: nat)
    requires Inv(w)
    ensures SameVersions(w.db, Step(w, Commit(i)).db)
  {
    if i in w.locks && w.locks[i].Confirmed? { var db' := CommitStep(w, i); }
  }

  lemma RefusedEditKeepsRows(w: World, e: Event)
    requires e.EditCommit? && Added(w, e).None?
    ensures Step(w, e).db == w.db
  {
  }

  lemma OthersKeepVersions(w: World, e: Event)
    requires Inv(w) && Added(w, e).None?
    ensures SameVersions(w.db, Step(w, e).db)
  {
    if e.Moderated? {
      ModeratedKeepsVersions(w, e);
    } else if e.Commit? {
      CommitKeepsVersions(w, e.image);
    } else if e.EditCommit? {
      RefusedEditKeepsRows(w, e);
    } else if e.Requested? {
      RequestedRows(w, e);
    } else {
      RowsLeft(w, e);
    }
  }

  lemma AddedVersion(w: World, e: Event, i: nat, v: Version)
    requires Added(w, e).Some? && i in Step(w, e).db.images && v in Step(w, e).db.images[i].versions
    ensures || (i in w.db.images && v in w.db.images[i].versions)
            || (v.id == w.db.nextVersion && v.content == Added(w, e).value)
  {
  }

  lemma OnlyAddedVersions(w: World, e: Event, i: nat, v: Version)
    requires Inv(w) && i in Step(w, e).db.images && v in Step(w, e).db.images[i].versions
    ensures || (i in w.db.images && v in w.db.images[i].versions)
            || (Added(w, e).Some? && v.id == w.db.nextVersion && v.content == Added(w, e).value)
  {
    if Added(w, e).Some? { AddedVersion(w, e, i, v); } else { OthersKeepVersions(w, e); }
  }

  lemma NextVersion(w: World, e: Event)
    ensures Step(w, e).db.nextVersion == w.db.nextVersion + if Added(w, e).Some? then 1 else 0
  {
  }

  /** Every event keeps the links exact. */
  lemma TagStepKeepsInv(rows: TagRows, w: World, e: Event, names: seq<string>)
    requires Inv(w) && TagsInv(rows, w.db) && Names(w, e, names)
    ensures TagsInv(TagStep(rows, w, e, names), Step(w, e).db)
  {
    var rows', db' := TagStep(rows, w, e, names), Step(w, e).db;
    NextVersion(w, e);
    if Added(w, e).Some? { AddVersionLinks(rows, w.db.nextVersion, names); }
    forall i, v | i in db'.images && v in db'.images[i].versions ensures NamesOf(rows', v.id) == v.content.tags {
      OnlyAddedVersions(w, e, i, v);
      if i in w.db.images && v in w.db.images[i].versions { assert ImageInv(w.db, i); }
    }
  }

  /** They start exact: rows from before versioning carry no tags. */
  lemma NoTagsYet(w: World)
    requires Init(w)
    ensures TagsInv(TagRows(map[], {}, 1), w.db)
  {
  }

  // ----- the two arrays of an export row -----

  /** `ARRAY(SELECT t.id ... ORDER BY t.id)`. */
  function TagIds(rows: TagRows, version: nat): seq<nat> {
    Keyset.Sorted(TagsOf(rows, version))
  }

  predicate UniqueIds(joined: set<(nat, string)>) {
    forall a, b :: a in joined && b in joined && a.0 == b.0 ==> a == b
  }

  function IdsOf(joined: set<(nat, string)>): set<nat> {
    set row | row in joined :: row.0
  }

  /** The second column of joined rows in the order of the first. */
  function NamesById(joined: set<(nat, string)>): seq<string>
    requires UniqueIds(joined)
  {
    if IdsOf(joined) == {} then [] else
      var first := Keyset.Min(IdsOf(joined));
      var row :| row in joined && row.0 == first;
      [row.1] + NamesById(joined - {row})
  }

  function Join(names: map<nat, string>, ids: set<nat>): (joined: set<(nat, string)>)
    requires forall t :: t in ids ==> t in names
    ensures UniqueIds(joined)
  {
    set t | t in ids :: (t, names[t])
  }

  /** `ARRAY(SELECT t.name ... ORDER BY t.id)`, a query of its own. */
  function TagNames(rows: TagRows, version: nat): seq<string> {
    NamesById(Join(rows.names, TagsOf(rows, version)))
  }

  lemma JoinWithout(names: map<nat, string>, ids: set<nat>, t: nat)
    requires (forall u :: u in ids ==> u in names) && t in ids
    ensures IdsOf(Join(names, ids)) == ids
    ensures (t, names[t]) in Join(names, ids) && Join(names, ids) - {(t, names[t])} == Join(names, ids - {t})
  {
    forall u | u in ids ensures u in IdsOf(Join(names, ids)) { assert (u, names[u]) in Join(names, ids); }
  }

  lemma FirstName(names: map<nat, string>, ids: set<nat>)
    requires (forall t :: t in ids ==> t in names) && ids != {}
    ensures var first := Keyset.Min(ids);
      && Keyset.Sorted(ids) == [first] + Keyset.Sorted(ids - {first})
      && NamesById(Join(names, ids)) == [names[first]] + NamesById(Join(names, ids - {first}))
  {
    JoinWithout(names, ids, Keyset.Min(ids));
  }

  /** The second column names the first, row by row. */
  ghost predicate Paired(names: map<nat, string>, ids: seq<nat>, column: seq<string>) {
    |column| == |ids| && forall k :: 0 <= k < |ids| ==> ids[k] in names && column[k] == names[ids[k]]
  }

  lemma PairedMore(names: map<nat, string>, t: nat, ids: seq<nat>, column: seq<string>)
    requires t in names && Paired(names, ids, column)
    ensures Paired(names, [t] + ids, [names[t]] + column)
  {
  }

  /** Two queries over the same rows in the same order line up. */
  lemma {:induction false} OneOrder(names: map<nat, string>, ids: set<nat>)
    requires forall t :: t in ids ==> t in names
    ensures Paired(names, Keyset.Sorted(ids), NamesById(Join(names, ids)))
    decreases ids
  {
    if ids == {} {
      assert IdsOf(Join(names, ids)) == {};
    } else {
      var first := Keyset.Min(ids);
      var rest := ids - {first};
      FirstName(names, ids);
      OneOrder(names, rest);
      PairedMore(names, first, Keyset.Sorted(rest), NamesById(Join(names, rest)));
    }
  }

  /** The two queries agree index by index, because both order by the id. */
  lemma Aligned(rows: TagRows, version: nat)
    ensures Paired(rows.names, TagIds(rows, version), TagNames(rows, version))
  {
    OneOrder(rows.names, TagsOf(rows, version));
  }
}
