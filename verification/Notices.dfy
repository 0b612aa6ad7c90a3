/** The webhook notices that catalogue events give rise to, and the tasks they lead to. */
module Notices {
  import opened Options
  import opened Catalog
  import opened IndexProtocol
  import opened Views

  /** A dispatch task after commit; its continuation pages are covered by Dispatch and Fanout. */
  datatype Notice = VersionNotice(image: nat, version: nat) | DeletionNotice(image: nat, request: nat)

  /** An invocation task for one webhook. */
  datatype Task = VersionTask(image: nat, number: int) | DeletionTask(image: nat, request: nat)

  /** The dispatch a handler enqueues once its transaction has committed. */
  function NoticesOf(w: World, e: Event): set<Notice> {
    match e
    case Uploaded(_, _, _, _) => {VersionNotice(w.db.nextImage, w.db.nextVersion)}
    case EditCommit(slot) =>
      if slot in w.drafts && w.drafts[slot].image !in w.locks && CommitUpdate(w.db, w.drafts[slot]).Ok?
      then {VersionNotice(w.drafts[slot].image, w.db.nextVersion)} else {}
    case Moderated(r, action, expected, actor, now) =>
      if r in w.db.requests && w.db.requests[r].image !in w.locks && action == Accept
        && ModerateDeletion(w.db, r, action, expected, actor, now).Ok?
      then {DeletionNotice(w.db.requests[r].image, r)} else {}
    case _ => {}
  }

  /** What HandleDispatchTask finds for a notice: the invocation to enqueue, if any. */
  function Invocation(db: Store, notice: Notice): Option<Task> {
    match notice
    case DeletionNotice(i, r) => Some(DeletionTask(i, r))
    case VersionNotice(i, v) =>
      if i in db.images && db.images[i].deletedAt.None? && Find(db.images[i].versions, v).Some?
      then Some(VersionTask(i, Find(db.images[i].versions, v).value.number)) else None
  }

  predicate ShouldIgnore(currentVersion: int, dispatchedVersion: int) {
    currentVersion > dispatchedVersion
  }

  /** The check HandleInvokeTask makes before it delivers. */
  predicate Delivers(db: Store, task: Task) {
    match task
    case DeletionTask(_, _) => true
    case VersionTask(i, number) =>
      i in db.images && Live(db.images[i]) && !ShouldIgnore(CurrentVersion(db.images[i]).value.number, number)
  }

  // ----- the last word about an image -----

  function FinalNotice(i: nat, img: Image): Notice {
    if img.activeDeletion.Some? then DeletionNotice(i, img.activeDeletion.value)
    else VersionNotice(i, if img.current.Some? then img.current.value else 0)
  }

  function FinalTask(i: nat, img: Image): Task {
    if img.activeDeletion.Some? then DeletionTask(i, img.activeDeletion.value)
    else VersionTask(i, SnapshotOf(i, img).number)
  }

  ghost predicate Known(db: Store, i: nat) {
    i in db.images && (db.images[i].activeDeletion.Some? || db.images[i].versions != [])
  }

  ghost predicate NoticeInv(db: Store, notice: Notice) {
    && notice.image in db.images
    && (notice.DeletionNotice? ==> db.images[notice.image].activeDeletion == Some(notice.request))
    && (notice.VersionNotice? ==> 0 < notice.version < db.nextVersion)
  }

  ghost predicate TaskInv(db: Store, task: Task) {
    && Known(db, task.image)
    && (task.DeletionTask? ==> db.images[task.image].activeDeletion == Some(task.request))
    && (task.VersionTask? ==> var versions := db.images[task.image].versions;
          versions != [] && task.number <= versions[|versions| - 1].number)
  }

  ghost predicate LastWord(db: Store, task: Task) {
    task.image in db.images && task == FinalTask(task.image, db.images[task.image])
  }

  lemma LastVersion(db: Store, i: nat)
    requires StoreInv(db) && i in db.images
    ensures var img := db.images[i];
      && CurrentVersion(img) == (if img.versions == [] then None else Some(img.versions[|img.versions| - 1]))
      && (img.current.Some? <==> img.versions != [])
      && (img.current.Some? ==> img.current.value < db.nextVersion)
      && (img.deletedAt.Some? <==> img.activeDeletion.Some?)
      && (forall v :: v in img.versions ==> v.number <= img.versions[|img.versions| - 1].number)
  {
    assert ImageInv(db, i);
    CurrentIsLast(db.firstNumber, db.nextVersion, db.images[i]);
  }

  /** The last word is never suppressed: its notice finds its row and its task is delivered. */
  lemma LastWordIsDelivered(db: Store, i: nat)
    requires StoreInv(db) && Known(db, i)
    ensures var img := db.images[i];
      && Invocation(db, FinalNotice(i, img)) == Some(FinalTask(i, img))
      && Delivers(db, FinalTask(i, img))
  {
    LastVersion(db, i);
  }

  /** A version notice is answered with the number of its own version, however many edits have followed, and only the
      answer about the last version is delivered. */
  lemma NoticeReadsItsVersion(db: Store, i: nat, k: nat)
    requires StoreInv(db) && i in db.images && db.images[i].deletedAt.None? && k < |db.images[i].versions|
    ensures var versions := db.images[i].versions;
      && Invocation(db, VersionNotice(i, versions[k].id)) == Some(VersionTask(i, versions[k].number))
      && (Delivers(db, VersionTask(i, versions[k].number)) <==> k == |versions| - 1)
  {
    assert ImageInv(db, i);
    LastVersion(db, i);
    FindsById(db.images[i].versions, k);
  }

  /** A deleted image or an unknown version gives rise to nothing, a deletion to its own task. */
  lemma NoticeReadsNothing(db: Store, i: nat, v: nat, r: nat)
    ensures Invocation(db, DeletionNotice(i, r)) == Some(DeletionTask(i, r)) && Delivers(db, DeletionTask(i, r))
    ensures i !in db.images || db.images[i].deletedAt.Some? ==> Invocation(db, VersionNotice(i, v)) == None
    ensures i in db.images && (forall version :: version in db.images[i].versions ==> version.id != v) ==>
      Invocation(db, VersionNotice(i, v)) == None
  {
  }

  /** Only the current version of an image that is not deleted gets past the delivery check. */
  lemma DeliveredIsCurrent(db: Store, task: Task)
    requires StoreInv(db) && TaskInv(db, task) && task.VersionTask? && Delivers(db, task)
    ensures db.images[task.image].deletedAt.None? && LastWord(db, task)
    ensures var versions := db.images[task.image].versions;
      versions != [] && task.number == versions[|versions| - 1].number
  {
    LastVersion(db, task.image);
  }

  lemma InvocationInv(db: Store, notice: Notice)
    requires StoreInv(db) && NoticeInv(db, notice) && Invocation(db, notice).Some?
    ensures TaskInv(db, Invocation(db, notice).value)
  {
    LastVersion(db, notice.image);
  }

  lemma FetchIsLive(db: Store, i: nat)
    requires StoreInv(db) && Known(db, i)
    ensures Fetch(db, i) == At(LiveView(db), i)
  {
    LastVersion(db, i);
  }

  // ----- events announce exactly what they change -----

  ghost predicate SameRow(db: Store, db': Store, i: nat) {
    i in db.images && i in db'.images && db'.images[i] == db.images[i].(indexed := db'.images[i].indexed)
  }

  /** The row has a new current version, the one its notice names. */
  ghost predicate Revised(db: Store, db': Store, i: nat, notices: set<Notice>) {
    && i in db'.images && db'.images[i].current == Some(db.nextVersion) && db'.images[i].activeDeletion.None?
    && db'.nextVersion == db.nextVersion + 1 && notices == {VersionNotice(i, db.nextVersion)}
    && (i in db.images ==> db.images[i].activeDeletion.None?)
  }

  /** The row has been deleted by the request its notice names. */
  ghost predicate Removed(db: Store, db': Store, i: nat, notices: set<Notice>) {
    && i in db.images && i in db'.images && db.images[i].activeDeletion.None? && db'.images[i].activeDeletion.Some?
    && db'.nextVersion == db.nextVersion
    && var r := db'.images[i].activeDeletion.value;
       && notices == {DeletionNotice(i, r)}
       && (r in db.requests ==> db.requests[r].status != Approved)
  }

  ghost predicate Change(db: Store, db': Store, i: nat, notices: set<Notice>) {
    SameRow(db, db', i) || Revised(db, db', i, notices) || Removed(db, db', i, notices)
  }

  /** The rows an event changes are those its notice is about. */
  ghost predicate Announced(db: Store, db': Store, notices: set<Notice>) {
    && (forall i :: i in db'.images ==> Change(db, db', i, notices))
    && (forall n :: n in notices ==> n.image in db'.images && !SameRow(db, db', n.image))
  }

  lemma UploadedIsAnnounced(w: World, e: Event)
    requires Inv(w) && e.Uploaded?
    ensures Announced(w.db, Step(w, e).db, NoticesOf(w, e))
  {
    forall i | i in w.db.images ensures i < w.db.nextImage { assert ImageInv(w.db, i); }
  }

  lemma EditCommitIsAnnounced(w: World, e: Event)
    requires Inv(w) && e.EditCommit?
    ensures Announced(w.db, Step(w, e).db, NoticesOf(w, e))
  {
    if NoticesOf(w, e) != {} {
      var draft := w.drafts[e.slot];
      CommitUpdateRow(w.db, draft);
      LastVersion(w.db, draft.image);
    }
  }

  lemma AcceptedIsAnnounced(db: Store, db': Store, i: nat, img: Image, r: nat)
    requires i in db.images && db'.images == db.images[i := img] && db'.nextVersion == db.nextVersion
    requires db.images[i].activeDeletion.None? && img.activeDeletion == Some(r)
    requires r in db.requests && db.requests[r].status != Approved
    ensures Announced(db, db', {DeletionNotice(i, r)})
  {
    assert Removed(db, db', i, {DeletionNotice(i, r)});
  }

  lemma AcceptedRequest(db: Store, r: nat, expected: Status, actor: int, now: int)
    requires ModerateDeletion(db, r, Accept, expected, actor, now).Ok?
    ensures r in db.requests && db.requests[r].status != Approved
    ensures ModerateDeletion(db, r, Accept, expected, actor, now).value.nextVersion == db.nextVersion
  {
  }

  /** A decision either leaves every image row alone or is an approval. */
  lemma ModeratedCases(w: World, e: Event)
    requires e.Moderated?
    ensures NoticesOf(w, e) == {} ==> Step(w, e).db.images == w.db.images
    ensures NoticesOf(w, e) != {} ==>
      && e.request in w.db.requests && e.action == Accept
      && ModerateDeletion(w.db, e.request, Accept, e.expected, e.actor, e.now).Ok?
      && Step(w, e).db == ModerateDeletion(w.db, e.request, Accept, e.expected, e.actor, e.now).value
      && NoticesOf(w, e) == {DeletionNotice(w.db.requests[e.request].image, e.request)}
  {
    if NoticesOf(w, e) == {} && Step(w, e).db != w.db {
      ModerateRow(w.db, e.request, e.action, e.expected, e.actor, e.now);
    }
  }

  lemma ModeratedIsAnnounced(w: World, e: Event)
    requires Inv(w) && e.Moderated?
    ensures Announced(w.db, Step(w, e).db, NoticesOf(w, e))
  {
    ModeratedCases(w, e);
    if NoticesOf(w, e) != {} {
      var db', i := Step(w, e).db, w.db.requests[e.request].image;
      ModerateRow(w.db, e.request, Accept, e.expected, e.actor, e.now);
      AcceptedRequest(w.db, e.request, e.expected, e.actor, e.now);
      AcceptedIsAnnounced(w.db, db', i, db'.images[i], e.request);
    }
  }

  lemma CommitRows(w: World, i: nat)
    requires Inv(w)
    ensures var images := Step(w, Commit(i)).db.images;
      && images.Keys == w.db.images.Keys
      && forall j :: j in images ==> images[j] == w.db.images[j].(indexed := images[j].indexed)
  {
    if i in w.locks && w.locks[i].Confirmed? { CommitStoresMarker(w, i); }
  }

  lemma OtherRows(w: World, e: Event)
    requires Inv(w) && !e.Uploaded? && !e.EditCommit? && !e.Moderated?
    ensures Step(w, e).db.images.Keys == w.db.images.Keys
    ensures forall i :: i in w.db.images ==> SameRow(w.db, Step(w, e).db, i)
  {
    if e.Commit? {
      CommitRows(w, e.image);
    } else if e.Requested? {
      RequestedRows(w, e);
    } else {
      RowsLeft(w, e);
    }
  }

  lemma OtherIsAnnounced(w: World, e: Event)
    requires Inv(w) && !e.Uploaded? && !e.EditCommit? && !e.Moderated?
    ensures Announced(w.db, Step(w, e).db, NoticesOf(w, e))
  {
    OtherRows(w, e);
    assert NoticesOf(w, e) == {};
    NothingToAnnounce(w.db, Step(w, e).db);
  }

  lemma NothingToAnnounce(db: Store, db': Store)
    requires db'.images.Keys == db.images.Keys && forall i :: i in db.images ==> SameRow(db, db', i)
    ensures Announced(db, db', {})
  {
  }

  /** What the handlers enqueue is exactly what their transaction changed for subscribers: the one image whose current
      version or tombstone is new, and nothing when no image has either. */
  lemma EventIsAnnounced(w: World, e: Event)
    requires Inv(w)
    ensures Announced(w.db, Step(w, e).db, NoticesOf(w, e))
  {
    if e.Uploaded? { UploadedIsAnnounced(w, e); }
    else if e.EditCommit? { EditCommitIsAnnounced(w, e); }
    else if e.Moderated? { ModeratedIsAnnounced(w, e); }
    else { OtherIsAnnounced(w, e); }
  }

  lemma SameRowSameWord(db: Store, db': Store, i: nat)
    requires SameRow(db, db', i)
    ensures At(LiveView(db'), i) == At(LiveView(db), i)
    ensures FinalTask(i, db'.images[i]) == FinalTask(i, db.images[i])
    ensures FinalNotice(i, db'.images[i]) == FinalNotice(i, db.images[i])
  {
  }
}
