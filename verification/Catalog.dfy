/** Image, version and deletion-request rows, and the transactions that change them.
    Every transaction locks its image row first, so each one is a function on the committed rows. */
module Catalog {
  import opened Options

  datatype Rating = RatingNone | RatingModerate | RatingViolent

  datatype Content = Content(text: string, rating: Rating, tags: set<string>)

  datatype Version = Version(id: nat, number: int, content: Content, author: int)

  datatype Image = Image(
    uploader: int, url: string, createdAt: int, versions: seq<Version>, current: Option<nat>,
    deletedAt: Option<int>, activeDeletion: Option<nat>, indexed: Option<nat>)

  datatype Status = Active | Rejected | Approved

  datatype Action = Accept | Reject | Reopen

  datatype Request = Request(
    image: nat, user: int, reason: string, status: Status, processedBy: Option<int>, processedAt: Option<int>)

  /** One row of GetImageSnapshot; an image without a version reads as number 0 with empty metadata. */
  datatype Snapshot = Snapshot(image: nat, url: string, createdAt: int, uploader: int, number: int, content: Content)

  datatype DeletionEvent = DeletionEvent(request: nat, snapshot: Snapshot, initiator: int)

  /** A metadata edit merged with the row read before the image lock was taken. */
  datatype Draft = Draft(image: nat, author: int, content: Content)

  datatype Patch = Patch(text: Option<string>, rating: Option<Rating>, tags: Option<set<string>>)

  /** `firstNumber` is the column default of version.version; the three counters are the id sequences. */
  datatype Store = Store(
    firstNumber: int, users: set<int>, images: map<nat, Image>, requests: map<nat, Request>,
    deletions: seq<DeletionEvent>, nextImage: nat, nextVersion: nat, nextRequest: nat)

  datatype Error = Unauthenticated | NotFound | StateConflict | UniqueViolation

  // ----- queries -----

  function Find(versions: seq<Version>, id: nat): (v: Option<Version>)
    ensures v.Some? ==> v.value in versions && v.value.id == id
  {
    if versions == [] then None
    else if versions[|versions| - 1].id == id then Some(versions[|versions| - 1])
    else Find(versions[..|versions| - 1], id)
  }

  function CurrentVersion(img: Image): Option<Version> {
    if img.current.None? then None else Find(img.versions, img.current.value)
  }

  predicate Live(img: Image) {
    img.deletedAt.None? && CurrentVersion(img).Some?
  }

  function SnapshotOf(i: nat, img: Image): Snapshot {
    match CurrentVersion(img)
    case Some(v) => Snapshot(i, img.url, img.createdAt, img.uploader, v.number, v.content)
    case None => Snapshot(i, img.url, img.createdAt, img.uploader, 0, Content("", RatingNone, {}))
  }

  predicate HasActiveRequest(db: Store, i: nat, user: int) {
    exists r :: r in db.requests && db.requests[r].image == i && db.requests[r].user == user
      && db.requests[r].status == Active
  }

  // ----- transactions -----

  /** AcknowledgeSession: CreateImage then InitializeVersion. */
  function Upload(db: Store, content: Content, user: int, url: string, now: int): Store {
    var version := Version(db.nextVersion, db.firstNumber, content, user);
    var img := Image(user, url, now, [version], Some(version.id), None, None, None);
    db.(images := db.images[db.nextImage := img], nextImage := db.nextImage + 1, nextVersion := db.nextVersion + 1)
  }

  function Merge(base: Content, patch: Patch): Content {
    Content(
      if patch.text.Some? then patch.text.value else base.text,
      if patch.rating.Some? then patch.rating.value else base.rating,
      if patch.tags.Some? then patch.tags.value else base.tags)
  }

  /** The read UpdateImage makes before it opens its transaction. */
  function ReadForUpdate(db: Store, i: nat, patch: Patch, user: int): Result<Draft, Error> {
    if i !in db.images || !Live(db.images[i]) then Err(NotFound)
    else Ok(Draft(i, user, Merge(CurrentVersion(db.images[i]).value.content, patch)))
  }

  /** The transaction of UpdateImage: check the tombstone under the lock, then CreateNewVersion. */
  function CommitUpdate(db: Store, draft: Draft): Result<Store, Error> {
    if draft.image !in db.images || !Live(db.images[draft.image]) then Err(NotFound)
    else
      var img := db.images[draft.image];
      var version := Version(db.nextVersion, CurrentVersion(img).value.number + 1, draft.content, draft.author);
      var edited := img.(versions := img.versions + [version], current := Some(version.id));
      Ok(db.(images := db.images[draft.image := edited], nextVersion := db.nextVersion + 1))
  }

  function CreateRequest(db: Store, i: nat, user: int, reason: string): Result<Store, Error> {
    if i !in db.images then Err(NotFound)
    else if db.images[i].deletedAt.Some? || HasActiveRequest(db, i, user) then Err(StateConflict)
    else Ok(db.(requests := db.requests[db.nextRequest := Request(i, user, reason, Active, None, None)],
                nextRequest := db.nextRequest + 1))
  }

  function NextStatus(status: Status, action: Action): Option<Status> {
    match action
    case Accept => if status == Active || status == Rejected then Some(Approved) else None
    case Reject => if status == Active then Some(Rejected) else None
    case Reopen => if status == Rejected then Some(Active) else None
  }

  function RecordDecision(db: Store, r: nat, next: Status, actor: int, now: int): Store
    requires r in db.requests
  {
    var decided := db.requests[r].(
      status := next,
      processedAt := if next == Active then None else Some(now),
      processedBy := if next == Active then None else Some(actor));
    db.(requests := db.requests[r := decided])
  }

  function Approve(db: Store, r: nat, actor: int, now: int): Store
    requires r in db.requests && db.requests[r].image in db.images
  {
    var i := db.requests[r].image;
    var img := db.images[i].(deletedAt := Some(now), activeDeletion := Some(r), indexed := None);
    db.(images := db.images[i := img], deletions := db.deletions + [DeletionEvent(r, SnapshotOf(i, img), actor)])
  }

  /** moderateDeletion. The unique index on active (image, user) requests is the database's, not the handler's. */
  function ModerateDeletion(
    db: Store, r: nat, action: Action, expected: Status, actor: int, now: int): Result<Store, Error>
  {
    if actor <= 0 then Err(Unauthenticated)
    else if r !in db.requests || db.requests[r].image !in db.images then Err(NotFound)
    else
      var request, img := db.requests[r], db.images[db.requests[r].image];
      var next := NextStatus(request.status, action);
      if request.status != expected || next.None? then Err(StateConflict)
      else if next.value == Approved && (img.deletedAt.Some? || img.activeDeletion.Some?) then Err(StateConflict)
      else if next.value == Active && HasActiveRequest(db, request.image, request.user) then Err(UniqueViolation)
      else
        var decided := RecordDecision(db, r, next.value, actor, now);
        if next.value != Approved then Ok(decided)
        else if actor !in db.users then Err(NotFound)
        else Ok(Approve(decided, r, actor, now))
  }

  // ----- invariant -----

  /** Version numbers run on from `first` without a gap, ids increase and stay below `next`, and the last version is
      current. */
  ghost predicate HistoryInv(first: int, next: nat, img: Image) {
    && (forall k :: 0 <= k < |img.versions| ==>
          img.versions[k].number == first + k && 0 < img.versions[k].id < next)
    && (forall j, k :: 0 <= j < k < |img.versions| ==> img.versions[j].id < img.versions[k].id)
    && img.current == (if img.versions == [] then None else Some(img.versions[|img.versions| - 1].id))
    && (img.indexed.Some? ==> img.indexed.value < next)
  }

  ghost predicate TombstoneInv(requests: map<nat, Request>, i: nat, img: Image) {
    && (img.deletedAt.Some? <==> img.activeDeletion.Some?)
    && (img.activeDeletion.Some? ==>
          var r := img.activeDeletion.value;
          r in requests && requests[r].image == i && requests[r].status == Approved)
  }

  ghost predicate ImageInv(db: Store, i: nat)
    requires i in db.images
  {
    && 0 < i < db.nextImage
    && HistoryInv(db.firstNumber, db.nextVersion, db.images[i])
    && TombstoneInv(db.requests, i, db.images[i])
  }

  ghost predicate RequestInv(db: Store, r: nat)
    requires r in db.requests
  {
    var request := db.requests[r];
    && 0 < r < db.nextRequest
    && request.image in db.images
    && (request.status == Approved ==> db.images[request.image].activeDeletion == Some(r))
    && (request.status == Active <==> request.processedBy.None?)
    && (request.status == Active <==> request.processedAt.None?)
  }

  ghost predicate SameClaim(db: Store, r: nat, q: nat)
    requires r in db.requests && q in db.requests
  {
    && db.requests[r].status == Active && db.requests[q].status == Active
    && db.requests[r].image == db.requests[q].image && db.requests[r].user == db.requests[q].user
  }

  ghost predicate EventInv(db: Store, k: nat)
    requires k < |db.deletions|
  {
    var event := db.deletions[k];
    var i := event.snapshot.image;
    && i in db.images && db.images[i].activeDeletion == Some(event.request)
    && event.snapshot == SnapshotOf(i, db.images[i])
  }

  ghost predicate ImagesInv(db: Store) {
    forall i :: i in db.images ==> ImageInv(db, i)
  }

  ghost predicate RequestsInv(db: Store) {
    && (forall r :: r in db.requests ==> RequestInv(db, r))
    && (forall r, q :: r in db.requests && q in db.requests && SameClaim(db, r, q) ==> r == q)
  }

  ghost predicate EventsInv(db: Store) {
    && (forall k :: 0 <= k < |db.deletions| ==> EventInv(db, k))
    && (forall j, k :: 0 <= j < k < |db.deletions| ==> db.deletions[j].snapshot.image != db.deletions[k].snapshot.image)
    && (forall i :: i in db.images && db.images[i].deletedAt.Some? ==> exists k :: Announces(db, k, i))
  }

  ghost predicate StoreInv(db: Store) {
    db.nextImage > 0 && db.nextVersion > 0 && db.nextRequest > 0 && ImagesInv(db) && RequestsInv(db) && EventsInv(db)
  }

  ghost predicate Announces(db: Store, k: int, i: nat) {
    0 <= k < |db.deletions| && db.deletions[k].snapshot.image == i
  }

  /** Rows from before versioning may exist; nothing has been versioned, requested, deleted or indexed yet. */
  ghost predicate EmptyStore(db: Store) {
    && db.nextVersion == 1 && db.nextRequest == 1 && db.nextImage > 0
    && db.requests == map[] && db.deletions == []
    && forall i :: i in db.images ==>
         && 0 < i < db.nextImage && db.images[i].versions == [] && db.images[i].current.None?
         && db.images[i].deletedAt.None? && db.images[i].activeDeletion.None? && db.images[i].indexed.None?
  }

  lemma CurrentIsLast(first: int, next: nat, img: Image)
    requires HistoryInv(first, next, img)
    ensures CurrentVersion(img) == if img.versions == [] then None else Some(img.versions[|img.versions| - 1])
  {
  }

  /** Tombstoned rows change at most their marker and no row becomes one: the deletion events stay right. */
  lemma EventsFrame(db: Store, db': Store)
    requires ImagesInv(db) && EventsInv(db) && db'.deletions == db.deletions
    requires forall i :: i in db.images && db.images[i].deletedAt.Some? ==>
      i in db'.images && db'.images[i] == db.images[i].(indexed := db'.images[i].indexed)
    requires forall i :: i in db'.images && db'.images[i].deletedAt.Some? ==>
      i in db.images && db.images[i].deletedAt.Some?
    ensures EventsInv(db')
  {
    forall k | 0 <= k < |db'.deletions| ensures EventInv(db', k) {
      assert EventInv(db, k) && ImageInv(db, db.deletions[k].snapshot.image);
    }
    forall i | i in db'.images && db'.images[i].deletedAt.Some? ensures exists k :: Announces(db', k, i) {
      var k :| Announces(db, k, i);
      assert Announces(db', k, i);
    }
  }

  lemma RequestsFrame(db: Store, db': Store)
    requires RequestsInv(db) && db'.requests == db.requests && db'.nextRequest == db.nextRequest
    requires forall i :: i in db.images ==>
      i in db'.images && db'.images[i].activeDeletion == db.images[i].activeDeletion
    ensures RequestsInv(db')
  {
    forall r | r in db'.requests ensures RequestInv(db', r) { assert RequestInv(db, r); }
    forall r, q | r in db'.requests && q in db'.requests && SameClaim(db', r, q) ensures r == q {
      assert SameClaim(db, r, q);
    }
  }

  /** Approved requests and their images are still there. */
  ghost predicate KeepsApprovals(requests: map<nat, Request>, requests': map<nat, Request>) {
    forall r :: r in requests && requests[r].status == Approved ==> r in requests' && requests'[r] == requests[r]
  }

  lemma HistoryLater(first: int, next: nat, later: nat, img: Image)
    requires HistoryInv(first, next, img) && next <= later
    ensures HistoryInv(first, later, img)
  {
  }

  lemma OtherImage(db: Store, db': Store, i: nat)
    requires i in db.images && ImageInv(db, i) && i in db'.images && db'.images[i] == db.images[i]
    requires db'.firstNumber == db.firstNumber && db.nextImage <= db'.nextImage && db.nextVersion <= db'.nextVersion
    requires KeepsApprovals(db.requests, db'.requests)
    ensures ImageInv(db', i)
  {
    HistoryLater(db.firstNumber, db.nextVersion, db'.nextVersion, db.images[i]);
  }

  /** One image row changes, the others stay as they are. */
  lemma ImagesFrame(db: Store, db': Store, i: nat)
    requires ImagesInv(db) && i in db'.images && ImageInv(db', i)
    requires forall j :: j in db'.images && j != i ==> j in db.images && db'.images[j] == db.images[j]
    requires db'.firstNumber == db.firstNumber && db.nextImage <= db'.nextImage && db.nextVersion <= db'.nextVersion
    requires KeepsApprovals(db.requests, db'.requests)
    ensures ImagesInv(db')
  {
    forall j | j in db'.images ensures ImageInv(db', j) {
      if j != i { OtherImage(db, db', j); }
    }
  }

  /** No image row changes. */
  lemma SameImages(db: Store, db': Store)
    requires ImagesInv(db) && db'.images == db.images
    requires db'.firstNumber == db.firstNumber && db.nextImage <= db'.nextImage && db.nextVersion <= db'.nextVersion
    requires KeepsApprovals(db.requests, db'.requests)
    ensures ImagesInv(db')
  {
    forall j | j in db'.images ensures ImageInv(db', j) { OtherImage(db, db', j); }
  }

  lemma UploadedImage(db: Store, content: Content, user: int, url: string, now: int)
    requires StoreInv(db)
    ensures var db' := Upload(db, content, user, url, now); db.nextImage in db'.images && ImageInv(db', db.nextImage)
  {
  }

  lemma UploadKeepsImages(db: Store, content: Content, user: int, url: string, now: int)
    requires StoreInv(db)
    ensures ImagesInv(Upload(db, content, user, url, now))
  {
    UploadedImage(db, content, user, url, now);
    ImagesFrame(db, Upload(db, content, user, url, now), db.nextImage);
  }

  lemma FreshId(db: Store)
    requires ImagesInv(db)
    ensures db.nextImage !in db.images
  {
    assert forall i :: i in db.images ==> ImageInv(db, i);
  }

  lemma UploadKeepsInv(db: Store, content: Content, user: int, url: string, now: int)
    requires StoreInv(db)
    ensures StoreInv(Upload(db, content, user, url, now))
  {
    FreshId(db);
    UploadKeepsImages(db, content, user, url, now);
    RequestsFrame(db, Upload(db, content, user, url, now));
    EventsFrame(db, Upload(db, content, user, url, now));
  }

  lemma AppendKeepsHistory(first: int, next: nat, img: Image, version: Version)
    requires HistoryInv(first, next, img) && next > 0 && img.versions != []
    requires version.id == next && version.number == img.versions[|img.versions| - 1].number + 1
    ensures HistoryInv(first, next + 1, img.(versions := img.versions + [version], current := Some(version.id)))
  {
  }

  /** A live row changes, within its invariant and without being deleted. */
  ghost predicate LiveRowChanges(db: Store, db': Store, i: nat, next: nat) {
    && i in db.images && db.images[i].deletedAt.None? && db.images[i].activeDeletion.None?
    && i in db'.images && db'.images[i].deletedAt.None? && db'.images[i].activeDeletion.None?
    && db' == db.(images := db.images[i := db'.images[i]], nextVersion := next) && db.nextVersion <= next
    && HistoryInv(db.firstNumber, next, db'.images[i])
  }

  lemma LiveRowKeepsImages(db: Store, db': Store, i: nat, next: nat)
    requires StoreInv(db) && LiveRowChanges(db, db', i, next)
    ensures ImagesInv(db')
  {
    assert ImageInv(db, i);
    ImagesFrame(db, db', i);
  }

  lemma LiveRowKeepsRest(db: Store, db': Store, i: nat, next: nat)
    requires StoreInv(db) && LiveRowChanges(db, db', i, next)
    ensures RequestsInv(db') && EventsInv(db')
  {
    RequestsFrame(db, db');
    EventsFrame(db, db');
  }

  lemma CommitUpdateKeepsInv(db: Store, draft: Draft)
    requires StoreInv(db) && CommitUpdate(db, draft).Ok?
    ensures StoreInv(CommitUpdate(db, draft).value)
  {
    var img := db.images[draft.image];
    assert ImageInv(db, draft.image);
    CurrentIsLast(db.firstNumber, db.nextVersion, img);
    var version := Version(db.nextVersion, CurrentVersion(img).value.number + 1, draft.content, draft.author);
    AppendKeepsHistory(db.firstNumber, db.nextVersion, img, version);
    CommitUpdateChanges(db, draft, version);
    LiveRowKeepsImages(db, CommitUpdate(db, draft).value, draft.image, db.nextVersion + 1);
    LiveRowKeepsRest(db, CommitUpdate(db, draft).value, draft.image, db.nextVersion + 1);
  }

  lemma CommitUpdateChanges(db: Store, draft: Draft, version: Version)
    requires StoreInv(db) && CommitUpdate(db, draft).Ok?
    requires var img := db.images[draft.image];
      && version == Version(db.nextVersion, CurrentVersion(img).value.number + 1, draft.content, draft.author)
      && HistoryInv(db.firstNumber, db.nextVersion + 1,
           img.(versions := img.versions + [version], current := Some(version.id)))
    ensures LiveRowChanges(db, CommitUpdate(db, draft).value, draft.image, db.nextVersion + 1)
  {
    assert ImageInv(db, draft.image);
  }

  /** A request row is added or changes without being approved, before or after. */
  ghost predicate OpenRequestChanges(db: Store, db': Store, r: nat, next: nat) {
    && r in db'.requests && db'.requests[r].status != Approved && 0 < r < next && db.nextRequest <= next
    && (r in db.requests ==> db.requests[r].status != Approved && db.requests[r].image == db'.requests[r].image)
    && db' == db.(requests := db.requests[r := db'.requests[r]], nextRequest := next)
    && db'.requests[r].image in db.images
    && (db'.requests[r].status == Active <==> db'.requests[r].processedBy.None?)
    && (db'.requests[r].status == Active <==> db'.requests[r].processedAt.None?)
    && (db'.requests[r].status == Active ==> OnlyClaim(db, r, db'.requests[r].image, db'.requests[r].user))
  }

  ghost predicate OnlyClaim(db: Store, r: nat, i: nat, user: int) {
    forall q :: q in db.requests && q != r && db.requests[q].image == i && db.requests[q].user == user ==>
      db.requests[q].status != Active
  }

  lemma OpenRequestKeepsRows(db: Store, db': Store, r: nat, next: nat)
    requires StoreInv(db) && OpenRequestChanges(db, db', r, next)
    ensures forall q :: q in db'.requests ==> RequestInv(db', q)
  {
    forall q | q in db'.requests ensures RequestInv(db', q) {
      if q != r { assert RequestInv(db, q); }
    }
  }

  lemma OpenRequestKeepsClaims(db: Store, db': Store, r: nat, next: nat, p: nat, q: nat)
    requires StoreInv(db) && OpenRequestChanges(db, db', r, next)
    requires p in db'.requests && q in db'.requests && SameClaim(db', p, q)
    ensures p == q
  {
    if p != r && q != r { assert SameClaim(db, p, q); }
  }

  lemma OpenRequestKeepsInv(db: Store, db': Store, r: nat, next: nat)
    requires StoreInv(db) && OpenRequestChanges(db, db', r, next)
    ensures StoreInv(db')
  {
    SameImages(db, db');
    OpenRequestKeepsRows(db, db', r, next);
    forall p, q | p in db'.requests && q in db'.requests && SameClaim(db', p, q) ensures p == q {
      OpenRequestKeepsClaims(db, db', r, next, p, q);
    }
    EventsFrame(db, db');
  }

  lemma FreshRequest(db: Store)
    requires RequestsInv(db)
    ensures db.nextRequest !in db.requests
  {
    assert forall r :: r in db.requests ==> RequestInv(db, r);
  }

  lemma CreateRequestKeepsInv(db: Store, i: nat, user: int, reason: string)
    requires StoreInv(db) && CreateRequest(db, i, user, reason).Ok?
    ensures StoreInv(CreateRequest(db, i, user, reason).value)
  {
    FreshRequest(db);
    OpenRequestKeepsInv(db, CreateRequest(db, i, user, reason).value, db.nextRequest, db.nextRequest + 1);
  }

  lemma DecideKeepsInv(db: Store, db': Store, r: nat, request: Request)
    requires StoreInv(db) && r in db.requests && db.requests[r].status != Approved
    requires db' == db.(requests := db.requests[r := request]) && request.status != Approved
    requires request.image == db.requests[r].image && request.user == db.requests[r].user
    requires request.status == Active <==> request.processedBy.None?
    requires request.status == Active <==> request.processedAt.None?
    requires request.status == Active ==> !HasActiveRequest(db, request.image, request.user)
    ensures StoreInv(db')
  {
    assert RequestInv(db, r);
    OpenRequestKeepsInv(db, db', r, db.nextRequest);
  }

  /** Row changes of an approval, stated apart from the code that makes them. */
  ghost predicate Approves(db: Store, db': Store, r: nat, i: nat, event: DeletionEvent)
    requires r in db.requests && i in db.images
  {
    && r in db'.requests && i in db'.images
    && db' == db.(requests := db.requests[r := db'.requests[r]], images := db.images[i := db'.images[i]],
         deletions := db.deletions + [event])
    && db.requests[r].image == i && db'.requests[r].image == i && db'.requests[r].status == Approved
    && db'.requests[r].processedBy.Some? && db'.requests[r].processedAt.Some?
    && db'.images[i] == db.images[i].(deletedAt := db'.images[i].deletedAt, activeDeletion := Some(r), indexed := None)
    && db'.images[i].deletedAt.Some?
    && event.request == r && event.snapshot.image == i && event.snapshot == SnapshotOf(i, db'.images[i])
  }

  lemma ApprovedImage(db: Store, db': Store, r: nat, i: nat, event: DeletionEvent)
    requires StoreInv(db) && r in db.requests && i in db.images && Approves(db, db', r, i, event)
    ensures ImageInv(db', i)
  {
    assert ImageInv(db, i);
  }

  lemma ApproveKeepsImages(db: Store, db': Store, r: nat, i: nat, event: DeletionEvent)
    requires StoreInv(db) && r in db.requests && i in db.images && Approves(db, db', r, i, event)
    requires db.requests[r].status != Approved
    ensures ImagesInv(db')
  {
    ApprovedImage(db, db', r, i, event);
    ImagesFrame(db, db', i);
  }

  lemma ApproveKeepsRequests(db: Store, db': Store, r: nat, i: nat, event: DeletionEvent)
    requires StoreInv(db) && r in db.requests && i in db.images && Approves(db, db', r, i, event)
    requires db.requests[r].status != Approved && db.images[i].activeDeletion.None?
    ensures RequestsInv(db')
  {
    forall q | q in db'.requests ensures RequestInv(db', q) { assert RequestInv(db, q); }
    forall p, q | p in db'.requests && q in db'.requests && SameClaim(db', p, q) ensures p == q {
      assert SameClaim(db, p, q);
    }
  }

  lemma ApproveKeepsEvents(db: Store, db': Store, r: nat, i: nat, event: DeletionEvent)
    requires StoreInv(db) && r in db.requests && i in db.images && Approves(db, db', r, i, event)
    requires db.images[i].activeDeletion.None?
    ensures EventsInv(db')
  {
    forall k | 0 <= k < |db'.deletions| ensures EventInv(db', k) {
      if k < |db.deletions| { assert EventInv(db, k); }
    }
    forall j, k | 0 <= j < k < |db'.deletions|
      ensures db'.deletions[j].snapshot.image != db'.deletions[k].snapshot.image
    {
      assert EventInv(db, j);
    }
    forall m | m in db'.images && db'.images[m].deletedAt.Some? ensures exists k :: Announces(db', k, m) {
      if m == i {
        assert Announces(db', |db.deletions|, m);
      } else {
        var k :| Announces(db, k, m);
        assert Announces(db', k, m);
      }
    }
  }

  lemma ApproveKeepsInv(db: Store, r: nat, actor: int, now: int)
    requires StoreInv(db) && r in db.requests && db.requests[r].image in db.images
    requires db.requests[r].status != Approved && db.images[db.requests[r].image].activeDeletion.None?
    ensures StoreInv(Approve(RecordDecision(db, r, Approved, actor, now), r, actor, now))
  {
    var i := db.requests[r].image;
    var db' := Approve(RecordDecision(db, r, Approved, actor, now), r, actor, now);
    var event := DeletionEvent(r, SnapshotOf(i, db'.images[i]), actor);
    assert Approves(db, db', r, i, event);
    ApproveKeepsImages(db, db', r, i, event);
    ApproveKeepsRequests(db, db', r, i, event);
    ApproveKeepsEvents(db, db', r, i, event);
  }

  lemma DecisionChanges(db: Store, r: nat, next: Status, actor: int, now: int)
    requires StoreInv(db) && r in db.requests && db.requests[r].status != Approved && next != Approved
    requires next == Active ==> !HasActiveRequest(db, db.requests[r].image, db.requests[r].user)
    ensures StoreInv(RecordDecision(db, r, next, actor, now))
  {
    var decided := RecordDecision(db, r, next, actor, now);
    DecideKeepsInv(db, decided, r, decided.requests[r]);
  }

  /** What a successful decision has checked, and what it comes to. */
  lemma ModerateCases(db: Store, r: nat, action: Action, expected: Status, actor: int, now: int) returns (next: Status)
    requires ModerateDeletion(db, r, action, expected, actor, now).Ok?
    ensures r in db.requests && db.requests[r].image in db.images && db.requests[r].status != Approved
    ensures next == Approved ==> db.images[db.requests[r].image].activeDeletion.None?
    ensures next == Active ==> !HasActiveRequest(db, db.requests[r].image, db.requests[r].user)
    ensures var decided := RecordDecision(db, r, next, actor, now);
      ModerateDeletion(db, r, action, expected, actor, now).value
        == if next == Approved then Approve(decided, r, actor, now) else decided
  {
    next := NextStatus(db.requests[r].status, action).value;
  }

  lemma ModerateKeepsInv(db: Store, r: nat, action: Action, expected: Status, actor: int, now: int)
    requires StoreInv(db) && ModerateDeletion(db, r, action, expected, actor, now).Ok?
    ensures StoreInv(ModerateDeletion(db, r, action, expected, actor, now).value)
  {
    var next := ModerateCases(db, r, action, expected, actor, now);
    if next == Approved {
      ApproveKeepsInv(db, r, actor, now);
    } else {
      DecisionChanges(db, r, next, actor, now);
    }
  }

  lemma MarkerKeepsImages(db: Store, db': Store, i: nat, marker: nat)
    requires StoreInv(db) && i in db.images && marker < db.nextVersion
    requires db' == db.(images := db.images[i := db.images[i].(indexed := Some(marker))])
    ensures ImagesInv(db')
  {
    assert ImageInv(db, i);
    ImagesFrame(db, db', i);
  }

  lemma MarkerKeepsRest(db: Store, db': Store, i: nat, marker: nat)
    requires StoreInv(db) && i in db.images
    requires db' == db.(images := db.images[i := db.images[i].(indexed := Some(marker))])
    ensures RequestsInv(db') && EventsInv(db')
  {
    RequestsFrame(db, db');
    EventsFrame(db, db');
  }

  lemma MarkerKeepsInv(db: Store, db': Store, i: nat, marker: nat)
    requires StoreInv(db) && i in db.images && marker < db.nextVersion
    requires db' == db.(images := db.images[i := db.images[i].(indexed := Some(marker))])
    ensures StoreInv(db')
  {
    MarkerKeepsImages(db, db', i, marker);
    MarkerKeepsRest(db, db', i, marker);
  }

  /** Which image rows each transaction changes, for those who need no more than that. */
  lemma CommitUpdateRow(db: Store, draft: Draft)
    requires CommitUpdate(db, draft).Ok?
    ensures var db' := CommitUpdate(db, draft).value;
      && draft.image in db.images && db.images[draft.image].deletedAt.None?
      && draft.image in db'.images && db'.images == db.images[draft.image := db'.images[draft.image]]
      && db'.images[draft.image].current == Some(db.nextVersion)
      && db'.images[draft.image].deletedAt.None?
      && db'.images[draft.image].indexed == db.images[draft.image].indexed
  {
  }

  lemma ModerateRow(db: Store, r: nat, action: Action, expected: Status, actor: int, now: int)
    requires ModerateDeletion(db, r, action, expected, actor, now).Ok?
    ensures r in db.requests && db.requests[r].image in db.images
    ensures var db', i := ModerateDeletion(db, r, action, expected, actor, now).value, db.requests[r].image;
      if action == Accept then
        && db.images[i].deletedAt.None? && db.images[i].activeDeletion.None?
        && db'.images
           == db.images[i := db.images[i].(deletedAt := Some(now), activeDeletion := Some(r), indexed := None)]
      else db'.images == db.images
  {
  }

  lemma EmptyStoreHasInv(db: Store)
    requires EmptyStore(db)
    ensures StoreInv(db)
  {
  }

  // ----- what no transaction undoes -----

  /** Versions are only appended, and once the tombstone is set only the index marker may still move, up to 0 where it
      stays. */
  ghost predicate RowGrows(img: Image, img': Image) {
    && img.versions <= img'.versions
    && img'.uploader == img.uploader && img'.url == img.url && img'.createdAt == img.createdAt
    && (img.deletedAt.Some? ==> img' == img.(indexed := img'.indexed))
    && (img.deletedAt.Some? && img.indexed == Some(0) ==> img'.indexed == Some(0))
  }

  ghost predicate RequestGrows(request: Request, request': Request) {
    && request'.image == request.image && request'.user == request.user && request'.reason == request.reason
    && (request.status == Approved ==> request' == request)
  }

  ghost predicate Grows(db: Store, db': Store) {
    && db'.firstNumber == db.firstNumber
    && db.deletions <= db'.deletions
    && (forall i :: i in db.images ==> i in db'.images && RowGrows(db.images[i], db'.images[i]))
    && (forall r :: r in db.requests ==> r in db'.requests && RequestGrows(db.requests[r], db'.requests[r]))
  }

  lemma GrowsTransitive(a: Store, b: Store, c: Store)
    requires Grows(a, b) && Grows(b, c)
    ensures Grows(a, c)
  {
    forall i | i in a.images ensures i in c.images && RowGrows(a.images[i], c.images[i]) {
      assert RowGrows(a.images[i], b.images[i]) && RowGrows(b.images[i], c.images[i]);
    }
    forall r | r in a.requests ensures r in c.requests && RequestGrows(a.requests[r], c.requests[r]) {
      assert RequestGrows(a.requests[r], b.requests[r]) && RequestGrows(b.requests[r], c.requests[r]);
    }
  }

  /** One image row and one request row grow, everything else is kept. */
  lemma RowsGrow(db: Store, db': Store, i: nat, r: nat)
    requires db'.firstNumber == db.firstNumber && db.deletions <= db'.deletions
    requires i in db.images ==> i in db'.images && RowGrows(db.images[i], db'.images[i])
    requires r in db.requests ==> r in db'.requests && RequestGrows(db.requests[r], db'.requests[r])
    requires forall j :: j in db.images && j != i ==> j in db'.images && db'.images[j] == db.images[j]
    requires forall q :: q in db.requests && q != r ==> q in db'.requests && db'.requests[q] == db.requests[q]
    ensures Grows(db, db')
  {
    assert forall j :: j in db.images ==> RowGrows(db.images[j], db.images[j]);
    assert forall q :: q in db.requests ==> RequestGrows(db.requests[q], db.requests[q]);
  }

  lemma ModerateRequestRow(db: Store, r: nat, action: Action, expected: Status, actor: int, now: int)
    requires ModerateDeletion(db, r, action, expected, actor, now).Ok?
    ensures var db' := ModerateDeletion(db, r, action, expected, actor, now).value;
      && db'.firstNumber == db.firstNumber && db.deletions <= db'.deletions
      && r in db.requests && r in db'.requests && RequestGrows(db.requests[r], db'.requests[r])
      && forall q :: q in db.requests && q != r ==> q in db'.requests && db'.requests[q] == db.requests[q]
  {
  }

  /** At most one live image row is tombstoned. */
  ghost predicate AtMostTombstones(db: Store, db': Store, i: nat) {
    && i in db.images && i in db'.images
    && db'.images == db.images[i := db'.images[i]]
    && (db'.images[i] == db.images[i] || (
          && db.images[i].deletedAt.None?
          && db'.images[i] == db.images[i].(deletedAt := db'.images[i].deletedAt,
               activeDeletion := db'.images[i].activeDeletion, indexed := db'.images[i].indexed)))
  }

  lemma ModerateImageRow(db: Store, r: nat, action: Action, expected: Status, actor: int, now: int)
    requires ModerateDeletion(db, r, action, expected, actor, now).Ok?
    ensures r in db.requests
    ensures AtMostTombstones(db, ModerateDeletion(db, r, action, expected, actor, now).value, db.requests[r].image)
  {
    ModerateRow(db, r, action, expected, actor, now);
  }

  lemma TombstoneGrows(db: Store, db': Store, i: nat, r: nat)
    requires AtMostTombstones(db, db', i)
    requires db'.firstNumber == db.firstNumber && db.deletions <= db'.deletions
    requires r in db.requests && r in db'.requests && RequestGrows(db.requests[r], db'.requests[r])
    requires forall q :: q in db.requests && q != r ==> q in db'.requests && db'.requests[q] == db.requests[q]
    ensures Grows(db, db')
  {
    RowsGrow(db, db', i, r);
  }

  lemma ModerateGrows(db: Store, r: nat, action: Action, expected: Status, actor: int, now: int)
    requires ModerateDeletion(db, r, action, expected, actor, now).Ok?
    ensures Grows(db, ModerateDeletion(db, r, action, expected, actor, now).value)
  {
    ModerateImageRow(db, r, action, expected, actor, now);
    ModerateRequestRow(db, r, action, expected, actor, now);
    TombstoneGrows(db, ModerateDeletion(db, r, action, expected, actor, now).value, db.requests[r].image, r);
  }

  lemma UploadGrows(db: Store, content: Content, user: int, url: string, now: int)
    requires StoreInv(db)
    ensures Grows(db, Upload(db, content, user, url, now))
  {
    assert forall i :: i in db.images ==> ImageInv(db, i);
    RowsGrow(db, Upload(db, content, user, url, now), db.nextImage, 0);
  }

  lemma CommitUpdateGrows(db: Store, draft: Draft)
    requires CommitUpdate(db, draft).Ok?
    ensures Grows(db, CommitUpdate(db, draft).value)
  {
    RowsGrow(db, CommitUpdate(db, draft).value, draft.image, 0);
  }

  lemma CreateRequestGrows(db: Store, i: nat, user: int, reason: string)
    requires StoreInv(db) && CreateRequest(db, i, user, reason).Ok?
    ensures Grows(db, CreateRequest(db, i, user, reason).value)
  {
    assert forall r :: r in db.requests ==> RequestInv(db, r);
    RowsGrow(db, CreateRequest(db, i, user, reason).value, i, db.nextRequest);
  }

  // ----- what each transaction comes to, on the rows alone -----

  /** Ids are distinct, so a version is found by its own. */
  lemma {:induction false} FindsById(versions: seq<Version>, k: nat)
    requires k < |versions| && forall j, m :: 0 <= j < m < |versions| ==> versions[j].id < versions[m].id
    ensures Find(versions, versions[k].id) == Some(versions[k])
    decreases |versions|
  {
    if k < |versions| - 1 { FindsById(versions[..|versions| - 1], k); }
  }

  /** The snapshot shows the last version of the history; without one its metadata is empty. */
  lemma SnapshotIsLast(db: Store, i: nat)
    requires StoreInv(db) && i in db.images
    ensures var img := db.images[i]; var n := |img.versions|;
      SnapshotOf(i, img) == Snapshot(i, img.url, img.createdAt, img.uploader,
        if n == 0 then 0 else img.versions[n - 1].number,
        if n == 0 then Content("", RatingNone, {}) else img.versions[n - 1].content)
  {
    assert ImageInv(db, i);
    CurrentIsLast(db.firstNumber, db.nextVersion, db.images[i]);
  }

  lemma LiveIsVersioned(db: Store, i: nat)
    requires StoreInv(db) && i in db.images
    ensures Live(db.images[i]) <==> db.images[i].deletedAt.None? && db.images[i].versions != []
  {
    assert ImageInv(db, i);
    CurrentIsLast(db.firstNumber, db.nextVersion, db.images[i]);
  }

  /** What an edit is drafted from: each patched field is the patch's, the others are those of the last version. */
  lemma DraftOutcome(db: Store, i: nat, patch: Patch, user: int)
    requires StoreInv(db)
    ensures ReadForUpdate(db, i, patch, user).Ok? <==>
      i in db.images && db.images[i].deletedAt.None? && db.images[i].versions != []
    ensures ReadForUpdate(db, i, patch, user).Ok? ==>
      var draft, versions := ReadForUpdate(db, i, patch, user).value, db.images[i].versions;
      var last, written := versions[|versions| - 1].content, draft.content;
      && draft.image == i && draft.author == user
      && (if patch.text.Some? then Some(written.text) == patch.text else written.text == last.text)
      && (if patch.rating.Some? then Some(written.rating) == patch.rating else written.rating == last.rating)
      && (if patch.tags.Some? then Some(written.tags) == patch.tags else written.tags == last.tags)
  {
    if i in db.images {
      assert ImageInv(db, i);
      CurrentIsLast(db.firstNumber, db.nextVersion, db.images[i]);
    }
  }

  /** An edit succeeds on every image that is not deleted and has a version, and appends one that holds what was
      drafted under the next number. */
  lemma EditOutcome(db: Store, draft: Draft)
    requires StoreInv(db)
    ensures CommitUpdate(db, draft).Ok? <==>
      draft.image in db.images && db.images[draft.image].deletedAt.None? && db.images[draft.image].versions != []
    ensures CommitUpdate(db, draft).Ok? ==>
      var img := db.images[draft.image];
      var number := img.versions[|img.versions| - 1].number + 1;
      var edited := img.(current := Some(db.nextVersion),
        versions := img.versions + [Version(db.nextVersion, number, draft.content, draft.author)]);
      CommitUpdate(db, draft).value
        == db.(images := db.images[draft.image := edited], nextVersion := db.nextVersion + 1)
  {
    if draft.image in db.images {
      assert ImageInv(db, draft.image);
      CurrentIsLast(db.firstNumber, db.nextVersion, db.images[draft.image]);
    }
  }

  ghost predicate NoActiveRequest(db: Store, i: nat, user: int) {
    forall q :: q in db.requests && db.requests[q].image == i && db.requests[q].user == user ==>
      db.requests[q].status != Active
  }

  /** A request is refused exactly for an unknown or deleted image and for a second active request of one user. */
  lemma RequestOutcome(db: Store, i: nat, user: int, reason: string)
    ensures CreateRequest(db, i, user, reason).Ok? <==>
      i in db.images && db.images[i].deletedAt.None? && NoActiveRequest(db, i, user)
    ensures CreateRequest(db, i, user, reason) == Err(NotFound) <==> i !in db.images
    ensures CreateRequest(db, i, user, reason).Ok? ==>
      var db' := CreateRequest(db, i, user, reason).value;
      && db'.requests == db.requests[db.nextRequest := Request(i, user, reason, Active, None, None)]
      && db' == db.(requests := db'.requests, nextRequest := db.nextRequest + 1)
  {
  }

  /** Which decisions succeed: a known moderator's on an existing request and image, with the status the moderator saw,
      and one the status and the image admit. */
  lemma DecisionSucceeds(db: Store, r: nat, action: Action, expected: Status, actor: int, now: int)
    ensures ModerateDeletion(db, r, action, expected, actor, now).Ok? <==>
      && actor > 0 && r in db.requests && db.requests[r].image in db.images && db.requests[r].status == expected
      && (action == Accept ==>
            && (expected == Active || expected == Rejected) && actor in db.users
            && db.images[db.requests[r].image].deletedAt.None?
            && db.images[db.requests[r].image].activeDeletion.None?)
      && (action == Reject ==> expected == Active)
      && (action == Reopen ==> expected == Rejected && NoActiveRequest(db, db.requests[r].image, db.requests[r].user))
  {
  }

  /** Which error a refused decision ends with: the two conflicts and the unknown rows are told apart. */
  lemma DecisionRefused(db: Store, r: nat, action: Action, expected: Status, actor: int, now: int)
    ensures var result := ModerateDeletion(db, r, action, expected, actor, now);
      && (result == Err(Unauthenticated) <==> actor <= 0)
      && (actor > 0 && (r !in db.requests || db.requests[r].image !in db.images) ==> result == Err(NotFound))
      && (actor > 0 && r in db.requests && db.requests[r].image in db.images && db.requests[r].status != expected ==>
            result == Err(StateConflict))
      && (result == Err(UniqueViolation) ==>
            action == Reopen && !NoActiveRequest(db, db.requests[r].image, db.requests[r].user))
  {
  }

  /** The request row after a decision: its status, and who decided when, which reopening forgets. */
  lemma DecidedRequest(db: Store, r: nat, action: Action, expected: Status, actor: int, now: int)
    requires ModerateDeletion(db, r, action, expected, actor, now).Ok?
    ensures r in db.requests
    ensures var was, db' := db.requests[r], ModerateDeletion(db, r, action, expected, actor, now).value;
      && r in db'.requests && db'.requests == db.requests[r := db'.requests[r]]
      && (action == Accept ==>
            db'.requests[r] == was.(status := Approved, processedBy := Some(actor), processedAt := Some(now)))
      && (action == Reject ==>
            db'.requests[r] == was.(status := Rejected, processedBy := Some(actor), processedAt := Some(now)))
      && (action == Reopen ==> db'.requests[r] == was.(status := Active, processedBy := None, processedAt := None))
  {
  }

  /** The rest of the rows after a decision: only an approval touches them, and it sets the tombstone, takes the
      index marker back, and records one event in the approving moderator's name with the image as it stands. */
  lemma DecidedRows(db: Store, r: nat, action: Action, expected: Status, actor: int, now: int)
    requires StoreInv(db) && ModerateDeletion(db, r, action, expected, actor, now).Ok?
    ensures r in db.requests && db.requests[r].image in db.images
    ensures var db', i := ModerateDeletion(db, r, action, expected, actor, now).value, db.requests[r].image;
      && db' == db.(requests := db'.requests, images := db'.images, deletions := db'.deletions)
      && (action != Accept ==> db'.images == db.images && db'.deletions == db.deletions)
      && (action == Accept ==>
            && db'.images
               == db.images[i := db.images[i].(deletedAt := Some(now), activeDeletion := Some(r), indexed := None)]
            && var img := db.images[i]; var n := |img.versions|;
               db'.deletions == db.deletions + [DeletionEvent(r,
                 Snapshot(i, img.url, img.createdAt, img.uploader,
                   if n == 0 then 0 else img.versions[n - 1].number,
                   if n == 0 then Content("", RatingNone, {}) else img.versions[n - 1].content),
                 actor)])
  {
    ModerateRow(db, r, action, expected, actor, now);
    SnapshotIsLast(db, db.requests[r].image);
  }
}
