/** The catalogue together with its search index: every interleaving of edits, moderation, index jobs,
    timeouts and retries. A row lock is held from Acquire until Commit or Abandon.

    The index is a log of writes in submission order, of which the first |results| have been processed. */
module IndexProtocol {
  import opened Options
  import opened Catalog

  datatype Document = Document(id: nat, text: string, tags: set<string>, rating: int, userId: int, createdAt: int)

  /** No document is a removal. */
  datatype Write = Write(image: nat, document: Option<Document>)

  /** `marker` is the value the job will store, read under the lock; `ticket` is its position in the log. */
  datatype Stage = Holding(asked: nat) | Waiting(marker: nat, ticket: nat) | Confirmed(marker: nat, ticket: nat)

  datatype World = World(
    db: Store, drafts: map<nat, Draft>, jobs: set<(nat, nat)>,
    locks: map<nat, Stage>, log: seq<Write>, results: seq<bool>)

  datatype Event =
    | Uploaded(content: Content, user: int, url: string, now: int)
    | EditRead(slot: nat, image: nat, patch: Patch, user: int)
    | EditCommit(slot: nat)
    | Requested(image: nat, user: int, reason: string)
    | Moderated(request: nat, action: Action, expected: Status, actor: int, now: int)
    | Scheduled(image: nat)
    | Acquire(image: nat, asked: nat)
    | Submit(image: nat)
    | Process(ok: bool)
    | Confirm(image: nat)
    | Commit(image: nat)
    | Abandon(image: nat)

  // ----- the document a row calls for -----

  function RatingNumber(rating: Rating): int {
    match rating
    case RatingViolent => 3
    case RatingModerate => 2
    case RatingNone => 1
  }

  function DocumentOf(i: nat, img: Image): Document {
    var row := SnapshotOf(i, img);
    Document(i, row.content.text, row.content.tags, RatingNumber(row.content.rating), row.uploader, row.createdAt)
  }

  predicate CallsForRemoval(img: Image) {
    img.deletedAt.Some? || img.current.None?
  }

  function Desired(i: nat, img: Image): Option<Document> {
    if CallsForRemoval(img) then None else Some(DocumentOf(i, img))
  }

  function DesiredMarker(img: Image): nat {
    if CallsForRemoval(img) then 0 else img.current.value
  }

  predicate Marked(img: Image) {
    img.indexed == Some(DesiredMarker(img))
  }

  /** The WHERE clause of GetUnindexedImages. */
  predicate NeedsIndex(img: Image) {
    || (img.deletedAt.Some? && img.indexed != Some(0))
    || (img.deletedAt.None? && CurrentVersion(img).Some? && img.indexed != Some(CurrentVersion(img).value.id))
  }

  // ----- the index -----

  /** What the processed part of the log leaves stored for an image. */
  function Stored(log: seq<Write>, results: seq<bool>, i: nat): Option<Document>
    requires |results| <= |log|
  {
    if results == [] then None
    else
      var last := |results| - 1;
      if results[last] && log[last].image == i then log[last].document else Stored(log, results[..last], i)
  }

  // ----- steps; an event that is not enabled changes nothing -----

  function Step(w: World, e: Event): World {
    match e
    case Uploaded(content, user, url, now) =>
      w.(db := Upload(w.db, content, user, url, now), jobs := w.jobs + {(w.db.nextImage, w.db.nextVersion)})
    case EditRead(slot, i, patch, user) =>
      (match ReadForUpdate(w.db, i, patch, user)
       case Ok(draft) => w.(drafts := w.drafts[slot := draft])
       case Err(_) => w)
    case EditCommit(slot) =>
      if slot !in w.drafts || w.drafts[slot].image in w.locks then w
      else
        (match CommitUpdate(w.db, w.drafts[slot])
         case Ok(db) =>
           w.(db := db, jobs := w.jobs + {(w.drafts[slot].image, w.db.nextVersion)}, drafts := w.drafts - {slot})
         case Err(_) => w.(drafts := w.drafts - {slot}))
    case Requested(i, user, reason) =>
      if i in w.locks then w
      else
        (match CreateRequest(w.db, i, user, reason)
         case Ok(db) => w.(db := db)
         case Err(_) => w)
    case Moderated(r, action, expected, actor, now) =>
      if r in w.db.requests && w.db.requests[r].image in w.locks then w
      else
        (match ModerateDeletion(w.db, r, action, expected, actor, now)
         case Ok(db) =>
           w.(db := db, jobs := if action == Accept then w.jobs + {(w.db.requests[r].image, 0)} else w.jobs)
         case Err(_) => w)
    case Scheduled(i) =>
      if i in w.db.images && NeedsIndex(w.db.images[i])
      then w.(jobs := w.jobs + {(i, DesiredMarker(w.db.images[i]))}) else w
    case Acquire(i, asked) =>
      if (i, asked) in w.jobs && i in w.db.images && i !in w.locks then w.(locks := w.locks[i := Holding(asked)]) else w
    case Submit(i) =>
      if i in w.locks && w.locks[i].Holding? && i in w.db.images
      then Decide(w, i, w.db.images[i], w.locks[i].asked) else w
    case Process(ok) =>
      if |w.results| < |w.log| then w.(results := w.results + [ok]) else w
    case Confirm(i) =>
      if i in w.locks && w.locks[i].Waiting? && w.locks[i].ticket < |w.results| && w.results[w.locks[i].ticket]
      then w.(locks := w.locks[i := Confirmed(w.locks[i].marker, w.locks[i].ticket)]) else w
    case Commit(i) =>
      if i in w.locks && w.locks[i].Confirmed? && i in w.db.images
      then
        var db := w.db.(images := w.db.images[i := Mark(w.db.images[i], w.locks[i].marker)]);
        w.(db := db, locks := w.locks - {i})
      else w
    case Abandon(i) => w.(locks := w.locks - {i})
  }

  /** The decision syncImageIndex takes under the lock: remove, skip, or write the current document. */
  function Decide(w: World, i: nat, img: Image, asked: nat): World {
    if CallsForRemoval(img) then Enqueue(w, i, None, 0)
    else if asked != 0 && img.indexed == img.current then w.(locks := w.locks - {i})
    else Enqueue(w, i, Some(DocumentOf(i, img)), img.current.value)
  }

  function Enqueue(w: World, i: nat, document: Option<Document>, marker: nat): World {
    w.(log := w.log + [Write(i, document)], locks := w.locks[i := Waiting(marker, |w.log|)])
  }

  /** CommitImageIndexRemoval and CommitUnindexedVersion, with their WHERE guards. */
  function Mark(img: Image, marker: nat): Image {
    if marker == 0 then (if CallsForRemoval(img) then img.(indexed := Some(0)) else img)
    else if img.current == Some(marker) then img.(indexed := Some(marker)) else img
  }

  function Run(w: World, es: seq<Event>): World
    decreases |es|
  {
    if es == [] then w else Run(Step(w, es[0]), es[1..])
  }

  // ----- invariant -----

  ghost predicate SettledAt(log: seq<Write>, results: seq<bool>, i: nat, d: Option<Document>, k: int) {
    && 0 <= k < |results| <= |log| && results[k] && log[k] == Write(i, d)
    && forall m :: k < m < |log| && log[m].image == i ==> log[m].document == d
  }

  /** Some acknowledged write stored `d`, and every later write for the image repeats it. */
  ghost predicate Settled(log: seq<Write>, results: seq<bool>, i: nat, d: Option<Document>) {
    exists k :: SettledAt(log, results, i, d, k)
  }

  ghost predicate StageInv(log: seq<Write>, results: seq<bool>, i: nat, img: Image, stage: Stage) {
    stage.Holding? || (
      && stage.marker == DesiredMarker(img)
      && stage.ticket < |log| && log[stage.ticket] == Write(i, Desired(i, img))
      && (forall m :: stage.ticket < m < |log| ==> log[m].image != i)
      && (stage.Confirmed? ==> stage.ticket < |results| && results[stage.ticket]))
  }

  ghost predicate JobInv(images: map<nat, Image>, job: (nat, nat)) {
    job.0 in images && (job.1 == 0 ==> images[job.0].deletedAt.Some?)
  }

  ghost predicate WriteInv(images: map<nat, Image>, write: Write) {
    write.image in images && (write.document.Some? ==> images[write.image].current.Some?)
  }

  ghost predicate RowInv(w: World, i: nat)
    requires i in w.db.images
  {
    && (Marked(w.db.images[i]) ==> Settled(w.log, w.results, i, Desired(i, w.db.images[i])))
    && (i in w.locks ==> StageInv(w.log, w.results, i, w.db.images[i], w.locks[i]))
  }

  ghost predicate Inv(w: World) {
    && StoreInv(w.db)
    && |w.results| <= |w.log|
    && w.locks.Keys <= w.db.images.Keys
    && (forall job :: job in w.jobs ==> JobInv(w.db.images, job))
    && (forall m :: 0 <= m < |w.log| ==> WriteInv(w.db.images, w.log[m]))
    && (forall i :: i in w.db.images ==> RowInv(w, i))
  }

  ghost predicate Init(w: World) {
    EmptyStore(w.db) && w.drafts == map[] && w.jobs == {} && w.locks == map[] && w.log == [] && w.results == []
  }

  /** A transaction on one unlocked row that leaves it unmarked, and the job it enqueues. */
  lemma RowKeepsInv(w: World, w': World, i: nat, img: Image, job: (nat, nat))
    requires Inv(w) && StoreInv(w'.db) && i !in w.locks
    requires w'.locks == w.locks && w'.log == w.log && w'.results == w.results
    requires w'.db.images == w.db.images[i := img] && !Marked(img)
    requires i in w.db.images && w.db.images[i].current.Some? ==> img.current.Some?
    requires i in w.db.images && w.db.images[i].deletedAt.Some? ==> img.deletedAt.Some?
    requires w'.jobs == w.jobs + {job} && JobInv(w'.db.images, job)
    ensures Inv(w')
  {
    forall j | j in w'.db.images ensures RowInv(w', j) {
      if j != i { assert RowInv(w, j); }
    }
    forall earlier | earlier in w.jobs ensures JobInv(w'.db.images, earlier) { assert JobInv(w.db.images, earlier); }
    forall m | 0 <= m < |w'.log| ensures WriteInv(w'.db.images, w'.log[m]) { assert WriteInv(w.db.images, w.log[m]); }
  }

  /** A transaction that leaves the image rows alone. */
  lemma NoRowKeepsInv(w: World, w': World)
    requires Inv(w) && StoreInv(w'.db) && w'.db.images == w.db.images && w'.jobs == w.jobs
    requires w'.locks == w.locks && w'.log == w.log && w'.results == w.results
    ensures Inv(w')
  {
    forall j | j in w'.db.images ensures RowInv(w', j) { assert RowInv(w, j); }
  }

  lemma UploadedKeepsInv(w: World, e: Event)
    requires Inv(w) && e.Uploaded?
    ensures Inv(Step(w, e))
  {
    var w' := Step(w, e);
    UploadKeepsInv(w.db, e.content, e.user, e.url, e.now);
    assert forall i :: i in w.db.images ==> ImageInv(w.db, i);
    RowKeepsInv(w, w', w.db.nextImage, w'.db.images[w.db.nextImage], (w.db.nextImage, w.db.nextVersion));
  }

  lemma EditCommitKeepsInv(w: World, e: Event)
    requires Inv(w) && e.EditCommit? && e.slot in w.drafts && w.drafts[e.slot].image !in w.locks
    requires CommitUpdate(w.db, w.drafts[e.slot]).Ok?
    ensures Inv(Step(w, e))
  {
    var w', draft := Step(w, e), w.drafts[e.slot];
    CommitUpdateKeepsInv(w.db, draft);
    CommitUpdateRow(w.db, draft);
    assert ImageInv(w.db, draft.image);
    RowKeepsInv(w, w', draft.image, w'.db.images[draft.image], (draft.image, w.db.nextVersion));
  }

  lemma ModeratedStep(w: World, e: Event) returns (db': Store, i: nat)
    requires e.Moderated? && (e.request in w.db.requests ==> w.db.requests[e.request].image !in w.locks)
    requires ModerateDeletion(w.db, e.request, e.action, e.expected, e.actor, e.now).Ok?
    ensures db' == ModerateDeletion(w.db, e.request, e.action, e.expected, e.actor, e.now).value
    ensures e.request in w.db.requests && i == w.db.requests[e.request].image && i !in w.locks
    ensures Step(w, e) == w.(db := db', jobs := if e.action == Accept then w.jobs + {(i, 0)} else w.jobs)
  {
    db' := ModerateDeletion(w.db, e.request, e.action, e.expected, e.actor, e.now).value;
    i := w.db.requests[e.request].image;
  }

  lemma ModeratedKeepsInv(w: World, e: Event)
    requires Inv(w) && e.Moderated? && (e.request in w.db.requests ==> w.db.requests[e.request].image !in w.locks)
    requires ModerateDeletion(w.db, e.request, e.action, e.expected, e.actor, e.now).Ok?
    ensures Inv(Step(w, e))
  {
    var db', i := ModeratedStep(w, e);
    ModerateKeepsInv(w.db, e.request, e.action, e.expected, e.actor, e.now);
    ModerateRow(w.db, e.request, e.action, e.expected, e.actor, e.now);
    DecidedKeepsInv(w, db', i, e.action == Accept);
  }

  lemma DecidedKeepsInv(w: World, db': Store, i: nat, accepted: bool)
    requires Inv(w) && StoreInv(db') && i !in w.locks && i in w.db.images
    requires !accepted ==> db'.images == w.db.images
    requires accepted ==> i in db'.images && db'.images == w.db.images[i := db'.images[i]]
    requires accepted ==>
      && db'.images[i].deletedAt.Some? && db'.images[i].indexed.None? && db'.images[i].current == w.db.images[i].current
    ensures Inv(w.(db := db', jobs := if accepted then w.jobs + {(i, 0)} else w.jobs))
  {
    if accepted {
      RowKeepsInv(w, w.(db := db', jobs := w.jobs + {(i, 0)}), i, db'.images[i], (i, 0));
    } else {
      NoRowKeepsInv(w, w.(db := db'));
    }
  }

  lemma RequestedKeepsInv(w: World, e: Event)
    requires Inv(w) && e.Requested? && CreateRequest(w.db, e.image, e.user, e.reason).Ok?
    ensures Inv(Step(w, e))
  {
    CreateRequestKeepsInv(w.db, e.image, e.user, e.reason);
    NoRowKeepsInv(w, Step(w, e));
  }

  /** A longer log keeps an image settled when what is added for it repeats the document. */
  lemma SettledLater(
    log: seq<Write>, results: seq<bool>, log': seq<Write>, results': seq<bool>, i: nat, d: Option<Document>)
    requires Settled(log, results, i, d) && log <= log' && results <= results' && |results'| <= |log'|
    requires forall m :: |log| <= m < |log'| && log'[m].image == i ==> log'[m].document == d
    ensures Settled(log', results', i, d)
  {
    var k :| SettledAt(log, results, i, d, k);
    forall m | k < m < |log'| && log'[m].image == i ensures log'[m].document == d {
      if m < |log| { assert log'[m] == log[m]; }
    }
    assert SettledAt(log', results', i, d, k);
  }

  lemma StageLater(
    log: seq<Write>, results: seq<bool>, log': seq<Write>, results': seq<bool>, i: nat, img: Image, stage: Stage)
    requires StageInv(log, results, i, img, stage) && log <= log' && results <= results'
    requires forall m :: |log| <= m < |log'| ==> log'[m].image != i
    ensures StageInv(log', results', i, img, stage)
  {
  }

  /** The events that are no transaction on the catalogue. */
  predicate LeavesRows(e: Event) {
    !e.Uploaded? && !e.EditCommit? && !e.Requested? && !e.Moderated? && !e.Commit?
  }

  lemma RowsLeft(w: World, e: Event)
    requires LeavesRows(e)
    ensures Step(w, e).db == w.db
  {
  }

  lemma RequestedRows(w: World, e: Event)
    requires e.Requested?
    ensures Step(w, e).db.images == w.db.images && Step(w, e).db.nextVersion == w.db.nextVersion
  {
  }

  lemma EnqueuedRow(w: World, i: nat, j: nat)
    requires Inv(w) && i in w.db.images && i in w.locks && j in w.db.images
    ensures RowInv(Enqueue(w, i, Desired(i, w.db.images[i]), DesiredMarker(w.db.images[i])), j)
  {
    var img, d := w.db.images[j], Desired(j, w.db.images[j]);
    var w' := Enqueue(w, i, Desired(i, w.db.images[i]), DesiredMarker(w.db.images[i]));
    assert RowInv(w, j);
    if Marked(img) { SettledLater(w.log, w.results, w'.log, w'.results, j, d); }
    if j != i && j in w.locks { StageLater(w.log, w.results, w'.log, w'.results, j, img, w.locks[j]); }
  }

  lemma EnqueueKeepsWrites(w: World, i: nat, m: nat)
    requires Inv(w) && i in w.db.images
    requires m <= |w.log|
    ensures WriteInv(w.db.images, (w.log + [Write(i, Desired(i, w.db.images[i]))])[m])
  {
    if m < |w.log| { assert WriteInv(w.db.images, w.log[m]); }
  }

  lemma EnqueueKeepsInv(w: World, i: nat)
    requires Inv(w) && i in w.db.images && i in w.locks
    ensures Inv(Enqueue(w, i, Desired(i, w.db.images[i]), DesiredMarker(w.db.images[i])))
  {
    var w' := Enqueue(w, i, Desired(i, w.db.images[i]), DesiredMarker(w.db.images[i]));
    forall j | j in w'.db.images ensures RowInv(w', j) { EnqueuedRow(w, i, j); }
    forall m | 0 <= m < |w'.log| ensures WriteInv(w'.db.images, w'.log[m]) { EnqueueKeepsWrites(w, i, m); }
  }

  lemma ProcessedRow(w: World, ok: bool, j: nat)
    requires Inv(w) && |w.results| < |w.log| && j in w.db.images
    ensures RowInv(w.(results := w.results + [ok]), j)
  {
    var img, results' := w.db.images[j], w.results + [ok];
    assert RowInv(w, j);
    if Marked(img) { SettledLater(w.log, w.results, w.log, results', j, Desired(j, img)); }
    if j in w.locks { StageLater(w.log, w.results, w.log, results', j, img, w.locks[j]); }
  }

  lemma ProcessKeepsInv(w: World, ok: bool)
    requires Inv(w)
    ensures Inv(Step(w, Process(ok)))
  {
    if |w.results| < |w.log| {
      forall j | j in w.db.images ensures RowInv(Step(w, Process(ok)), j) { ProcessedRow(w, ok, j); }
    }
  }

  /** The guards of both marker statements hold whenever they run: the row cannot have moved under the lock. */
  lemma CommitStoresMarker(w: World, i: nat)
    requires Inv(w) && i in w.locks && w.locks[i].Confirmed?
    ensures var img := w.db.images[i];
      Mark(img, w.locks[i].marker) == img.(indexed := Some(DesiredMarker(img)))
  {
    assert RowInv(w, i) && ImageInv(w.db, i);
  }

  /** A commit stores the truthful marker and lets the lock go. */
  lemma CommitStep(w: World, i: nat) returns (db': Store)
    requires Inv(w) && i in w.locks && w.locks[i].Confirmed?
    ensures i in w.db.images && StoreInv(db')
    ensures var img := w.db.images[i];
      && db' == w.db.(images := w.db.images[i := img.(indexed := Some(DesiredMarker(img)))])
      && Step(w, Commit(i)) == w.(db := db', locks := w.locks - {i})
  {
    CommitStoresMarker(w, i);
    var img := w.db.images[i];
    assert ImageInv(w.db, i);
    db' := w.db.(images := w.db.images[i := img.(indexed := Some(DesiredMarker(img)))]);
    MarkerKeepsInv(w.db, db', i, DesiredMarker(img));
  }

  lemma CommittedRow(w: World, i: nat, img: Image)
    requires Inv(w) && i in w.locks && w.locks[i].Confirmed? && img == w.db.images[i]
    ensures Settled(w.log, w.results, i, Desired(i, img.(indexed := Some(DesiredMarker(img)))))
  {
    assert RowInv(w, i);
    assert SettledAt(w.log, w.results, i, Desired(i, img), w.locks[i].ticket);
  }

  lemma MarkedRowsKeepInv(w: World, w': World, i: nat)
    requires Inv(w) && StoreInv(w'.db) && i in w.db.images
    requires w' == w.(db := w'.db, locks := w.locks - {i})
    requires var img := w.db.images[i]; w'.db.images == w.db.images[i := img.(indexed := Some(DesiredMarker(img)))]
    requires Settled(w.log, w.results, i, Desired(i, w'.db.images[i]))
    ensures Inv(w')
  {
    forall j | j in w'.db.images ensures RowInv(w', j) { assert RowInv(w, j); }
    forall job | job in w'.jobs ensures JobInv(w'.db.images, job) { assert JobInv(w.db.images, job); }
    forall m | 0 <= m < |w'.log| ensures WriteInv(w'.db.images, w'.log[m]) { assert WriteInv(w.db.images, w.log[m]); }
  }

  lemma CommitKeepsInv(w: World, i: nat)
    requires Inv(w)
    ensures Inv(Step(w, Commit(i)))
  {
    if i in w.locks && w.locks[i].Confirmed? {
      var db' := CommitStep(w, i);
      CommittedRow(w, i, w.db.images[i]);
      MarkedRowsKeepInv(w, w.(db := db', locks := w.locks - {i}), i);
    }
  }

  /** Locks, stages and the job set change, rows and log do not. */
  lemma LockingKeepsInv(w: World, w': World)
    requires Inv(w) && w'.db == w.db && w'.log == w.log && w'.results == w.results
    requires w'.locks.Keys <= w.db.images.Keys
    requires forall i :: i in w'.locks ==>
      || (i in w.locks && w'.locks[i] == w.locks[i])
      || StageInv(w.log, w.results, i, w.db.images[i], w'.locks[i])
    requires forall job :: job in w'.jobs && job !in w.jobs ==> JobInv(w.db.images, job)
    ensures Inv(w')
  {
    forall j | j in w'.db.images ensures RowInv(w', j) { assert RowInv(w, j); }
    forall job | job in w'.jobs ensures JobInv(w'.db.images, job) {
      if job in w.jobs { assert JobInv(w.db.images, job); }
    }
  }

  /** A job under the lock writes what the row calls for, or lets go. */
  lemma SubmitCases(w: World, i: nat)
    requires Inv(w) && i in w.locks && w.locks[i].Holding?
    ensures i in w.db.images
    ensures || Step(w, Submit(i)) == Enqueue(w, i, Desired(i, w.db.images[i]), DesiredMarker(w.db.images[i]))
            || Step(w, Submit(i)) == w.(locks := w.locks - {i})
  {
  }

  lemma SubmitKeepsInv(w: World, i: nat)
    requires Inv(w) && i in w.locks && w.locks[i].Holding?
    ensures Inv(Step(w, Submit(i)))
  {
    SubmitCases(w, i);
    if Step(w, Submit(i)) == w.(locks := w.locks - {i}) {
      LockingKeepsInv(w, w.(locks := w.locks - {i}));
    } else {
      EnqueueKeepsInv(w, i);
    }
  }

  lemma ConfirmKeepsInv(w: World, i: nat)
    requires Inv(w)
    ensures Inv(Step(w, Confirm(i)))
  {
    if i in w.locks { assert RowInv(w, i); }
    LockingKeepsInv(w, Step(w, Confirm(i)));
  }

  lemma ScheduledKeepsInv(w: World, i: nat)
    requires Inv(w)
    ensures Inv(Step(w, Scheduled(i)))
  {
    if i in w.db.images { assert ImageInv(w.db, i); }
    LockingKeepsInv(w, Step(w, Scheduled(i)));
  }

  lemma StepKeepsInv(w: World, e: Event)
    requires Inv(w)
    ensures Inv(Step(w, e))
  {
    if Step(w, e) != w {
      match e
      case Uploaded(_, _, _, _) => UploadedKeepsInv(w, e);
      case EditCommit(slot) => if CommitUpdate(w.db, w.drafts[slot]).Ok? { EditCommitKeepsInv(w, e); }
      case Requested(_, _, _) => RequestedKeepsInv(w, e);
      case Moderated(_, _, _, _, _) => ModeratedKeepsInv(w, e);
      case EditRead(_, _, _, _) =>
      case Process(ok) => ProcessKeepsInv(w, ok);
      case Commit(i) => CommitKeepsInv(w, i);
      case Submit(i) => SubmitKeepsInv(w, i);
      case Confirm(i) => ConfirmKeepsInv(w, i);
      case Scheduled(i) => ScheduledKeepsInv(w, i);
      case Acquire(_, _) => LockingKeepsInv(w, Step(w, e));
      case Abandon(_) => LockingKeepsInv(w, Step(w, e));
    }
  }

  lemma InitHasInv(w: World)
    requires Init(w)
    ensures Inv(w)
  {
    EmptyStoreHasInv(w.db);
    forall i | i in w.db.images ensures RowInv(w, i) {}
  }

  lemma {:induction false} RunKeepsInv(w: World, es: seq<Event>)
    requires Inv(w)
    ensures Inv(Run(w, es))
    decreases |es|
  {
    if es != [] {
      StepKeepsInv(w, es[0]);
      RunKeepsInv(Step(w, es[0]), es[1..]);
    }
  }
}
