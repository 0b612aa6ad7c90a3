/** The handlers in the shape of their code, each proved to take the state machine's own steps.
    A transaction works on copies of the rows it locked and publishes them only when it commits. */
module Database {
  import opened Options
  import opened Catalog
  import opened IndexProtocol
  import opened Reconcile

  /** The run of one index job: `outcomes` are the index tasks processed while the job waits,
      `submitted` tells whether its own write reached the queue. */
  function JobEvents(w: World, i: nat, asked: nat, submitted: bool, outcomes: seq<bool>): seq<Event> {
    if i !in w.db.images then []
    else
      var img := w.db.images[i];
      if !CallsForRemoval(img) && asked != 0 && img.indexed == img.current then [Acquire(i, asked), Submit(i)]
      else if !submitted then [Acquire(i, asked), Abandon(i)]
      else [Acquire(i, asked), Submit(i)] + (Processed(outcomes) + [Confirm(i), Commit(i), Abandon(i)])
  }

  function Processed(outcomes: seq<bool>): seq<Event> {
    seq(|outcomes|, k requires 0 <= k < |outcomes| => Process(outcomes[k]))
  }

  function Extend(results: seq<bool>, outcomes: seq<bool>, limit: nat): seq<bool>
    decreases |outcomes|
  {
    if outcomes == [] || |results| >= limit then results else Extend(results + [outcomes[0]], outcomes[1..], limit)
  }

  lemma {:induction false} ProcessedExtends(w: World, outcomes: seq<bool>)
    ensures Run(w, Processed(outcomes)) == w.(results := Extend(w.results, outcomes, |w.log|))
    decreases |outcomes|
  {
    if outcomes != [] {
      assert Processed(outcomes)[0] == Process(outcomes[0]) && Processed(outcomes)[1..] == Processed(outcomes[1..]);
      ProcessedExtends(Step(w, Process(outcomes[0])), outcomes[1..]);
      if |w.results| >= |w.log| {
        assert Extend(w.results, outcomes[1..], |w.log|) == w.results;
      }
    }
  }

  lemma RunTwo(w: World, a: Event, b: Event)
    ensures Run(w, [a, b]) == Step(Step(w, a), b)
  {
    RunAppend(w, [a], [b]);
    assert [a] + [b] == [a, b];
  }

  ghost predicate Acknowledged(results: seq<bool>, ticket: nat) {
    ticket < |results| && results[ticket]
  }

  lemma JobCloses(w: World, i: nat, marker: nat, ticket: nat)
    requires i in w.db.images && i in w.locks && w.locks[i] == Waiting(marker, ticket)
    ensures Run(w, [Confirm(i), Commit(i), Abandon(i)]) == w.(
      db := if Acknowledged(w.results, ticket)
        then w.db.(images := w.db.images[i := Mark(w.db.images[i], marker)]) else w.db,
      locks := w.locks - {i})
  {
    RunThree(w, Confirm(i), Commit(i), Abandon(i));
    var w1 := Step(w, Confirm(i));
    if Acknowledged(w.results, ticket) {
      assert w1.locks - {i} == w.locks - {i};
      assert (w.locks - {i}) - {i} == w.locks - {i};
    } else {
      assert w1 == w && Step(w1, Commit(i)) == w;
    }
  }

  /** The whole effect of a job that writes: its log entry, what was processed meanwhile, and the marker if
      acknowledged. */
  lemma JobEffect(w: World, i: nat, asked: nat, outcomes: seq<bool>, d: Option<Document>, marker: nat)
    requires (i, asked) in w.jobs && i in w.db.images && i !in w.locks
    requires var img := w.db.images[i]; CallsForRemoval(img) || asked == 0 || img.indexed != img.current
    requires d == Desired(i, w.db.images[i]) && marker == DesiredMarker(w.db.images[i])
    ensures var log := w.log + [Write(i, d)]; var results := Extend(w.results, outcomes, |log|);
      Run(w, JobEvents(w, i, asked, true, outcomes)) == w.(
        log := log, results := results,
        db := if Acknowledged(results, |w.log|)
          then w.db.(images := w.db.images[i := Mark(w.db.images[i], marker)]) else w.db)
  {
    var opening, closing := [Acquire(i, asked), Submit(i)], [Confirm(i), Commit(i), Abandon(i)];
    RunTwo(w, Acquire(i, asked), Submit(i));
    var held := w.(locks := w.locks[i := Holding(asked)]);
    var w1 := Enqueue(held, i, d, marker);
    assert Step(held, Submit(i)) == w1;
    ProcessedExtends(w1, outcomes);
    var w2 := Run(w1, Processed(outcomes));
    RunAppend(w1, Processed(outcomes), closing);
    RunAppend(w, opening, Processed(outcomes) + closing);
    JobCloses(w2, i, marker, |w.log|);
    assert w2.locks - {i} == w.locks;
  }

  /** A job that ends before its write reaches the queue leaves no trace. */
  lemma JobWithoutWrite(w: World, i: nat, asked: nat, outcomes: seq<bool>)
    requires (i, asked) in w.jobs && i !in w.locks
    requires i in w.db.images ==>
      var img := w.db.images[i]; !CallsForRemoval(img) && asked != 0 && img.indexed == img.current
    ensures Run(w, JobEvents(w, i, asked, true, outcomes)) == w
  {
    if i in w.db.images {
      RunTwo(w, Acquire(i, asked), Submit(i));
      assert w.locks[i := Holding(asked)] - {i} == w.locks;
    }
  }

  lemma JobNotSubmitted(w: World, i: nat, asked: nat, outcomes: seq<bool>)
    requires (i, asked) in w.jobs && i !in w.locks
    ensures Run(w, JobEvents(w, i, asked, false, outcomes)) == w
  {
    if i in w.db.images {
      RunTwo(w, Acquire(i, asked), Submit(i));
      RunTwo(w, Acquire(i, asked), Abandon(i));
      assert w.locks[i := Holding(asked)] - {i} == w.locks;
    }
  }

  /** The jobs the reconcile handler enqueues for the selected rows. */
  function BatchJobs(db: Store, rows: seq<nat>): set<(nat, nat)> {
    set i | i in rows && i in db.images :: (i, DesiredMarker(db.images[i]))
  }

  lemma SelectedMarker(img: Image)
    requires NeedsIndex(img)
    ensures DesiredMarker(img) == if img.deletedAt.Some? then 0 else CurrentVersion(img).value.id
  {
  }

  lemma BatchJobsExtend(db: Store, rows: seq<nat>, i: nat)
    requires i in db.images
    ensures BatchJobs(db, rows + [i]) == BatchJobs(db, rows) + {(i, DesiredMarker(db.images[i]))}
  {
    forall job
      ensures job in BatchJobs(db, rows + [i]) <==> job in BatchJobs(db, rows) + {(i, DesiredMarker(db.images[i]))}
    {
      if job in BatchJobs(db, rows) { assert job.0 in rows + [i]; }
    }
  }

  lemma BatchJobsNext(base: set<(nat, nat)>, db: Store, rows: seq<nat>, k: nat)
    requires k < |rows| && rows[k] in db.images
    ensures base + BatchJobs(db, rows[..k + 1])
      == base + BatchJobs(db, rows[..k]) + {(rows[k], DesiredMarker(db.images[rows[k]]))}
  {
    assert rows[..k + 1] == rows[..k] + [rows[k]];
    BatchJobsExtend(db, rows[..k], rows[k]);
  }

  function Scheduling(rows: seq<nat>): seq<Event> {
    seq(|rows|, k requires 0 <= k < |rows| => Scheduled(rows[k]))
  }

  /** Scheduling selected rows only adds their jobs. */
  lemma {:induction false} SchedulingAdds(w: World, rows: seq<nat>)
    requires forall i :: i in rows ==> i in w.db.images && NeedsIndex(w.db.images[i])
    ensures Run(w, Scheduling(rows)) == w.(jobs := w.jobs + BatchJobs(w.db, rows))
  {
    if rows != [] {
      var last := |rows| - 1;
      var head := rows[..last];
      SchedulingAdds(w, head);
      RunAppend(w, Scheduling(head), [Scheduled(rows[last])]);
      BatchJobsNext(w.jobs, w.db, rows, last);
      assert Scheduling(rows) == Scheduling(head) + [Scheduled(rows[last])] && rows[..last + 1] == rows;
    } else {
      assert w.jobs + BatchJobs(w.db, []) == w.jobs;
    }
  }

  lemma BatchRow(db: Store, k: nat)
    requires k < |Batch(db)|
    ensures Batch(db)[k] in db.images && NeedsIndex(db.images[Batch(db)[k]])
  {
    assert Batch(db)[k] in Batch(db);
  }

  lemma JobHasRow(w: World, i: nat, asked: nat)
    requires Inv(w) && (i, asked) in w.jobs
    ensures i in w.db.images
  {
    assert JobInv(w.db.images, (i, asked));
  }

  lemma PositiveMarker(w: World, i: nat)
    requires Inv(w) && i in w.db.images
    ensures DesiredMarker(w.db.images[i]) == 0 <==> CallsForRemoval(w.db.images[i])
  {
    assert ImageInv(w.db, i);
  }

  lemma MarkedIsSynced(w: World, i: nat)
    requires Inv(w) && i in w.db.images
    ensures !NeedsIndex(Mark(w.db.images[i], DesiredMarker(w.db.images[i])))
  {
    assert ImageInv(w.db, i);
    CurrentIsLast(w.db.firstNumber, w.db.nextVersion, w.db.images[i]);
  }

  lemma CurrentIsSynced(w: World, i: nat)
    requires Inv(w) && i in w.db.images && !CallsForRemoval(w.db.images[i])
    requires w.db.images[i].indexed == w.db.images[i].current
    ensures !NeedsIndex(w.db.images[i])
  {
    assert ImageInv(w.db, i);
    CurrentIsLast(w.db.firstNumber, w.db.nextVersion, w.db.images[i]);
  }

  predicate Selected(db: Store, rows: seq<nat>) {
    forall k :: 0 <= k < |rows| ==> rows[k] in db.images && NeedsIndex(db.images[rows[k]])
  }

  lemma BatchIsSelected(db: Store)
    ensures Selected(db, Batch(db))
  {
    forall k | 0 <= k < |Batch(db)| ensures Batch(db)[k] in db.images && NeedsIndex(db.images[Batch(db)[k]]) {
      BatchRow(db, k);
    }
  }

  lemma NextJob(base: set<(nat, nat)>, db: Store, rows: seq<nat>, k: nat)
    requires Selected(db, rows) && k < |rows|
    ensures db.images[rows[k]].deletedAt.None? ==> CurrentVersion(db.images[rows[k]]).Some?
    ensures var image := db.images[rows[k]];
      var versionId := if image.deletedAt.Some? then 0 else CurrentVersion(image).value.id;
      base + BatchJobs(db, rows[..k + 1]) == base + BatchJobs(db, rows[..k]) + {(rows[k], versionId)}
  {
    SelectedMarker(db.images[rows[k]]);
    BatchJobsNext(base, db, rows, k);
  }

  lemma BatchScheduling(w: World, k: nat)
    requires k <= |Batch(w.db)|
    ensures Run(w, Scheduling(Batch(w.db)[..k])) == w.(jobs := w.jobs + BatchJobs(w.db, Batch(w.db)[..k]))
  {
    var rows := Batch(w.db);
    forall i | i in rows[..k] ensures i in w.db.images && NeedsIndex(w.db.images[i]) { assert i in rows; }
    SchedulingAdds(w, rows[..k]);
  }

  class Database {
    var store: Store
    var drafts: map<nat, Draft>
    var jobs: set<(nat, nat)>
    var locks: map<nat, Stage>
    var log: seq<Write>
    var results: seq<bool>

    function View(): World
      reads this
    {
      World(store, drafts, jobs, locks, log, results)
    }

    constructor (store: Store)
      ensures View() == World(store, map[], {}, map[], [], [])
    {
      this.store := store;
      drafts, jobs, locks, log, results := map[], {}, map[], [], [];
    }

    method AcknowledgeSession(content: Content, user: int, url: string, now: int) returns (i: nat)
      modifies this`store, this`jobs
      ensures store == Upload(old(store), content, user, url, now)
      ensures store.images == old(store.images)[i := Image(user, url, now,
        [Version(old(store.nextVersion), old(store.firstNumber), content, user)], Some(old(store.nextVersion)),
        None, None, None)]
      ensures jobs == old(jobs) + {(i, old(store.nextVersion))} && i == old(store.nextImage)
      ensures View() == Step(old(View()), Uploaded(content, user, url, now))
    {
      i := store.nextImage;
      var versionId := store.nextVersion;
      var image := Image(user, url, now, [], None, None, None, None);
      // InitializeVersion: insert with the default number, then point the image at it
      image := image.(versions := [Version(versionId, store.firstNumber, content, user)]);
      image := image.(current := Some(versionId));
      store := store.(images := store.images[i := image], nextImage := i + 1, nextVersion := versionId + 1);
      jobs := jobs + {(i, versionId)};
    }

    /** UpdateImage up to its transaction; the row may change before CommitEdit runs. */
    method ReadEdit(slot: nat, i: nat, patch: Patch, user: int) returns (found: bool)
      modifies this`drafts
      ensures View() == Step(old(View()), EditRead(slot, i, patch, user))
      ensures found <==> i in store.images && Live(store.images[i])
    {
      if i !in store.images || store.images[i].deletedAt.Some? || CurrentVersion(store.images[i]).None? {
        return false;
      }
      var current := CurrentVersion(store.images[i]).value.content;
      var text, rating, tags := current.text, current.rating, current.tags;
      if patch.text.Some? { text := patch.text.value; }
      if patch.rating.Some? { rating := patch.rating.value; }
      if patch.tags.Some? { tags := patch.tags.value; }
      drafts := drafts[slot := Draft(i, user, Content(text, rating, tags))];
      return true;
    }

    method CommitEdit(slot: nat) returns (r: Result<nat, Error>)
      requires slot in drafts && drafts[slot].image !in locks
      modifies this`store, this`jobs, this`drafts
      ensures View() == Step(old(View()), EditCommit(slot))
      ensures drafts == old(drafts) - {slot}
      ensures match CommitUpdate(old(store), old(drafts)[slot])
        case Ok(db) =>
          && r == Ok(old(store.nextVersion)) && store == db
          && jobs == old(jobs) + {(old(drafts)[slot].image, r.value)}
        case Err(e) => r == Err(e) && store == old(store) && jobs == old(jobs)
    {
      var draft := drafts[slot];
      drafts := drafts - {slot};
      if draft.image !in store.images { return Err(NotFound); }
      var image := store.images[draft.image];
      if image.deletedAt.Some? { return Err(NotFound); }
      // CreateNewVersion selects from the current version; no row, no version
      var current := CurrentVersion(image);
      if current.None? { return Err(NotFound); }
      var version := Version(store.nextVersion, current.value.number + 1, draft.content, draft.author);
      image := image.(versions := image.versions + [version]);
      image := image.(current := Some(version.id));
      store := store.(images := store.images[draft.image := image], nextVersion := version.id + 1);
      jobs := jobs + {(draft.image, version.id)};
      return Ok(version.id);
    }

    method CreateImageDeletionRequest(i: nat, user: int, reason: string) returns (r: Result<nat, Error>)
      requires i !in locks
      modifies this`store
      ensures View() == Step(old(View()), Requested(i, user, reason))
      ensures match CreateRequest(old(store), i, user, reason)
        case Ok(db) => r == Ok(old(store.nextRequest)) && store == db
        case Err(e) => r == Err(e) && store == old(store)
    {
      if i !in store.images { return Err(NotFound); }
      if store.images[i].deletedAt.Some? { return Err(StateConflict); }
      if HasActiveRequest(store, i, user) { return Err(StateConflict); }
      var id := store.nextRequest;
      var request := Request(i, user, reason, Active, None, None);
      store := store.(requests := store.requests[id := request], nextRequest := id + 1);
      return Ok(id);
    }

    /** moderateDeletion; an error rolls the transaction back, so nothing of it is published. */
    method Moderate(
      r: nat, action: Action, expected: Status, actor: int, now: int)
      returns (event: Result<Option<DeletionEvent>, Error>)
      requires r in store.requests ==> store.requests[r].image !in locks
      modifies this`store, this`jobs
      ensures View() == Step(old(View()), Moderated(r, action, expected, actor, now))
      ensures match ModerateDeletion(old(store), r, action, expected, actor, now)
        case Ok(db) => event.Ok? && store == db
        case Err(e) => event == Err(e) && store == old(store)
      ensures var db := old(store); event.Ok? <==>
        && actor > 0 && r in db.requests && db.requests[r].image in db.images && db.requests[r].status == expected
        && (action == Accept ==>
              && (expected == Active || expected == Rejected) && actor in db.users
              && db.images[db.requests[r].image].deletedAt.None?
              && db.images[db.requests[r].image].activeDeletion.None?)
        && (action == Reject ==> expected == Active)
        && (action == Reopen ==> expected == Rejected && NoActiveRequest(db, db.requests[r].image, db.requests[r].user))
      ensures event.Ok? ==>
        && r in store.requests
        && (action == Accept ==> store.requests[r].status == Approved)
        && (action == Reject ==> store.requests[r].status == Rejected)
        && (action == Reopen ==> store.requests[r].status == Active)
        && store.requests[r].processedBy == (if action == Reopen then None else Some(actor))
        && store.requests[r].processedAt == (if action == Reopen then None else Some(now))
      ensures event.Ok? ==> (event.value.Some? <==> action == Accept)
      ensures event.Ok? && event.value.Some? ==>
        && event.value.value.request == r && event.value.value.initiator == actor
        && event.value.value.snapshot.image == old(store.requests)[r].image
      ensures event.Ok? && event.value.Some? ==> store.deletions == old(store.deletions) + [event.value.value]
      ensures jobs ==
        if event.Ok? && action == Accept then old(jobs) + {(old(store.requests)[r].image, 0)} else old(jobs)
    {
      DecisionSucceeds(store, r, action, expected, actor, now);
      if actor <= 0 { return Err(Unauthenticated); }
      if r !in store.requests { return Err(NotFound); }
      var imageId := store.requests[r].image;
      if imageId !in store.images { return Err(NotFound); }
      var image, request := store.images[imageId], store.requests[r];
      if request.status != expected { return Err(StateConflict); }
      var next: Option<Status> := None;
      match action {
        case Accept => if request.status == Active || request.status == Rejected { next := Some(Approved); }
        case Reject => if request.status == Active { next := Some(Rejected); }
        case Reopen => if request.status == Rejected { next := Some(Active); }
      }
      if next.None? { return Err(StateConflict); }
      if next.value == Approved && (image.deletedAt.Some? || image.activeDeletion.Some?) { return Err(StateConflict); }
      // UpdateDeletionDecision; the partial unique index may refuse a second active request
      if next.value == Active && HasActiveRequest(store, request.image, request.user) { return Err(UniqueViolation); }
      request := request.(status := next.value);
      request := request.(processedAt := if next.value == Active then None else Some(now));
      request := request.(processedBy := if next.value == Active then None else Some(actor));
      var tx := store.(requests := store.requests[r := request]);
      if next.value != Approved {
        store := tx;
        return Ok(None);
      }
      // ApproveImageDeletion, then the snapshot and the initiator's name in the same transaction
      image := image.(deletedAt := Some(now), activeDeletion := Some(r), indexed := None);
      tx := tx.(images := tx.images[imageId := image]);
      var snapshot := SnapshotOf(imageId, tx.images[imageId]);
      if actor !in tx.users { return Err(NotFound); }
      var deletion := DeletionEvent(r, snapshot, actor);
      store := tx.(deletions := tx.deletions + [deletion]);
      jobs := jobs + {(imageId, 0)};
      return Ok(Some(deletion));
    }

    /** writeImageIndex: submit, then wait while the index works through its queue. */
    method WriteImageIndex(i: nat, document: Option<Document>, submitted: bool, outcomes: seq<bool>) returns (ok: bool)
      modifies this`log, this`results
      ensures !submitted ==> !ok && log == old(log) && results == old(results)
      ensures submitted ==> log == old(log) + [Write(i, document)] && results == Extend(old(results), outcomes, |log|)
      ensures submitted ==> (ok <==> Acknowledged(results, |old(log)|))
    {
      if !submitted { return false; }
      var ticket := |log|;
      log := log + [Write(i, document)];
      var k := 0;
      while k < |outcomes|
        invariant 0 <= k <= |outcomes| && log == old(log) + [Write(i, document)]
        invariant Extend(old(results), outcomes, |log|) == Extend(results, outcomes[k..], |log|)
      {
        if |results| < |log| { results := results + [outcomes[k]]; }
        k := k + 1;
      }
      ok := ticket < |results| && results[ticket];
    }

    method CommitImageIndexRemoval(i: nat)
      requires i in store.images
      modifies this`store
      ensures store == old(store).(images := old(store).images[i := Mark(old(store).images[i], 0)])
    {
      var image := store.images[i];
      if image.deletedAt.Some? || image.current.None? { image := image.(indexed := Some(0)); }
      store := store.(images := store.images[i := image]);
    }

    method CommitUnindexedVersion(i: nat, versionId: nat)
      requires i in store.images && versionId > 0
      modifies this`store
      ensures store == old(store).(images := old(store).images[i := Mark(old(store).images[i], versionId)])
    {
      var image := store.images[i];
      if image.current == Some(versionId) { image := image.(indexed := Some(versionId)); }
      store := store.(images := store.images[i := image]);
    }

    /** Write, wait, and store the marker once the write is acknowledged. */
    method WriteAndMark(
      i: nat, asked: nat, document: Option<Document>, marker: nat, submitted: bool, outcomes: seq<bool>)
      returns (ok: bool)
      requires Inv(View()) && (i, asked) in jobs && i !in locks && i in store.images
      requires document == Desired(i, store.images[i]) && marker == DesiredMarker(store.images[i])
      requires CallsForRemoval(store.images[i]) || (asked == 0 || store.images[i].indexed != store.images[i].current)
      modifies this
      ensures View() == Run(old(View()), JobEvents(old(View()), i, asked, submitted, outcomes))
      ensures ok ==> i in store.images && store.images[i] == Mark(old(store).images[i], marker)
      ensures log == if submitted then old(log) + [Write(i, document)] else old(log)
    {
      ghost var w := View();
      PositiveMarker(w, i);
      if submitted {
        JobEffect(w, i, asked, outcomes, document, marker);
      } else {
        JobNotSubmitted(w, i, asked, outcomes);
      }
      ok := WriteImageIndex(i, document, submitted, outcomes);
      if ok {
        if document.None? { CommitImageIndexRemoval(i); } else { CommitUnindexedVersion(i, marker); }
      }
    }

    /** syncImageIndex: the straight-line code takes exactly the protocol's steps. */
    method SyncImageIndex(i: nat, asked: nat, submitted: bool, outcomes: seq<bool>) returns (ok: bool)
      requires Inv(View()) && (i, asked) in jobs && i !in locks
      modifies this
      ensures View() == Run(old(View()), JobEvents(old(View()), i, asked, submitted, outcomes))
      ensures ok ==> i in store.images && !NeedsIndex(store.images[i])
      ensures log == old(log)
        || (i in old(store.images) && log == old(log) + [Write(i, Desired(i, old(store.images)[i]))])
    {
      ghost var w := View();
      JobHasRow(w, i, asked);
      if i !in store.images { return true; }
      var image := store.images[i];
      if image.deletedAt.Some? || image.current.None? {
        ok := WriteAndMark(i, asked, None, 0, submitted, outcomes);
        MarkedIsSynced(w, i);
      } else if asked != 0 && image.indexed.Some? && image.indexed.value == image.current.value {
        if submitted { JobWithoutWrite(w, i, asked, outcomes); } else { JobNotSubmitted(w, i, asked, outcomes); }
        CurrentIsSynced(w, i);
        ok := true;
      } else {
        var row := SnapshotOf(i, image);
        var rating := RatingNumber(row.content.rating);
        var document := Document(i, row.content.text, row.content.tags, rating, row.uploader, row.createdAt);
        ok := WriteAndMark(i, asked, Some(document), image.current.value, submitted, outcomes);
        MarkedIsSynced(w, i);
      }
    }

    /** The loop of HandleIndexReconcileTask; `reachable` is how many enqueues succeed before the queue fails. */
    method EnqueueSelected(rows: seq<nat>, reachable: nat) returns (k: nat)
      requires Selected(store, rows)
      modifies this`jobs
      ensures k == if reachable < |rows| then reachable else |rows|
      ensures jobs == old(jobs) + BatchJobs(store, rows[..k])
    {
      k := 0;
      while k < |rows| && k < reachable
        invariant 0 <= k <= |rows| && k <= reachable
        invariant jobs == old(jobs) + BatchJobs(store, rows[..k])
      {
        NextJob(old(jobs), store, rows, k);
        var image := store.images[rows[k]];
        var versionId := if image.deletedAt.Some? then 0 else CurrentVersion(image).value.id;
        jobs := jobs + {(rows[k], versionId)};
        k := k + 1;
      }
    }

    /** HandleIndexReconcileTask; the first enqueue that fails ends it. */
    method HandleIndexReconcileTask(reachable: nat) returns (ok: bool)
      modifies this`jobs
      ensures ok <==> |Batch(store)| <= reachable
      ensures ok ==> jobs == old(jobs) + BatchJobs(store, Batch(store))
      ensures !ok ==> jobs == old(jobs) + BatchJobs(store, Batch(store)[..reachable])
      ensures View() == Run(old(View()), Scheduling(if ok then Batch(store) else Batch(store)[..reachable]))
    {
      var rows := Batch(store);
      BatchIsSelected(store);
      var k := EnqueueSelected(rows, reachable);
      BatchScheduling(old(View()), k);
      ok := k == |rows|;
      assert ok ==> rows[..k] == rows;
    }
  }
}
