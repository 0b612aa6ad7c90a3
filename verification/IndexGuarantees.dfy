/** What the index protocol keeps in every reachable state and over whole runs. */
module IndexGuarantees {
  import opened Options
  import opened Catalog
  import opened IndexProtocol

  // ----- agreement -----

  /** The reconcile query selects exactly the deleted or versioned images whose marker disagrees. */
  lemma QuerySelectsDisagreement(w: World, i: nat)
    requires Inv(w) && i in w.db.images
    ensures var img := w.db.images[i];
      && (NeedsIndex(img) <==> (img.deletedAt.Some? || img.versions != []) && !Marked(img))
      && (img.deletedAt.Some? ==> (NeedsIndex(img) <==> img.indexed != Some(0)))
      && (img.deletedAt.None? && img.versions != [] ==>
            (NeedsIndex(img) <==> img.indexed != Some(img.versions[|img.versions| - 1].id)))
  {
    assert ImageInv(w.db, i);
    CurrentIsLast(w.db.firstNumber, w.db.nextVersion, w.db.images[i]);
  }

  lemma {:induction false} SettledStored(log: seq<Write>, results: seq<bool>, i: nat, d: Option<Document>, k: int)
    requires SettledAt(log, results, i, d, k)
    ensures Stored(log, results, i) == d
    decreases |results|
  {
    var last := |results| - 1;
    if last != k && !(results[last] && log[last].image == i) {
      assert SettledAt(log, results[..last], i, d, k);
      SettledStored(log, results[..last], i, d, k);
    }
  }

  lemma {:induction false} NeverStored(log: seq<Write>, results: seq<bool>, i: nat)
    requires |results| <= |log|
    requires forall m :: 0 <= m < |log| && log[m].image == i ==> log[m].document.None?
    ensures Stored(log, results, i).None?
    decreases |results|
  {
    if results != [] { NeverStored(log, results[..|results| - 1], i); }
  }

  /** The stored document is the one the row calls for, and so is every write still in flight. */
  ghost predicate Agrees(w: World, i: nat)
    requires i in w.db.images && |w.results| <= |w.log|
  {
    && Stored(w.log, w.results, i) == Desired(i, w.db.images[i])
    && forall m :: |w.results| <= m < |w.log| && w.log[m].image == i ==> w.log[m].document == Desired(i, w.db.images[i])
  }

  lemma UnselectedAgrees(w: World, i: nat)
    requires Inv(w) && i in w.db.images && !NeedsIndex(w.db.images[i])
    ensures Agrees(w, i)
  {
    var img := w.db.images[i];
    QuerySelectsDisagreement(w, i);
    assert RowInv(w, i) && ImageInv(w.db, i);
    if Marked(img) {
      var k :| SettledAt(w.log, w.results, i, Desired(i, img), k);
      SettledStored(w.log, w.results, i, Desired(i, img), k);
    } else {
      assert forall m :: 0 <= m < |w.log| ==> WriteInv(w.db.images, w.log[m]);
      NeverStored(w.log, w.results, i);
    }
  }

  /** The document a row calls for, read off its version list: nothing for a deleted or versionless image, otherwise
      the last version's text, tags and numbered rating with the image's own uploader and time. */
  lemma DesiredDocument(db: Store, i: nat)
    requires StoreInv(db) && i in db.images
    ensures var img, d := db.images[i], Desired(i, db.images[i]);
      && (img.deletedAt.Some? || img.versions == [] ==> d == None)
      && (img.deletedAt.None? && img.versions != [] ==>
            var content := img.versions[|img.versions| - 1].content;
            && d.Some? && d.value.id == i && d.value.text == content.text && d.value.tags == content.tags
            && (content.rating == RatingViolent ==> d.value.rating == 3)
            && (content.rating == RatingModerate ==> d.value.rating == 2)
            && (content.rating == RatingNone ==> d.value.rating == 1)
            && d.value.userId == img.uploader && d.value.createdAt == img.createdAt)
  {
    SnapshotIsLast(db, i);
    assert ImageInv(db, i);
  }

  /** Main result: whatever has been interleaved, aborted or left in flight, an image the query does not select agrees:
      the index holds the last version's metadata, or nothing when the image is deleted. */
  lemma IndexAgreement(w0: World, es: seq<Event>, i: nat)
    requires Init(w0) && i in Run(w0, es).db.images && !NeedsIndex(Run(w0, es).db.images[i])
    ensures |Run(w0, es).results| <= |Run(w0, es).log| && Agrees(Run(w0, es), i)
    ensures var w := Run(w0, es); var img, stored := w.db.images[i], Stored(w.log, w.results, i);
      && (img.deletedAt.Some? || img.versions == [] ==> stored == None)
      && (img.deletedAt.None? && img.versions != [] ==>
            var content := img.versions[|img.versions| - 1].content;
            && stored.Some? && stored.value.id == i
            && stored.value.text == content.text && stored.value.tags == content.tags
            && stored.value.rating == (if content.rating == RatingViolent then 3
                                       else if content.rating == RatingModerate then 2 else 1)
            && stored.value.userId == img.uploader && stored.value.createdAt == img.createdAt)
  {
    InitHasInv(w0);
    RunKeepsInv(w0, es);
    UnselectedAgrees(Run(w0, es), i);
    DesiredDocument(Run(w0, es).db, i);
  }

  // ----- runs only add -----

  lemma MarkerGrows(db: Store, db': Store, i: nat)
    requires i in db.images && i in db'.images
    requires db' == db.(images := db.images[i := db.images[i].(indexed := db'.images[i].indexed)])
    requires db'.images[i].indexed == Some(DesiredMarker(db.images[i]))
    ensures Grows(db, db')
  {
    RowsGrow(db, db', i, 0);
  }

  lemma CommitGrows(w: World, i: nat)
    requires Inv(w)
    ensures Grows(w.db, Step(w, Commit(i)).db)
  {
    if i in w.locks && w.locks[i].Confirmed? {
      var db' := CommitStep(w, i);
      MarkerGrows(w.db, db', i);
    } else {
      RowsGrow(w.db, w.db, 0, 0);
    }
  }

  lemma TransactionGrows(w: World, e: Event)
    requires Inv(w) && Step(w, e).db != w.db && !LeavesRows(e) && !e.Commit?
    ensures Grows(w.db, Step(w, e).db)
  {
    if e.Uploaded? {
      UploadGrows(w.db, e.content, e.user, e.url, e.now);
    } else if e.EditCommit? {
      CommitUpdateGrows(w.db, w.drafts[e.slot]);
    } else if e.Requested? {
      CreateRequestGrows(w.db, e.image, e.user, e.reason);
    } else {
      ModerateGrows(w.db, e.request, e.action, e.expected, e.actor, e.now);
    }
  }

  lemma StepGrows(w: World, e: Event)
    requires Inv(w)
    ensures Grows(w.db, Step(w, e).db)
  {
    if e.Commit? {
      CommitGrows(w, e.image);
    } else if LeavesRows(e) || Step(w, e).db == w.db {
      if LeavesRows(e) { RowsLeft(w, e); }
      RowsGrow(w.db, w.db, 0, 0);
    } else {
      TransactionGrows(w, e);
    }
  }

  lemma {:induction false} RunGrows(w: World, es: seq<Event>)
    requires Inv(w)
    ensures Grows(w.db, Run(w, es).db)
    decreases |es|
  {
    if es == [] {
      RowsGrow(w.db, w.db, 0, 0);
    } else {
      StepKeepsInv(w, es[0]);
      StepGrows(w, es[0]);
      RunGrows(Step(w, es[0]), es[1..]);
      GrowsTransitive(w.db, Step(w, es[0]).db, Run(w, es).db);
    }
  }

  // ----- no resurrection -----

  ghost predicate OnlyRemovalsSince(w: World, w': World, i: nat) {
    && w.log <= w'.log
    && forall m :: |w.log| <= m < |w'.log| && w'.log[m].image == i ==> w'.log[m].document.None?
  }

  /** The only writes are those a job decides on under the row lock, and they follow the row as it stands. */
  lemma WritesFollowTheRow(w: World, e: Event)
    requires Inv(w)
    ensures var w' := Step(w, e);
      w'.log == w.log || (e.Submit? && e.image in w.db.images
        && w'.log == w.log + [Write(e.image, Desired(e.image, w.db.images[e.image]))])
  {
  }

  lemma StepSubmitsRemovals(w: World, e: Event, i: nat)
    requires Inv(w) && i in w.db.images && w.db.images[i].deletedAt.Some?
    ensures OnlyRemovalsSince(w, Step(w, e), i)
  {
    WritesFollowTheRow(w, e);
  }

  lemma {:induction false} RunSubmitsRemovals(w: World, es: seq<Event>, i: nat)
    requires Inv(w) && i in w.db.images && w.db.images[i].deletedAt.Some?
    ensures OnlyRemovalsSince(w, Run(w, es), i)
    decreases |es|
  {
    if es != [] {
      var w1, w' := Step(w, es[0]), Run(w, es);
      StepKeepsInv(w, es[0]);
      StepSubmitsRemovals(w, es[0], i);
      StepGrows(w, es[0]);
      assert RowGrows(w.db.images[i], w1.db.images[i]);
      RunSubmitsRemovals(w1, es[1..], i);
      forall m | |w.log| <= m < |w'.log| && w'.log[m].image == i ensures w'.log[m].document.None? {
        if m < |w1.log| { assert w1.log[m] == w'.log[m]; }
      }
    }
  }

  lemma {:induction false} RunExtends(w: World, es: seq<Event>)
    ensures w.log <= Run(w, es).log && w.results <= Run(w, es).results
    decreases |es|
  {
    if es != [] { RunExtends(Step(w, es[0]), es[1..]); }
  }

  /** In w1 the index has acknowledged removal m, whether or not its job lived to store the marker,
      and nothing but removals followed it up to w. */
  ghost predicate RemovalAcknowledged(w: World, w1: World, i: nat, m: int) {
    && 0 <= m < |w1.results| <= |w1.log| && w1.results[m] && w1.log[m] == Write(i, None)
    && forall k :: m < k < |w.log| && w.log[k].image == i ==> w.log[k].document.None?
  }

  lemma RemovalSettles(w: World, w1: World, w2: World, i: nat, m: int)
    requires RemovalAcknowledged(w, w1, i, m) && OnlyRemovalsSince(w, w2, i)
    requires w1.log <= w2.log && w1.results <= w2.results && |w2.results| <= |w2.log|
    ensures Stored(w2.log, w2.results, i).None?
  {
    forall k | m < k < |w2.log| && w2.log[k].image == i ensures w2.log[k].document == None {
      if k < |w.log| { assert w2.log[k] == w.log[k]; }
    }
    assert SettledAt(w2.log, w2.results, i, None, m);
    SettledStored(w2.log, w2.results, i, None, m);
  }

  lemma Deleted(w: World, es: seq<Event>, i: nat)
    requires Inv(w) && i in w.db.images && w.db.images[i].deletedAt.Some?
    ensures Inv(Run(w, es)) && i in Run(w, es).db.images && Run(w, es).db.images[i].deletedAt.Some?
  {
    RunKeepsInv(w, es);
    RunGrows(w, es);
    assert RowGrows(w.db.images[i], Run(w, es).db.images[i]);
  }

  lemma RemovalsAddUp(w: World, w1: World, w2: World, i: nat)
    requires OnlyRemovalsSince(w, w1, i) && OnlyRemovalsSince(w1, w2, i)
    ensures OnlyRemovalsSince(w, w2, i)
  {
    forall m | |w.log| <= m < |w2.log| && w2.log[m].image == i ensures w2.log[m].document.None? {
      if m < |w1.log| { assert w2.log[m] == w1.log[m]; }
    }
  }

  /** Main result: from approval on only removals are submitted, by old jobs and retries too, and once one of them has
      been acknowledged the image never comes back to the index, even if the job that sent it died before its commit. */
  lemma NoResurrection(w0: World, before: seq<Event>, mid: seq<Event>, after: seq<Event>, i: nat)
    requires Init(w0)
    requires i in Run(w0, before).db.images && Run(w0, before).db.images[i].deletedAt.Some?
    ensures var w := Run(w0, before); var w1 := Run(w, mid); var w2 := Run(w1, after);
      && OnlyRemovalsSince(w, w2, i)
      && |w2.results| <= |w2.log|
      && forall m :: RemovalAcknowledged(w, w1, i, m) ==> Stored(w2.log, w2.results, i).None?
  {
    var w := Run(w0, before);
    var w1 := Run(w, mid);
    var w2 := Run(w1, after);
    InitHasInv(w0);
    RunKeepsInv(w0, before);
    Deleted(w, mid, i);
    Deleted(w1, after, i);
    RunSubmitsRemovals(w, mid, i);
    RunSubmitsRemovals(w1, after, i);
    RemovalsAddUp(w, w1, w2, i);
    RunExtends(w1, after);
    forall m | RemovalAcknowledged(w, w1, i, m) ensures Stored(w2.log, w2.results, i).None? {
      RemovalSettles(w, w1, w2, i, m);
    }
  }

  /** A committed tombstone marker is never taken back, and keeps meaning that the image is absent. */
  lemma TombstoneMarkerMeansAbsent(w0: World, before: seq<Event>, after: seq<Event>, i: nat)
    requires Init(w0) && i in Run(w0, before).db.images
    requires Run(w0, before).db.images[i].deletedAt.Some? && Run(w0, before).db.images[i].indexed == Some(0)
    ensures var w' := Run(Run(w0, before), after);
      && i in w'.db.images && w'.db.images[i].indexed == Some(0)
      && |w'.results| <= |w'.log| && Stored(w'.log, w'.results, i).None?
  {
    var w := Run(w0, before);
    InitHasInv(w0);
    RunKeepsInv(w0, before);
    RunKeepsInv(w, after);
    RunGrows(w, after);
    assert RowGrows(w.db.images[i], Run(w, after).db.images[i]);
    UnselectedAgrees(Run(w, after), i);
  }

  /** A job carrying version 0 only ever exists for a deleted image, so it never overwrites a live one. */
  lemma ZeroJobsFindTombstones(w0: World, es: seq<Event>, i: nat)
    requires Init(w0) && (i, 0) in Run(w0, es).jobs
    ensures i in Run(w0, es).db.images && Run(w0, es).db.images[i].deletedAt.Some?
  {
    InitHasInv(w0);
    RunKeepsInv(w0, es);
    assert JobInv(Run(w0, es).db.images, (i, 0));
  }

  // ----- moderation and history over whole runs -----

  /** Deletion freezes the row: versions, current version and tombstone stay, even for edits read before the approval.
      */
  lemma DeletionFreezes(w: World, es: seq<Event>, i: nat)
    requires Inv(w) && i in w.db.images && w.db.images[i].deletedAt.Some?
    ensures var db' := Run(w, es).db;
      && i in db'.images && db'.images[i] == w.db.images[i].(indexed := db'.images[i].indexed)
      && SnapshotOf(i, db'.images[i]) == SnapshotOf(i, w.db.images[i])
  {
    RunGrows(w, es);
    assert RowGrows(w.db.images[i], Run(w, es).db.images[i]);
  }

  lemma ApprovalIsFinal(w: World, es: seq<Event>, r: nat)
    requires Inv(w) && r in w.db.requests && w.db.requests[r].status == Approved
    ensures r in Run(w, es).db.requests && Run(w, es).db.requests[r] == w.db.requests[r]
  {
    RunGrows(w, es);
    assert RequestGrows(w.db.requests[r], Run(w, es).db.requests[r]);
  }

  ghost predicate ApprovedFor(db: Store, i: nat, r: nat) {
    r in db.requests && db.requests[r].image == i && db.requests[r].status == Approved
  }

  lemma DeletionRows(db: Store, i: nat)
    requires StoreInv(db) && i in db.images
    ensures var img := db.images[i];
      && (img.deletedAt.Some? <==> img.activeDeletion.Some?)
      && (img.deletedAt.Some? <==> exists r: nat :: ApprovedFor(db, i, r))
      && (forall r: nat :: ApprovedFor(db, i, r) ==> img.activeDeletion == Some(r))
      && (img.deletedAt.Some? <==> exists k :: Announces(db, k, i))
      && (forall j, k :: Announces(db, j, i) && Announces(db, k, i) ==> j == k)
      && (forall k :: Announces(db, k, i) ==>
            db.deletions[k].snapshot == SnapshotOf(i, img) && img.activeDeletion == Some(db.deletions[k].request))
  {
    var img := db.images[i];
    assert ImageInv(db, i);
    forall r: nat | ApprovedFor(db, i, r) ensures img.activeDeletion == Some(r) {
      assert RequestInv(db, r);
    }
    forall k | Announces(db, k, i)
      ensures db.deletions[k].snapshot == SnapshotOf(i, img) && img.activeDeletion == Some(db.deletions[k].request)
    {
      assert EventInv(db, k);
    }
    if img.deletedAt.Some? {
      var r := img.activeDeletion.value;
      assert ApprovedFor(db, i, r);
    }
  }

  /** A tombstone, an approved request and one deletion event always come together, and the event
      carries the image as it stands now. */
  lemma DeletionRecord(w0: World, es: seq<Event>, i: nat)
    requires Init(w0) && i in Run(w0, es).db.images
    ensures var db := Run(w0, es).db; var img := db.images[i];
      && (img.deletedAt.Some? <==> img.activeDeletion.Some?)
      && (img.deletedAt.Some? <==> exists r: nat :: ApprovedFor(db, i, r))
      && (forall r: nat :: ApprovedFor(db, i, r) ==> img.activeDeletion == Some(r))
      && (img.deletedAt.Some? <==> exists k :: Announces(db, k, i))
      && (forall j, k :: Announces(db, j, i) && Announces(db, k, i) ==> j == k)
      && (forall k :: Announces(db, k, i) ==>
            db.deletions[k].snapshot == SnapshotOf(i, img) && img.activeDeletion == Some(db.deletions[k].request))
  {
    InitHasInv(w0);
    RunKeepsInv(w0, es);
    DeletionRows(Run(w0, es).db, i);
  }

  /** A decision is stamped exactly while the request is not active, and a user has one active request per image. */
  lemma RequestRecord(w0: World, es: seq<Event>, r: nat, q: nat)
    requires Init(w0) && r in Run(w0, es).db.requests && q in Run(w0, es).db.requests
    ensures var db := Run(w0, es).db; var request := db.requests[r];
      && (request.processedAt.Some? <==> request.status != Active)
      && (request.processedBy.Some? <==> request.status != Active)
      && (request.status == Active && db.requests[q].status == Active
            && db.requests[q].image == request.image && q != r ==>
            db.requests[q].user != request.user)
  {
    InitHasInv(w0);
    RunKeepsInv(w0, es);
    var db := Run(w0, es).db;
    assert RequestInv(db, r);
    if q != r { assert !SameClaim(db, r, q); }
  }

  /** The handler's checks alone do not keep one active request per user: reopening relies on the unique index. */
  lemma ReopenNeedsUniqueIndex(db: Store, r: nat, now: int)
    requires StoreInv(db) && r in db.requests && db.requests[r].status == Rejected
    ensures StoreInv(RecordDecision(db, r, Active, 1, now)) <==>
      !HasActiveRequest(db, db.requests[r].image, db.requests[r].user)
  {
    var db' := RecordDecision(db, r, Active, 1, now);
    if HasActiveRequest(db, db.requests[r].image, db.requests[r].user) {
      var q :| q in db.requests && db.requests[q].image == db.requests[r].image
        && db.requests[q].user == db.requests[r].user && db.requests[q].status == Active;
      assert q != r && SameClaim(db', r, q);
    } else {
      DecideKeepsInv(db, db', r, db'.requests[r]);
    }
  }

  /** Versions carry consecutive numbers from the column default, and the last of them is current. */
  lemma VersionHistory(w0: World, es: seq<Event>, i: nat)
    requires Init(w0) && i in Run(w0, es).db.images
    ensures var img := Run(w0, es).db.images[i];
      && (forall k :: 0 <= k < |img.versions| ==> img.versions[k].number == w0.db.firstNumber + k)
      && CurrentVersion(img) == (if img.versions == [] then None else Some(img.versions[|img.versions| - 1]))
  {
    InitHasInv(w0);
    RunKeepsInv(w0, es);
    RunGrows(w0, es);
    assert ImageInv(Run(w0, es).db, i);
    CurrentIsLast(w0.db.firstNumber, Run(w0, es).db.nextVersion, Run(w0, es).db.images[i]);
  }
}
