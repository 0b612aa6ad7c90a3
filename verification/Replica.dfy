/** The documented replication protocol: a follower journals the image ids it is notified about, loads an export,
    and refreshes the journaled ids, while the catalogue, the queue and the deliveries go on in any interleaving. */
module Replica {
  import opened Options
  import opened Catalog
  import opened IndexProtocol
  import opened IndexGuarantees
  import opened Views
  import opened Notices

  datatype Phase = Journaling | Exporting(copy: map<nat, View>) | Following

  /** A claim holds no response until the fetch answers; the answer is a view, or nothing for a removed image. */
  datatype Follower = Follower(
    phase: Phase, journal: set<nat>, claims: map<nat, Option<Option<View>>>, replica: map<nat, View>)

  /** `unsent` are the notices of committed transactions whose handler has yet to enqueue them. `lookups` are what
      dispatch handlers have read and may still act on. `sent` are the requests made after the delivery check, which may
      still arrive, however late and however often; `received` are those that have. `retained` are the deletion task ids
      the queue still remembers after completion. */
  datatype Queues = Queues(
    unsent: set<Notice>, dispatch: set<Notice>, lookups: set<(Notice, Option<Task>)>,
    invoke: set<Task>, sent: set<Task>, received: set<Task>, retained: set<nat>)

  datatype System = System(world: World, queues: Queues, follower: Follower)

  datatype Move =
    | Catalogue(event: Event)
    | Enqueued(notice: Notice)
    | LookedUp(notice: Notice)
    | Dispatched(notice: Notice, answer: Option<Task>, acknowledged: bool)
    | Checked(task: Task)
    | Arrived(task: Task)
    | Answered(task: Task)
    | Forgotten(request: nat)
    | Exported
    | ExportFailed
    | Loaded
    | Claimed(image: nat)
    | Fetched(image: nat)
    | Applied(image: nat)
    | Failed(image: nat)

  // ----- moves; a move that is not enabled changes nothing -----

  /** The server's queues. An attempt that fails leaves its task where it is. */
  function Serve(q: Queues, db: Store, m: Move): Queues {
    match m
    case Enqueued(n) =>
      if n in q.unsent then q.(unsent := q.unsent - {n}, dispatch := q.dispatch + {n}) else q
    case LookedUp(n) =>
      if n in q.dispatch then q.(lookups := q.lookups + {(n, Invocation(db, n))}) else q
    case Dispatched(n, answer, acknowledged) =>
      if n !in q.dispatch || (n, answer) !in q.lookups then q
      else
        q.(invoke := if answer.None? || Conflicts(q, answer.value) then q.invoke else q.invoke + {answer.value},
           dispatch := if acknowledged then q.dispatch - {n} else q.dispatch)
    case Checked(t) =>
      if t !in q.invoke then q
      else if Delivers(db, t) then q.(sent := q.sent + {t})
      else q.(invoke := q.invoke - {t})
    case Arrived(t) => if t in q.sent then q.(received := q.received + {t}) else q
    case Answered(t) =>
      if t !in q.invoke || t !in q.received then q
      else
        q.(invoke := q.invoke - {t},
           retained := if t.DeletionTask? then q.retained + {t.request} else q.retained)
    case Forgotten(r) => q.(retained := q.retained - {r})
    case _ => q
  }

  function Follow(f: Follower, q: Queues, db: Store, m: Move): Follower {
    match m
    case Arrived(t) => if t in q.sent then f.(journal := f.journal + {t.image}) else f
    case Exported => if f.phase.Journaling? then f.(phase := Exporting(LiveView(db))) else f
    case ExportFailed => if f.phase.Exporting? then f.(phase := Journaling) else f
    case Loaded => if f.phase.Exporting? then f.(phase := Following, replica := f.phase.copy) else f
    case Claimed(i) =>
      if f.phase.Following? && i in f.journal && i !in f.claims
      then f.(journal := f.journal - {i}, claims := f.claims[i := None]) else f
    case Fetched(i) =>
      if i in f.claims then f.(claims := f.claims[i := Some(Fetch(db, i))]) else f
    case Applied(i) =>
      if i in f.claims && f.claims[i].Some?
      then f.(replica := Upsert(f.replica, i, f.claims[i].value), claims := f.claims - {i}) else f
    case Failed(i) =>
      if i in f.claims then f.(journal := f.journal + {i}, claims := f.claims - {i}) else f
    case _ => f
  }

  function Advance(s: System, m: Move): System {
    if m.Catalogue? then
      System(Step(s.world, m.event),
             s.queues.(unsent := s.queues.unsent + NoticesOf(s.world, m.event)), s.follower)
    else System(s.world, Serve(s.queues, s.world.db, m), Follow(s.follower, s.queues, s.world.db, m))
  }

  /** A deletion task id that is queued or still retained. */
  predicate Conflicts(q: Queues, task: Task) {
    task.DeletionTask? && (task in q.invoke || task.request in q.retained)
  }

  function Upsert(replica: map<nat, View>, i: nat, answer: Option<View>): map<nat, View> {
    if answer.Some? then replica[i := answer.value] else replica - {i}
  }

  function Play(s: System, moves: seq<Move>): System
    decreases |moves|
  {
    if moves == [] then s else Play(Advance(s, moves[0]), moves[1..])
  }

  // ----- invariant -----

  predicate OnItsWay(q: Queues, notice: Notice) {
    notice in q.unsent || notice in q.dispatch
  }

  /** What was read for a notice that is the image's last word is its last word too. */
  ghost predicate LookupInv(db: Store, notice: Notice, answer: Option<Task>) {
    && NoticeInv(db, notice)
    && (answer.Some? ==> TaskInv(db, answer.value))
    && (notice == FinalNotice(notice.image, db.images[notice.image]) ==>
          answer == Some(FinalTask(notice.image, db.images[notice.image])))
  }

  ghost predicate RetainedInv(db: Store, request: nat) {
    request in db.requests && db.requests[request].status == Approved
  }

  ghost predicate QueueInv(q: Queues, db: Store) {
    && (forall n :: OnItsWay(q, n) ==> NoticeInv(db, n))
    && (forall n, answer :: (n, answer) in q.lookups ==> LookupInv(db, n, answer))
    && (forall t :: t in q.invoke || t in q.sent || t in q.received ==> TaskInv(db, t))
    && (forall r :: r in q.retained ==> RetainedInv(db, r))
  }

  /** The last change of the image is still on its way to the follower. */
  ghost predicate Outstanding(q: Queues, db: Store, i: nat) {
    Known(db, i) && InFlight(q, i, db.images[i])
  }

  ghost predicate InFlight(q: Queues, i: nat, img: Image) {
    || FinalTask(i, img) in q.invoke
    || (OnItsWay(q, FinalNotice(i, img)) && (img.activeDeletion.Some? ==> img.activeDeletion.value !in q.retained))
  }

  /** What the replica will say about the image after the work already fetched. */
  ghost function Target(f: Follower, i: nat): Option<View> {
    match f.phase
    case Exporting(copy) => At(copy, i)
    case _ => if i in f.claims && f.claims[i].Some? then f.claims[i].value else At(f.replica, i)
  }

  /** The follower is right about the image, or knows that it has to look again. */
  ghost predicate Heard(f: Follower, db: Store, i: nat) {
    Target(f, i) == At(LiveView(db), i) || i in f.journal || (i in f.claims && f.claims[i].None?)
  }

  ghost predicate WorkInv(f: Follower, db: Store) {
    && (forall i :: i in f.journal ==> Known(db, i))
    && (forall i :: i in f.claims ==> Known(db, i))
    && (!f.phase.Following? ==> f.claims == map[])
  }

  ghost predicate Assured(f: Follower, db: Store, i: nat) {
    if f.phase.Following? then Heard(f, db, i) else i in f.journal
  }

  /** A last word that has arrived has been heard; only then may its task be completed. */
  ghost predicate ReceivedInv(received: set<Task>, f: Follower, db: Store) {
    forall t :: t in received && LastWord(db, t) ==> Assured(f, db, t.image)
  }

  ghost predicate Covered(q: Queues, f: Follower, db: Store, i: nat) {
    Heard(f, db, i) || Outstanding(q, db, i)
  }

  ghost predicate CoverInv(q: Queues, f: Follower, db: Store) {
    f.phase.Journaling? || forall i :: Covered(q, f, db, i)
  }

  ghost predicate SystemInv(s: System) {
    && Inv(s.world) && QueueInv(s.queues, s.world.db) && WorkInv(s.follower, s.world.db)
    && ReceivedInv(s.queues.received, s.follower, s.world.db) && CoverInv(s.queues, s.follower, s.world.db)
  }

  /** The follower subscribes at any reachable moment, with tasks from before still queued. */
  ghost predicate Subscribed(s: System) {
    && Inv(s.world) && QueueInv(s.queues, s.world.db) && s.queues.received == {}
    && s.follower.phase.Journaling? && s.follower.journal == {} && s.follower.claims == map[]
  }

  // ----- moves of the queues -----

  lemma LookupIsRight(db: Store, n: Notice)
    requires StoreInv(db) && NoticeInv(db, n)
    ensures LookupInv(db, n, Invocation(db, n))
  {
    LastVersion(db, n.image);
    if Invocation(db, n).Some? { InvocationInv(db, n); }
    if n == FinalNotice(n.image, db.images[n.image]) { LastWordIsDelivered(db, n.image); }
  }

  lemma ServeKeepsQueueInv(q: Queues, db: Store, m: Move)
    requires StoreInv(db) && QueueInv(q, db)
    ensures QueueInv(Serve(q, db, m), db)
  {
    if m.LookedUp? && m.notice in q.dispatch {
      LookupIsRight(db, m.notice);
    } else if m.Dispatched? && m.answer.Some? && (m.notice, m.answer) in q.lookups {
      assert LookupInv(db, m.notice, m.answer);
    } else if m.Answered? && m.task in q.invoke && m.task.DeletionTask? {
      assert TaskInv(db, m.task) && ImageInv(db, m.task.image);
    }
  }

  /** Only the completion of its own task takes the last word out of flight. */
  lemma ServeKeepsOutstanding(q: Queues, db: Store, m: Move, i: nat)
    requires StoreInv(db) && QueueInv(q, db) && Outstanding(q, db, i)
    ensures || Outstanding(Serve(q, db, m), db, i)
            || (m.Answered? && m.task in q.received && m.task == FinalTask(i, db.images[i]))
  {
    var img := db.images[i];
    if m.Dispatched? && m.notice == FinalNotice(i, img) && (m.notice, m.answer) in q.lookups {
      assert LookupInv(db, m.notice, m.answer);
    } else if m.Checked? && m.task == FinalTask(i, img) {
      LastWordIsDelivered(db, i);
    } else if m.Answered? && m.task in q.invoke && m.task != FinalTask(i, img) {
      OtherAnswerKeepsInFlight(q, db, m, i, img);
    }
  }

  lemma OtherAnswerKeepsInFlight(q: Queues, db: Store, m: Move, i: nat, img: Image)
    requires m.Answered? && m.task in q.invoke && m.task != FinalTask(i, img) && InFlight(q, i, img)
    requires TaskInv(db, m.task) && StoreInv(db) && i in db.images && db.images[i] == img
    ensures InFlight(Serve(q, db, m), i, img)
  {
    assert ImageInv(db, i) && ImageInv(db, m.task.image);
  }

  /** A request about a version goes out only for the last version of an image that is not deleted. */
  lemma SendingIsCurrent(q: Queues, db: Store, m: Move, t: Task)
    requires StoreInv(db) && QueueInv(q, db) && t.VersionTask?
    requires t !in q.sent && t in Serve(q, db, m).sent
    ensures t.image in db.images && db.images[t.image].deletedAt.None?
    ensures var versions := db.images[t.image].versions;
      versions != [] && t.number == versions[|versions| - 1].number
  {
    DeliveredIsCurrent(db, t);
  }

  // ----- moves of the follower -----

  lemma FollowKeepsWork(f: Follower, q: Queues, db: Store, m: Move)
    requires QueueInv(q, db) && WorkInv(f, db)
    ensures WorkInv(Follow(f, q, db, m), db)
  {
    if m.Arrived? && m.task in q.sent { assert TaskInv(db, m.task); }
  }

  predicate Refresh(m: Move) {
    m.Claimed? || m.Fetched? || m.Applied? || m.Failed?
  }

  lemma FetchedIsHeard(f: Follower, q: Queues, db: Store, i: nat)
    requires StoreInv(db) && f.phase.Following? && i in f.claims && Known(db, i)
    ensures Heard(Follow(f, q, db, Fetched(i)), db, i)
  {
    FetchIsLive(db, i);
  }

  lemma AppliedIsHeard(f: Follower, q: Queues, db: Store, i: nat)
    requires f.phase.Following? && Heard(f, db, i)
    ensures Heard(Follow(f, q, db, Applied(i)), db, i)
  {
    if i in f.claims && f.claims[i].Some? {
      assert At(Upsert(f.replica, i, f.claims[i].value), i) == f.claims[i].value;
    }
  }

  /** Refreshing an image keeps what has been heard of it. */
  lemma RefreshKeepsHeard(f: Follower, q: Queues, db: Store, m: Move)
    requires StoreInv(db) && f.phase.Following? && Refresh(m) && Heard(f, db, m.image)
    requires m.image in f.claims ==> Known(db, m.image)
    ensures Heard(Follow(f, q, db, m), db, m.image)
  {
    if m.Fetched? && m.image in f.claims {
      FetchedIsHeard(f, q, db, m.image);
    } else if m.Applied? {
      AppliedIsHeard(f, q, db, m.image);
    }
  }

  lemma RefreshIsLocal(f: Follower, q: Queues, db: Store, m: Move, i: nat)
    requires Refresh(m) && i != m.image && f.phase.Following?
    ensures Heard(f, db, i) ==> Heard(Follow(f, q, db, m), db, i)
  {
  }

  /** Moves other than refreshes keep the journal, and with it what is known to be open. */
  lemma OtherMoveKeepsHeard(f: Follower, q: Queues, db: Store, m: Move, i: nat)
    requires !f.phase.Journaling? && Heard(f, db, i) && !Refresh(m) && (m.ExportFailed? ==> f.phase.Following?)
    requires f.phase.Exporting? ==> f.claims == map[]
    ensures Heard(Follow(f, q, db, m), db, i)
  {
  }

  /** Nothing the follower does makes it forget what it has heard. */
  lemma FollowKeepsHeard(f: Follower, q: Queues, db: Store, m: Move, i: nat)
    requires StoreInv(db) && WorkInv(f, db) && !f.phase.Journaling? && Heard(f, db, i)
    requires m.ExportFailed? ==> f.phase.Following?
    ensures Heard(Follow(f, q, db, m), db, i)
  {
    if !Refresh(m) {
      OtherMoveKeepsHeard(f, q, db, m, i);
    } else if !f.phase.Following? {
      assert Follow(f, q, db, m) == f;
    } else if m.image == i {
      RefreshKeepsHeard(f, q, db, m);
    } else {
      RefreshIsLocal(f, q, db, m, i);
    }
  }

  lemma FollowKeepsJournal(f: Follower, q: Queues, db: Store, m: Move, i: nat)
    requires !f.phase.Following? && f.claims == map[] && i in f.journal
    ensures i in Follow(f, q, db, m).journal
  {
  }

  lemma FollowKeepsAssured(f: Follower, q: Queues, db: Store, m: Move, i: nat)
    requires StoreInv(db) && WorkInv(f, db) && Assured(f, db, i)
    ensures Assured(Follow(f, q, db, m), db, i)
  {
    if f.phase.Following? {
      FollowKeepsHeard(f, q, db, m, i);
    } else {
      FollowKeepsJournal(f, q, db, m, i);
    }
  }

  lemma ArrivalAssures(f: Follower, q: Queues, db: Store, t: Task)
    requires t in q.sent
    ensures Assured(Follow(f, q, db, Arrived(t)), db, t.image)
  {
  }

  lemma ReceivedBefore(q: Queues, db: Store, m: Move, t: Task)
    requires t in Serve(q, db, m).received
    ensures t in q.received || (m == Arrived(t) && t in q.sent)
  {
  }

  lemma FollowKeepsReceived(f: Follower, q: Queues, db: Store, m: Move)
    requires StoreInv(db) && WorkInv(f, db) && ReceivedInv(q.received, f, db)
    ensures ReceivedInv(Serve(q, db, m).received, Follow(f, q, db, m), db)
  {
    forall t | t in Serve(q, db, m).received && LastWord(db, t) ensures Assured(Follow(f, q, db, m), db, t.image) {
      ReceivedBefore(q, db, m, t);
      if t in q.received {
        FollowKeepsAssured(f, q, db, m, t.image);
      } else {
        ArrivalAssures(f, q, db, t);
      }
    }
  }

  lemma MoveCovers(q: Queues, f: Follower, db: Store, m: Move, i: nat)
    requires StoreInv(db) && QueueInv(q, db) && WorkInv(f, db) && ReceivedInv(q.received, f, db)
    requires !f.phase.Journaling? && !m.ExportFailed? && Covered(q, f, db, i)
    ensures Covered(Serve(q, db, m), Follow(f, q, db, m), db, i)
  {
    if Heard(f, db, i) {
      FollowKeepsHeard(f, q, db, m, i);
    } else {
      UnheardIsNotReceived(q, f, db, i);
      ServeKeepsOutstanding(q, db, m, i);
    }
  }

  lemma UnheardIsNotReceived(q: Queues, f: Follower, db: Store, i: nat)
    requires ReceivedInv(q.received, f, db) && !f.phase.Journaling? && !Heard(f, db, i) && i in db.images
    ensures FinalTask(i, db.images[i]) !in q.received
  {
    assert LastWord(db, FinalTask(i, db.images[i]));
  }

  lemma MoveKeepsCover(q: Queues, f: Follower, db: Store, m: Move)
    requires StoreInv(db) && QueueInv(q, db) && WorkInv(f, db) && ReceivedInv(q.received, f, db) && CoverInv(q, f, db)
    ensures CoverInv(Serve(q, db, m), Follow(f, q, db, m), db)
  {
    if !f.phase.Journaling? && !m.ExportFailed? {
      forall i ensures Covered(Serve(q, db, m), Follow(f, q, db, m), db, i) {
        assert Covered(q, f, db, i);
        MoveCovers(q, f, db, m, i);
      }
    }
  }

  // ----- catalogue events announce what they change -----

  lemma ChangeKeepsNotice(w: World, e: Event, n: Notice)
    requires Inv(w) && NoticeInv(w.db, n)
    ensures NoticeInv(Step(w, e).db, n)
  {
    StepGrows(w, e);
    NextVersionGrows(w, e);
    assert RowGrows(w.db.images[n.image], Step(w, e).db.images[n.image]);
    LastVersion(w.db, n.image);
  }

  lemma NextVersionGrows(w: World, e: Event)
    ensures w.db.nextVersion <= Step(w, e).db.nextVersion
  {
  }

  lemma NewNotice(w: World, e: Event, n: Notice)
    requires Inv(w) && n in NoticesOf(w, e)
    ensures NoticeInv(Step(w, e).db, n)
  {
    EventIsAnnounced(w, e);
    StepKeepsInv(w, e);
    assert Change(w.db, Step(w, e).db, n.image, NoticesOf(w, e));
    LastVersion(Step(w, e).db, n.image);
  }

  lemma ChangeKeepsKnown(w: World, e: Event, i: nat)
    requires Inv(w) && Known(w.db, i)
    ensures Known(Step(w, e).db, i)
  {
    StepGrows(w, e);
    assert RowGrows(w.db.images[i], Step(w, e).db.images[i]);
    LastVersion(w.db, i);
  }

  lemma ChangeKeepsTask(w: World, e: Event, t: Task)
    requires Inv(w) && TaskInv(w.db, t)
    ensures TaskInv(Step(w, e).db, t)
  {
    ChangeKeepsKnown(w, e, t.image);
    StepGrows(w, e);
    StepKeepsInv(w, e);
    assert RowGrows(w.db.images[t.image], Step(w, e).db.images[t.image]);
    LastVersion(w.db, t.image);
    LastVersion(Step(w, e).db, t.image);
    var versions := w.db.images[t.image].versions;
    if versions != [] { assert versions[|versions| - 1] in Step(w, e).db.images[t.image].versions; }
  }

  lemma RemovedIsNews(db: Store, db': Store, i: nat, notices: set<Notice>)
    requires Removed(db, db', i, notices)
    ensures forall n :: NoticeInv(db, n) && n.image == i ==> n != FinalNotice(i, db'.images[i])
    ensures forall t :: TaskInv(db, t) && t.image == i ==> !LastWord(db', t)
  {
  }

  lemma RevisedIsNews(db: Store, db': Store, i: nat, notices: set<Notice>)
    requires Revised(db, db', i, notices) && i in db.images
    requires var versions := db.images[i].versions;
      versions != [] ==> versions[|versions| - 1].number < SnapshotOf(i, db'.images[i]).number
    ensures forall n :: NoticeInv(db, n) && n.image == i ==> n != FinalNotice(i, db'.images[i])
    ensures forall t :: TaskInv(db, t) && t.image == i ==> !LastWord(db', t)
  {
  }

  lemma RevisedNumber(db: Store, db': Store, i: nat, notices: set<Notice>)
    requires StoreInv(db) && StoreInv(db') && Grows(db, db') && i in db.images && Revised(db, db', i, notices)
    ensures var versions := db.images[i].versions;
      versions != [] ==> versions[|versions| - 1].number < SnapshotOf(i, db'.images[i]).number
  {
    var versions, versions' := db.images[i].versions, db'.images[i].versions;
    assert RowGrows(db.images[i], db'.images[i]) && ImageInv(db, i) && ImageInv(db', i);
    LastVersion(db', i);
    assert versions'[|versions'| - 1].id == db.nextVersion;
    assert forall k :: 0 <= k < |versions| ==> versions'[k] == versions[k];
  }

  /** A change makes every earlier notice and task of its image obsolete. */
  lemma ChangeIsNews(w: World, e: Event, i: nat)
    requires Inv(w) && i in w.db.images && !SameRow(w.db, Step(w, e).db, i)
    ensures i in Step(w, e).db.images
    ensures forall n :: NoticeInv(w.db, n) && n.image == i ==> n != FinalNotice(i, Step(w, e).db.images[i])
    ensures forall t :: TaskInv(w.db, t) && t.image == i ==> !LastWord(Step(w, e).db, t)
  {
    var db, db', notices := w.db, Step(w, e).db, NoticesOf(w, e);
    StepGrows(w, e);
    StepKeepsInv(w, e);
    EventIsAnnounced(w, e);
    assert Change(db, db', i, notices);
    if Removed(db, db', i, notices) {
      RemovedIsNews(db, db', i, notices);
    } else {
      RevisedNumber(db, db', i, notices);
      RevisedIsNews(db, db', i, notices);
    }
  }

  lemma ChangeKeepsLookup(w: World, e: Event, n: Notice, answer: Option<Task>)
    requires Inv(w) && LookupInv(w.db, n, answer)
    ensures LookupInv(Step(w, e).db, n, answer)
  {
    ChangeKeepsNotice(w, e, n);
    if answer.Some? { ChangeKeepsTask(w, e, answer.value); }
    if SameRow(w.db, Step(w, e).db, n.image) {
      SameRowSameWord(w.db, Step(w, e).db, n.image);
    } else {
      ChangeIsNews(w, e, n.image);
    }
  }

  lemma ChangeKeepsRetained(w: World, e: Event, r: nat)
    requires Inv(w) && RetainedInv(w.db, r)
    ensures RetainedInv(Step(w, e).db, r)
  {
    StepGrows(w, e);
    assert RequestGrows(w.db.requests[r], Step(w, e).db.requests[r]);
  }

  lemma CatalogueKeepsQueueInv(w: World, q: Queues, e: Event)
    requires Inv(w) && QueueInv(q, w.db)
    ensures QueueInv(q.(unsent := q.unsent + NoticesOf(w, e)), Step(w, e).db)
  {
    var q', db' := q.(unsent := q.unsent + NoticesOf(w, e)), Step(w, e).db;
    forall n | OnItsWay(q', n) ensures NoticeInv(db', n) {
      if OnItsWay(q, n) { ChangeKeepsNotice(w, e, n); } else { NewNotice(w, e, n); }
    }
    forall n, answer | (n, answer) in q'.lookups ensures LookupInv(db', n, answer) {
      ChangeKeepsLookup(w, e, n, answer);
    }
    forall t | t in q'.invoke || t in q'.sent || t in q'.received ensures TaskInv(db', t) { ChangeKeepsTask(w, e, t); }
    forall r | r in q'.retained ensures RetainedInv(db', r) { ChangeKeepsRetained(w, e, r); }
  }

  lemma ChangeKeepsHeard(w: World, e: Event, f: Follower, i: nat)
    requires SameRow(w.db, Step(w, e).db, i)
    ensures Heard(f, w.db, i) ==> Heard(f, Step(w, e).db, i)
    ensures Assured(f, w.db, i) ==> Assured(f, Step(w, e).db, i)
  {
    SameRowSameWord(w.db, Step(w, e).db, i);
  }

  lemma CatalogueKeepsReceived(w: World, q: Queues, f: Follower, e: Event)
    requires Inv(w) && QueueInv(q, w.db) && ReceivedInv(q.received, f, w.db)
    ensures ReceivedInv(q.received, f, Step(w, e).db)
  {
    forall t | t in q.received && LastWord(Step(w, e).db, t) ensures Assured(f, Step(w, e).db, t.image) {
      assert TaskInv(w.db, t);
      if SameRow(w.db, Step(w, e).db, t.image) {
        SameRowSameWord(w.db, Step(w, e).db, t.image);
        ChangeKeepsHeard(w, e, f, t.image);
      } else {
        ChangeIsNews(w, e, t.image);
      }
    }
  }

  /** The notice of a change is the image's last word, and no earlier task id can hide it. */
  lemma NewsIsOutstanding(w: World, q: Queues, e: Event, i: nat)
    requires Inv(w) && QueueInv(q, w.db) && i in Step(w, e).db.images && !SameRow(w.db, Step(w, e).db, i)
    ensures Outstanding(q.(unsent := q.unsent + NoticesOf(w, e)), Step(w, e).db, i)
  {
    EventIsAnnounced(w, e);
    StepKeepsInv(w, e);
    assert Change(w.db, Step(w, e).db, i, NoticesOf(w, e));
    LastVersion(Step(w, e).db, i);
    assert FinalNotice(i, Step(w, e).db.images[i]) in NoticesOf(w, e);
    forall r | r in q.retained ensures RetainedInv(w.db, r) {}
  }

  lemma SameRowCovers(w: World, q: Queues, f: Follower, e: Event, i: nat)
    requires SameRow(w.db, Step(w, e).db, i) && Covered(q, f, w.db, i)
    ensures Covered(q.(unsent := q.unsent + NoticesOf(w, e)), f, Step(w, e).db, i)
  {
    SameRowSameWord(w.db, Step(w, e).db, i);
  }

  /** After a catalogue step every image is still covered: unchanged, or announced by that very step. */
  lemma CatalogueCovers(w: World, q: Queues, f: Follower, e: Event, i: nat)
    requires Inv(w) && QueueInv(q, w.db) && Covered(q, f, w.db, i)
    ensures Covered(q.(unsent := q.unsent + NoticesOf(w, e)), f, Step(w, e).db, i)
  {
    StepGrows(w, e);
    if SameRow(w.db, Step(w, e).db, i) {
      SameRowCovers(w, q, f, e, i);
    } else if i in Step(w, e).db.images {
      NewsIsOutstanding(w, q, e, i);
    }
  }

  lemma CatalogueKeepsInv(s: System, e: Event)
    requires SystemInv(s)
    ensures SystemInv(Advance(s, Catalogue(e)))
  {
    var w, q, f := s.world, s.queues, s.follower;
    StepKeepsInv(w, e);
    CatalogueKeepsQueueInv(w, q, e);
    CatalogueKeepsReceived(w, q, f, e);
    forall i | Known(w.db, i) ensures Known(Step(w, e).db, i) { ChangeKeepsKnown(w, e, i); }
    if !f.phase.Journaling? {
      forall i ensures Covered(Advance(s, Catalogue(e)).queues, f, Step(w, e).db, i) {
        assert Covered(q, f, w.db, i);
        CatalogueCovers(w, q, f, e, i);
      }
    }
  }

  lemma AdvanceKeepsInv(s: System, m: Move)
    requires SystemInv(s)
    ensures SystemInv(Advance(s, m))
  {
    if m.Catalogue? {
      CatalogueKeepsInv(s, m.event);
    } else {
      ServeKeepsQueueInv(s.queues, s.world.db, m);
      FollowKeepsWork(s.follower, s.queues, s.world.db, m);
      FollowKeepsReceived(s.follower, s.queues, s.world.db, m);
      MoveKeepsCover(s.queues, s.follower, s.world.db, m);
    }
  }

  lemma {:induction false} PlayKeepsInv(s: System, moves: seq<Move>)
    requires SystemInv(s)
    ensures SystemInv(Play(s, moves))
    decreases |moves|
  {
    if moves != [] {
      AdvanceKeepsInv(s, moves[0]);
      PlayKeepsInv(Advance(s, moves[0]), moves[1..]);
    }
  }

  // ----- convergence -----

  /** Nothing is queued, journaled or being fetched any more; requests already answered may still arrive again. */
  ghost predicate Quiet(s: System) {
    && s.follower.phase.Following? && s.queues.unsent == {} && s.queues.dispatch == {} && s.queues.invoke == {}
    && s.follower.journal == {} && s.follower.claims == map[]
  }

  lemma QuietIsCurrent(s: System)
    requires SystemInv(s) && Quiet(s)
    ensures s.follower.replica == LiveView(s.world.db)
  {
    forall i: nat ensures At(s.follower.replica, i) == At(LiveView(s.world.db), i) {
      assert Covered(s.queues, s.follower, s.world.db, i);
    }
    SameMap(s.follower.replica, LiveView(s.world.db));
  }

  /** Main result: whatever was interleaved, once the tasks and the journal have drained the replica
      is exactly the live images at their current versions. */
  lemma ReplicaConverges(s0: System, moves: seq<Move>)
    requires Subscribed(s0) && Quiet(Play(s0, moves))
    ensures Play(s0, moves).follower.replica == LiveView(Play(s0, moves).world.db)
  {
    PlayKeepsInv(s0, moves);
    QuietIsCurrent(Play(s0, moves));
  }
}
