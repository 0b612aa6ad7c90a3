/** One subscriber among any number: the chain of dispatch tasks does for it what replication counts on, it reads the
    event once while the subscriber is on the page and enqueues exactly the invocation that reading calls for. */
module Subscription {
  import opened Options
  import opened Catalog
  import opened Notices
  import R = Replica
  import Changes
  import D = Dispatch
  import F = Fanout

  /** GetImageVersionForWebhook and whether GetPreviousImageVersionForWebhook has a row. */
  function RowAt(db: Store, args: F.Args): Option<F.Row> {
    if args.image !in db.images || db.images[args.image].deletedAt.Some? then None
    else
      var versions := db.images[args.image].versions;
      match Find(versions, args.version)
      case Some(v) => Some(F.Row(v.number, Changes.Previous(versions, v.number).Some?))
      case None => None
  }

  /** The first dispatch task of a notice; `number` is the version number in a deletion's snapshot. */
  function FirstTask(notice: Notice, event: D.EventType, number: int): F.Args {
    match notice
    case VersionNotice(i, v) => F.Args(i, v, 0, event, None)
    case DeletionNotice(i, r) => F.Args(i, 0, 0, D.EventType.Deletion, Some(F.Snapshot(r, i, number)))
  }

  /** The invocation task as it is queued for a webhook. */
  function Queued(task: Task, event: D.EventType, number: int, webhook: nat): F.Task {
    match task
    case VersionTask(i, n) => F.Invoke(webhook, i, n, event, None)
    case DeletionTask(i, r) => F.Invoke(webhook, i, number, D.EventType.Deletion, Some(F.TaskId(r, webhook)))
  }

  /** A version notice is for a create or an update. */
  predicate Fits(notice: Notice, event: D.EventType) {
    notice.DeletionNotice? <==> event == D.EventType.Deletion
  }

  /** What the handler works out is what the notice calls for in the catalogue it reads. */
  lemma ReadingIsInvocation(db: Store, notice: Notice, event: D.EventType, number: int, args: F.Args, webhook: nat)
    requires Fits(notice, event) && args.(after := 0) == FirstTask(notice, event, number)
    requires F.Numbered(args, RowAt(db, args)).Ok?
    ensures match F.Numbered(args, RowAt(db, args)).value
      case None => Invocation(db, notice) == None
      case Some(n) =>
        && Invocation(db, notice).Some?
        && F.InvokeFor(args, n, webhook) == Queued(Invocation(db, notice).value, event, number, webhook)
  {
  }

  /** The row a task reads for its version: that version's own number, and a predecessor unless it is the first. */
  lemma RowOfVersion(db: Store, args: F.Args, k: nat)
    requires StoreInv(db) && args.image in db.images && db.images[args.image].deletedAt.None?
    requires k < |db.images[args.image].versions| && args.version == db.images[args.image].versions[k].id
    ensures RowAt(db, args) == Some(F.Row(db.images[args.image].versions[k].number, k > 0))
  {
    var versions := db.images[args.image].versions;
    assert ImageInv(db, args.image);
    FindsById(versions, k);
    Changes.PreviousIsPredecessor(versions, db.firstNumber, versions[k].number);
  }

  /** So the dispatch of an upload or an edit always works out that version's number: in a reachable catalogue no update
      of a later version ever lacks its predecessor. */
  lemma VersionIsNumbered(db: Store, args: F.Args, k: nat)
    requires StoreInv(db) && args.image in db.images && db.images[args.image].deletedAt.None?
    requires k < |db.images[args.image].versions| && args.version == db.images[args.image].versions[k].id
    requires args.event == D.EventType.Creation || (args.event == D.EventType.Update && k > 0)
    ensures F.Numbered(args, RowAt(db, args)) == Ok(Some(db.images[args.image].versions[k].number))
  {
    RowOfVersion(db, args, k);
  }

  /** An attempt of this task that returned without error. */
  predicate Succeeds(step: F.Step, args: F.Args) {
    F.Completes(step, args) && F.Numbered(args, step.row).Ok?
  }

  ghost predicate Handled(steps: seq<F.Step>, args: F.Args) {
    exists k :: 0 <= k < |steps| && Succeeds(steps[k], args)
  }

  /** Attempts of this notice read the catalogue as it is at that moment, and find the webhook eligible. */
  predicate Reads(step: F.Step, db: Store, first: F.Args, webhook: nat) {
    step.Attempt? && step.args.(after := 0) == first ==>
      step.row == RowAt(db, step.args) && webhook in D.EligibleIds(step.hooks, first.event)
  }

  /** The attempt is one of this notice that succeeded, and acted for this webhook on what the notice called for then.
      */
  predicate Acts(step: F.Step, db: Store, notice: Notice, event: D.EventType, number: int, webhook: nat) {
    && step.Attempt? && step.args.(after := 0) == FirstTask(notice, event, number) && Succeeds(step, step.args)
    && (Invocation(db, notice).Some? ==>
          Queued(Invocation(db, notice).value, event, number, webhook) in F.Offered(step))
  }

  predicate Continues(task: F.Task, first: F.Args) {
    task.Proceed? && task.args.(after := 0) == first
  }

  /** The chain from a given cursor on: each of its tasks that is queued succeeds some time. */
  ghost predicate Chain(
    steps: seq<F.Step>, dbs: seq<Store>, notice: Notice, event: D.EventType, number: int, args: F.Args, webhook: nat)
  {
    && |dbs| == |steps| && Fits(notice, event) && args.(after := 0) == FirstTask(notice, event, number)
    && args.after < webhook && Handled(steps, args)
    && (forall k :: 0 <= k < |steps| ==> Reads(steps[k], dbs[k], FirstTask(notice, event, number), webhook))
    && (forall task :: task in F.Run(steps).accepted && Continues(task, FirstTask(notice, event, number)) ==>
          Handled(steps, task.args))
  }

  /** One successful attempt acts for the webhook, or hands over to the next task of the chain. */
  lemma OneTask(
    steps: seq<F.Step>, dbs: seq<Store>, notice: Notice, event: D.EventType, number: int,
    args: F.Args, webhook: nat, k: nat)
    returns (next: F.Args)
    requires Chain(steps, dbs, notice, event, number, args, webhook)
    requires k < |steps| && Succeeds(steps[k], args)
    ensures || Acts(steps[k], dbs[k], notice, event, number, webhook)
            || (next == args.(after := next.after) && args.after < next.after < webhook
                && F.Proceed(next) in F.Offered(steps[k]))
  {
    next := args;
    var step := steps[k];
    assert Reads(step, dbs[k], FirstTask(notice, event, number), webhook);
    ReadingIsInvocation(dbs[k], notice, event, number, args, webhook);
    var found := F.Numbered(args, step.row).value;
    if found.Some? {
      var page := D.GetWebhooksByEvent(step.hooks, args.after, args.event);
      F.PlanContents(step, args, found.value, page);
      if webhook !in page {
        F.PageGoesOn(step.hooks, args, webhook);
        next := args.(after := page[D.BATCH - 1]);
      }
    }
  }

  /** Main result: with any number of webhooks, if every dispatch task of the chain succeeds some time, some attempt
      acts
      for this webhook on what the notice called for when it read the catalogue: the invocation, or nothing if the
      version is gone by then. */
  lemma {:induction false} ChainActs(
    steps: seq<F.Step>, dbs: seq<Store>, notice: Notice, event: D.EventType, number: int, args: F.Args, webhook: nat)
    returns (k: nat)
    requires Chain(steps, dbs, notice, event, number, args, webhook)
    ensures k < |steps| && k < |dbs| && Acts(steps[k], dbs[k], notice, event, number, webhook)
    decreases webhook - args.after
  {
    k :| 0 <= k < |steps| && Succeeds(steps[k], args);
    if !Acts(steps[k], dbs[k], notice, event, number, webhook) {
      var next := OneTask(steps, dbs, notice, event, number, args, webhook, k);
      F.OfferedIsAccepted(steps, k);
      k := ChainActs(steps, dbs, notice, event, number, next, webhook);
    }
  }

  /** What an attempt acted on is in the queue: a create or update as it is, a deletion once under its id. */
  lemma ActedIsQueued(
    steps: seq<F.Step>, dbs: seq<Store>, notice: Notice, event: D.EventType, number: int, webhook: nat, k: nat)
    requires k < |steps| && |dbs| == |steps| && Acts(steps[k], dbs[k], notice, event, number, webhook)
    requires Invocation(dbs[k], notice).Some?
    ensures match Invocation(dbs[k], notice).value
      case VersionTask(_, _) =>
        Queued(Invocation(dbs[k], notice).value, event, number, webhook) in F.Run(steps).accepted
      case DeletionTask(_, r) => F.Copies(F.Run(steps).accepted, F.TaskId(r, webhook)) == 1
  {
    var answer := Invocation(dbs[k], notice).value;
    var task := Queued(answer, event, number, webhook);
    if answer.VersionTask? {
      F.OfferedIsAccepted(steps, k);
    } else {
      assert F.HasId(task, F.TaskId(answer.request, webhook));
      F.TriedAt(steps, k, F.TaskId(answer.request, webhook));
      F.InvokedOnce(steps, F.TaskId(answer.request, webhook));
    }
  }

  /** That is the pair of moves with which the replication model serves a notice. */
  lemma ActingIsTheMove(q: R.Queues, db: Store, notice: Notice)
    requires notice in q.dispatch
    ensures var answer := Invocation(db, notice);
      var read := R.Serve(q, db, R.LookedUp(notice));
      var served := R.Serve(read, db, R.Dispatched(notice, answer, true));
      && (notice, answer) in read.lookups && served.dispatch == q.dispatch - {notice}
      && served.invoke ==
        if answer.None? || R.Conflicts(q, answer.value) then q.invoke else q.invoke + {answer.value}
  {
  }
}
