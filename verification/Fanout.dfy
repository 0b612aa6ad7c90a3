/** The queue between dispatch and delivery: what is enqueued when calls fail and handlers run again. */
module Fanout {
  import opened Options
  import opened Text
  import opened Dispatch
  import Keyset

  // ----- task ids -----

  /** The id under which a deletion invocation is queued and retained. */
  function TaskId(request: nat, webhook: nat): string {
    "deletion-request-" + Decimal(request) + ("-webhook-" + Decimal(webhook))
  }

  lemma SplitAtDash(a: string, b: string, u: string, v: string)
    requires forall k :: 0 <= k < |a| ==> a[k] != '-'
    requires forall k :: 0 <= k < |b| ==> b[k] != '-'
    requires u != [] && v != [] && u[0] == '-' && v[0] == '-' && a + u == b + v
    ensures a == b && u == v
  {
    var s := a + u;
    assert s[|a|] == '-' && s[|b|] == '-';
    assert (forall k :: 0 <= k < |a| ==> s[k] == a[k]) && (forall k :: 0 <= k < |b| ==> s[k] == b[k]);
    assert |a| == |b|;
    assert (a + u)[..|a|] == (b + v)[..|a|] && (a + u)[|a|..] == (b + v)[|a|..];
  }

  lemma Behind(prefix: string, a: string, b: string)
    requires prefix + a == prefix + b
    ensures a == b
  {
    assert (prefix + a)[|prefix|..] == a && (prefix + b)[|prefix|..] == b;
  }

  /** Two deletion tasks share an id exactly when they are the same request for the same webhook. */
  lemma TaskIdsIdentify(r: nat, w: nat, q: nat, v: nat)
    ensures TaskId(r, w) == TaskId(q, v) <==> r == q && w == v
  {
    if TaskId(r, w) == TaskId(q, v) { SameIdSamePair(r, w, q, v); }
  }

  lemma SplitAtInfix(a: string, b: string, c: string, d: string, infix: string)
    requires infix != "" && infix[0] == '-'
    requires forall k :: 0 <= k < |a| ==> a[k] != '-'
    requires forall k :: 0 <= k < |b| ==> b[k] != '-'
    requires a + (infix + c) == b + (infix + d)
    ensures a == b && c == d
  {
    SplitAtDash(a, b, infix + c, infix + d);
    Behind(infix, c, d);
  }

  lemma NoDash(n: nat)
    ensures forall k :: 0 <= k < |Decimal(n)| ==> Decimal(n)[k] != '-'
  {
    DecimalNonEmpty(n);
  }

  lemma SplitNumerals(prefix: string, infix: string, a: string, b: string, c: string, d: string)
    requires infix != "" && infix[0] == '-'
    requires forall k :: 0 <= k < |a| ==> a[k] != '-'
    requires forall k :: 0 <= k < |b| ==> b[k] != '-'
    requires prefix + a + (infix + c) == prefix + b + (infix + d)
    ensures a == b && c == d
  {
    assert prefix + a + (infix + c) == prefix + (a + (infix + c));
    assert prefix + b + (infix + d) == prefix + (b + (infix + d));
    Behind(prefix, a + (infix + c), b + (infix + d));
    SplitAtInfix(a, b, c, d, infix);
  }

  lemma SameIdSameNumerals(r: nat, w: nat, q: nat, v: nat)
    requires TaskId(r, w) == TaskId(q, v)
    ensures Decimal(r) == Decimal(q) && Decimal(w) == Decimal(v)
  {
    NoDash(r);
    NoDash(q);
    SplitNumerals("deletion-request-", "-webhook-", Decimal(r), Decimal(q), Decimal(w), Decimal(v));
  }

  lemma SameIdSamePair(r: nat, w: nat, q: nat, v: nat)
    requires TaskId(r, w) == TaskId(q, v)
    ensures r == q && w == v
  {
    SameIdSameNumerals(r, w, q, v);
    DecimalInjective(r, q);
    DecimalInjective(w, v);
  }

  // ----- the task queue -----

  datatype Snapshot = Snapshot(request: nat, image: nat, number: int)

  datatype Args = Args(image: nat, version: nat, after: nat, event: EventType, deletion: Option<Snapshot>)

  datatype Task =
    | Invoke(webhook: nat, image: nat, number: int, event: EventType, id: Option<string>)
    | Proceed(args: Args)

  /** What GetImageVersionForWebhook finds, and whether an earlier version exists. */
  datatype Row = Row(number: int, hasPrevious: bool)

  datatype Failure = InvalidSnapshot | NoPreviousVersion | Unavailable

  datatype Answer = Accepted | Duplicate | Conflict

  /** `accepted` is every task the queue ever took, in order; uniqueness locks are freed when a task ends or its time
      is up, while the ids of deletion invocations stay retained. */
  datatype Queue = Queue(accepted: seq<Task>, locks: set<Task>, ids: set<string>)

  predicate Identified(task: Task) {
    task.Invoke? && task.id.Some?
  }

  function Offer(q: Queue, task: Task): (Queue, Answer) {
    if Identified(task) then
      if task.id.value in q.ids then (q, Conflict)
      else (q.(accepted := q.accepted + [task], ids := q.ids + {task.id.value}), Accepted)
    else if task in q.locks then (q, Duplicate)
    else (q.(accepted := q.accepted + [task], locks := q.locks + {task}), Accepted)
  }

  function OfferAll(q: Queue, tasks: seq<Task>): Queue {
    if tasks == [] then q else Offer(OfferAll(q, tasks[..|tasks| - 1]), tasks[|tasks| - 1]).0
  }

  /** The version number an invocation carries; nothing when the version is gone. */
  function Numbered(args: Args, row: Option<Row>): Result<Option<int>, Failure> {
    if args.event == EventType.Deletion then
      if args.deletion.None? || args.deletion.value.image != args.image then Err(InvalidSnapshot)
      else Ok(Some(args.deletion.value.number))
    else if row.None? then Ok(None)
    else if args.event == EventType.Update && !row.value.hasPrevious then Err(NoPreviousVersion)
    else Ok(Some(row.value.number))
  }

  function InvokeFor(args: Args, number: int, webhook: nat): Task {
    Invoke(webhook, args.image, number, args.event,
      if args.event == EventType.Deletion && args.deletion.Some?
      then Some(TaskId(args.deletion.value.request, webhook)) else None)
  }

  /** An invocation for each webhook of the page, then the continuation of a full page. */
  function Fan(args: Args, number: int, page: seq<nat>): seq<Task> {
    seq(|page|, k requires 0 <= k < |page| => InvokeFor(args, number, page[k]))
    + if |page| == BATCH then [Proceed(args.(after := page[BATCH - 1]))] else []
  }

  /** What one dispatch task enqueues. */
  function Plan(hooks: Table, args: Args, row: Option<Row>): seq<Task> {
    var number := Numbered(args, row);
    if number.Err? || number.value.None? then []
    else Fan(args, number.value.value, GetWebhooksByEvent(hooks, args.after, args.event))
  }

  lemma FanIs(args: Args, number: int, page: seq<nat>)
    ensures var fan := Fan(args, number, page);
      && |fan| == |page| + (if |page| == BATCH then 1 else 0)
      && (forall k :: 0 <= k < |page| ==> fan[k] == InvokeFor(args, number, page[k]))
      && (|page| == BATCH ==> fan[BATCH] == Proceed(args.(after := page[BATCH - 1])))
  {
  }

  /** What is enqueued, entry by entry: for each webhook of the page an invocation with the snapshot's number or the
      row's, and behind a full page the same task from its last webhook on. */
  lemma PlanIs(hooks: Table, args: Args, row: Option<Row>)
    ensures var plan, page := Plan(hooks, args, row), GetWebhooksByEvent(hooks, args.after, args.event);
      var deletion := args.event == EventType.Deletion;
      if (deletion && (args.deletion.None? || args.deletion.value.image != args.image))
        || (!deletion && (row.None? || (args.event == EventType.Update && !row.value.hasPrevious)))
      then plan == []
      else
        && |plan| == |page| + (if |page| == 100 then 1 else 0)
        && (|page| == 100 ==>
              plan[100] == Proceed(Args(args.image, args.version, page[99], args.event, args.deletion)))
        && forall k :: 0 <= k < |page| ==>
             plan[k] == Invoke(page[k], args.image,
               if deletion then args.deletion.value.number else row.value.number, args.event,
               if deletion then Some(TaskId(args.deletion.value.request, page[k])) else None)
  {
    var numbered := Numbered(args, row);
    if numbered.Ok? && numbered.value.Some? {
      FanIs(args, numbered.value.value, GetWebhooksByEvent(hooks, args.after, args.event));
    }
  }

  /** The queue refuses a deletion invocation whose id it retains and any other task whose lock is held, and is left as
      it was; everything else it takes, with its id or its lock. */
  lemma OfferIs(q: Queue, task: Task)
    ensures var (q', answer) := Offer(q, task);
      if task.Invoke? && task.id.Some? then
        if task.id.value in q.ids then q' == q && answer == Conflict
        else q' == Queue(q.accepted + [task], q.locks, q.ids + {task.id.value}) && answer == Accepted
      else if task in q.locks then q' == q && answer == Duplicate
      else q' == Queue(q.accepted + [task], q.locks + {task}, q.ids) && answer == Accepted
  {
  }

  lemma OfferOneMore(q: Queue, tasks: seq<Task>, k: nat)
    requires k < |tasks|
    ensures OfferAll(q, tasks[..k + 1]) == Offer(OfferAll(q, tasks[..k]), tasks[k]).0
  {
    assert tasks[..k + 1][..k] == tasks[..k];
  }

  /** The calls that get through. */
  function Sent(plan: seq<Task>, reach: nat): seq<Task> {
    if reach < |plan| then plan[..reach] else plan
  }

  /** The queue client; it answers `budget` more calls before the connection fails. */
  class Client {
    var queue: Queue
    var budget: nat

    constructor (budget: nat)
      ensures queue == Queue([], {}, {}) && this.budget == budget
    {
      queue := Queue([], {}, {});
      this.budget := budget;
    }

    method Enqueue(task: Task) returns (r: Result<Answer, Failure>)
      modifies this
      ensures old(budget) == 0 ==> r == Err(Unavailable) && queue == old(queue) && budget == 0
      ensures old(budget) > 0 ==>
        (queue, r) == (Offer(old(queue), task).0, Ok(Offer(old(queue), task).1)) && budget == old(budget) - 1
    {
      if budget == 0 { return Err(Unavailable); }
      budget := budget - 1;
      if Identified(task) {
        if task.id.value in queue.ids { return Ok(Conflict); }
        queue := queue.(ids := queue.ids + {task.id.value});
      } else {
        if task in queue.locks { return Ok(Duplicate); }
        queue := queue.(locks := queue.locks + {task});
      }
      queue := queue.(accepted := queue.accepted + [task]);
      r := Ok(Accepted);
    }

    /** The loop over the page and the continuation; a failed call leaves whatever was enqueued so far in place. */
    method FanOut(args: Args, number: int, page: seq<nat>) returns (failed: bool)
      modifies this
      ensures queue == OfferAll(old(queue), Sent(Fan(args, number, page), old(budget)))
      ensures budget == old(budget) - |Sent(Fan(args, number, page), old(budget))|
      ensures failed <==> old(budget) < |Fan(args, number, page)|
    {
      ghost var fan := Fan(args, number, page);
      var k := 0;
      while k < |page|
        invariant k <= |page| && k <= old(budget) && budget == old(budget) - k
        invariant queue == OfferAll(old(queue), fan[..k])
      {
        OfferOneMore(old(queue), fan, k);
        var r := Enqueue(InvokeFor(args, number, page[k]));
        if r.Err? { return true; }
        k := k + 1;
      }
      if |page| == BATCH {
        OfferOneMore(old(queue), fan, k);
        var r := Enqueue(Proceed(args.(after := page[BATCH - 1])));
        if r.Err? { return true; }
        k := k + 1;
      }
      assert k == |fan| && fan[..k] == fan;
      failed := false;
    }

    /** A failed task is run again later by the queue. */
    method HandleDispatchTask(hooks: Table, args: Args, row: Option<Row>) returns (failure: Option<Failure>)
      modifies this
      ensures queue == OfferAll(old(queue), Sent(Plan(hooks, args, row), old(budget)))
      ensures budget == old(budget) - |Sent(Plan(hooks, args, row), old(budget))|
      ensures failure == Some(InvalidSnapshot) <==>
        args.event == EventType.Deletion && (args.deletion.None? || args.deletion.value.image != args.image)
      ensures failure == Some(NoPreviousVersion) <==>
        args.event == EventType.Update && row.Some? && !row.value.hasPrevious
      ensures failure == Some(Unavailable) <==> old(budget) < |Plan(hooks, args, row)|
    {
      var page := GetWebhooksByEvent(hooks, args.after, args.event);
      var numbered := Numbered(args, row);
      if numbered.Err? { return Some(numbered.error); }
      if numbered.value.None? { return None; }
      var failed := FanOut(args, numbered.value.value, page);
      failure := if failed then Some(Unavailable) else None;
    }
  }

  // ----- runs with arbitrary retries -----

  /** One attempt of a dispatch task that gets `reach` calls through, or a uniqueness lock that is freed. */
  datatype Step = Attempt(hooks: Table, args: Args, row: Option<Row>, reach: nat) | Released(task: Task)

  function Offered(step: Step): seq<Task> {
    match step
    case Attempt(hooks, args, row, reach) =>
      Sent(Plan(hooks, args, row), reach)
    case Released(_) => []
  }

  function Next(q: Queue, step: Step): Queue {
    if step.Released? then q.(locks := q.locks - {step.task}) else OfferAll(q, Offered(step))
  }

  function Run(steps: seq<Step>): Queue {
    if steps == [] then Queue([], {}, {}) else Next(Run(steps[..|steps| - 1]), steps[|steps| - 1])
  }

  predicate HasId(task: Task, id: string) {
    task.Invoke? && task.id == Some(id)
  }

  function Copies(tasks: seq<Task>, id: string): nat {
    if tasks == [] then 0 else Copies(tasks[..|tasks| - 1], id) + if HasId(tasks[|tasks| - 1], id) then 1 else 0
  }

  ghost predicate Offers(tasks: seq<Task>, id: string) {
    exists task :: task in tasks && HasId(task, id)
  }

  ghost predicate Tries(step: Step, id: string) {
    Offers(Offered(step), id)
  }

  /** Some step offered this id. */
  ghost predicate Tried(steps: seq<Step>, id: string) {
    steps != [] && (Tried(steps[..|steps| - 1], id) || Tries(steps[|steps| - 1], id))
  }

  lemma {:induction false} TriedAt(steps: seq<Step>, k: nat, id: string)
    requires k < |steps| && Tries(steps[k], id)
    ensures Tried(steps, id)
  {
    if k < |steps| - 1 { TriedAt(steps[..|steps| - 1], k, id); }
  }

  /** The retained id says whether the one copy was accepted. */
  ghost predicate Single(q: Queue, id: string) {
    Copies(q.accepted, id) == if id in q.ids then 1 else 0
  }

  lemma OfferKeepsSingle(q: Queue, task: Task, id: string)
    requires Single(q, id)
    ensures Single(Offer(q, task).0, id)
    ensures id in Offer(q, task).0.ids <==> id in q.ids || HasId(task, id)
  {
    assert (q.accepted + [task])[..|q.accepted|] == q.accepted;
  }

  lemma {:induction false} OfferAllKeepsSingle(q: Queue, tasks: seq<Task>, id: string)
    requires Single(q, id)
    ensures Single(OfferAll(q, tasks), id)
    ensures id in OfferAll(q, tasks).ids <==> id in q.ids || Offers(tasks, id)
  {
    if tasks != [] {
      var head, last := tasks[..|tasks| - 1], tasks[|tasks| - 1];
      OfferAllKeepsSingle(q, head, id);
      OfferKeepsSingle(OfferAll(q, head), last, id);
      assert tasks == head + [last];
    }
  }

  /** Main result: whatever attempts fail and are repeated, each invocation id enters the queue exactly once
      when some attempt got to it, and never otherwise. */
  lemma {:induction false} InvokedOnce(steps: seq<Step>, id: string)
    ensures Single(Run(steps), id)
    ensures id in Run(steps).ids <==> Tried(steps, id)
  {
    if steps != [] {
      var head, last := steps[..|steps| - 1], steps[|steps| - 1];
      InvokedOnce(head, id);
      NextKeepsSingle(Run(head), last, id);
    }
  }

  lemma NextKeepsSingle(q: Queue, step: Step, id: string)
    requires Single(q, id)
    ensures Single(Next(q, step), id)
    ensures id in Next(q, step).ids <==> id in q.ids || Tries(step, id)
  {
    OfferAllKeepsSingle(q, Offered(step), id);
  }

  /** An invocation id names one deletion request and one webhook. */
  lemma IdNamesOnePair(args: Args, number: int, webhook: nat, request: nat, target: nat)
    ensures HasId(InvokeFor(args, number, webhook), TaskId(request, target)) <==>
      && args.event == EventType.Deletion && webhook == target
      && args.deletion.Some? && args.deletion.value.request == request
  {
    if args.deletion.Some? { TaskIdsIdentify(args.deletion.value.request, webhook, request, target); }
  }

  // ----- every continuation handled: nobody is missed -----

  /** Locks are held by accepted tasks only, so a refused duplicate is already in the queue. */
  ghost predicate Held(q: Queue) {
    forall task :: task in q.locks ==> task in q.accepted
  }

  lemma OfferHolds(q: Queue, task: Task)
    requires Held(q)
    ensures Held(Offer(q, task).0) && q.accepted <= Offer(q, task).0.accepted
    ensures !Identified(task) ==> task in Offer(q, task).0.accepted
  {
    var after := Offer(q, task).0;
    forall other | other in after.locks ensures other in after.accepted {
      if other != task || task in q.locks { assert other in q.accepted; }
    }
  }

  lemma {:induction false} OfferAllHolds(q: Queue, tasks: seq<Task>)
    requires Held(q)
    ensures Held(OfferAll(q, tasks)) && q.accepted <= OfferAll(q, tasks).accepted
    ensures forall k :: 0 <= k < |tasks| && !Identified(tasks[k]) ==> tasks[k] in OfferAll(q, tasks).accepted
  {
    if tasks != [] {
      var head, last := tasks[..|tasks| - 1], tasks[|tasks| - 1];
      var before := OfferAll(q, head);
      OfferAllHolds(q, head);
      OfferHolds(before, last);
      forall k | 0 <= k < |tasks| && !Identified(tasks[k]) ensures tasks[k] in OfferAll(q, tasks).accepted {
        if k < |head| { assert tasks[k] == head[k] && head[k] in before.accepted; }
      }
    }
  }

  /** Apart from deletion invocations, everything a step offered is in the queue. */
  ghost predicate Took(accepted: seq<Task>, step: Step) {
    forall task :: task in Offered(step) && !Identified(task) ==> task in accepted
  }

  lemma NextHolds(q: Queue, step: Step)
    requires Held(q)
    ensures Held(Next(q, step)) && q.accepted <= Next(q, step).accepted
    ensures Took(Next(q, step).accepted, step)
  {
    OfferAllHolds(q, Offered(step));
  }

  lemma StillTook(q: Queue, step: Step, earlier: Step)
    requires Held(q) && Took(q.accepted, earlier)
    ensures Took(Next(q, step).accepted, earlier)
  {
    NextHolds(q, step);
  }

  lemma {:induction false} OfferedIsAccepted(steps: seq<Step>, k: nat)
    requires k < |steps|
    ensures Took(Run(steps).accepted, steps[k])
  {
    var head, last, step := steps[..|steps| - 1], steps[|steps| - 1], steps[k];
    var before := Run(head);
    RunHolds(head);
    if k == |head| {
      NextHolds(before, last);
    } else {
      OfferedIsAccepted(head, k);
      StillTook(before, last, step);
    }
    assert Took(Next(before, last).accepted, step);
  }

  lemma {:induction false} RunHolds(steps: seq<Step>)
    ensures Held(Run(steps))
  {
    if steps != [] {
      RunHolds(steps[..|steps| - 1]);
      NextHolds(Run(steps[..|steps| - 1]), steps[|steps| - 1]);
    }
  }

  /** Some attempt of this task got all its calls through. */
  ghost predicate Handled(steps: seq<Step>, args: Args) {
    exists k :: 0 <= k < |steps| && Completes(steps[k], args)
  }

  predicate Completes(step: Step, args: Args) {
    step.Attempt? && step.args == args && step.reach >= |Plan(step.hooks, args, step.row)|
  }

  /** The version stays readable and the webhook eligible whenever a task of this event is attempted. */
  predicate Stays(step: Step, event: Args, number: int, webhook: nat) {
    step.Attempt? && step.args.(after := 0) == event ==>
      Numbered(step.args, step.row) == Ok(Some(number)) && webhook in EligibleIds(step.hooks, event.event)
  }

  lemma PlanContents(step: Step, args: Args, number: int, page: seq<nat>)
    requires Completes(step, args) && Numbered(args, step.row) == Ok(Some(number))
    requires page == GetWebhooksByEvent(step.hooks, args.after, args.event)
    ensures forall webhook :: webhook in page ==> InvokeFor(args, number, webhook) in Offered(step)
    ensures |page| == BATCH ==> Proceed(args.(after := page[BATCH - 1])) in Offered(step)
  {
    var plan := Plan(step.hooks, args, step.row);
    assert Offered(step) == plan;
    forall webhook | webhook in page ensures InvokeFor(args, number, webhook) in plan {
      var j :| 0 <= j < |page| && page[j] == webhook;
      assert plan[j] == InvokeFor(args, number, webhook);
    }
    if |page| == BATCH { assert plan[BATCH] == Proceed(args.(after := page[BATCH - 1])); }
  }

  /** An eligible webhook that is not on the page comes after it, and the page is full. */
  lemma PageGoesOn(hooks: Table, args: Args, webhook: nat)
    requires webhook in EligibleIds(hooks, args.event) && args.after < webhook
    requires webhook !in GetWebhooksByEvent(hooks, args.after, args.event)
    ensures var page := GetWebhooksByEvent(hooks, args.after, args.event);
      |page| == BATCH && args.after < page[BATCH - 1] < webhook
  {
    var page := GetWebhooksByEvent(hooks, args.after, args.event);
    Keyset.PageIsFirst(EligibleIds(hooks, args.event), args.after, BATCH, webhook);
    assert page[BATCH - 1] in page;
  }

  /** Main result: if every accepted dispatch task is eventually handled, the invocation of each webhook that stays
      eligible is offered, and for a create or update it is in the queue, whatever retries, duplicates and partial
      failures occur on the way. A deletion's is there under its id (DeletionReachesEachOnce). */
  lemma {:induction false} EveryWebhookInvoked(steps: seq<Step>, args: Args, number: int, webhook: nat)
    requires args.after < webhook && Handled(steps, args)
    requires forall task :: task in Run(steps).accepted && task.Proceed? ==> Handled(steps, task.args)
    requires forall k :: 0 <= k < |steps| ==> Stays(steps[k], args.(after := 0), number, webhook)
    ensures exists k :: 0 <= k < |steps| && InvokeFor(args, number, webhook) in Offered(steps[k])
    ensures !Identified(InvokeFor(args, number, webhook)) ==> InvokeFor(args, number, webhook) in Run(steps).accepted
    decreases webhook - args.after
  {
    var k :| 0 <= k < |steps| && Completes(steps[k], args);
    assert Stays(steps[k], args.(after := 0), number, webhook);
    var page := GetWebhooksByEvent(steps[k].hooks, args.after, args.event);
    PlanContents(steps[k], args, number, page);
    OfferedIsAccepted(steps, k);
    if webhook !in page {
      PageGoesOn(steps[k].hooks, args, webhook);
      EveryWebhookInvoked(steps, args.(after := page[BATCH - 1]), number, webhook);
    }
  }

  /** For a deletion the two results combine: exactly one invocation for each webhook that stays eligible. */
  lemma DeletionReachesEachOnce(steps: seq<Step>, args: Args, number: int, webhook: nat)
    requires args.event == EventType.Deletion && args.deletion.Some? && args.after == 0 < webhook
    requires Handled(steps, args)
    requires forall task :: task in Run(steps).accepted && task.Proceed? ==> Handled(steps, task.args)
    requires forall k :: 0 <= k < |steps| ==> Stays(steps[k], args, number, webhook)
    ensures Copies(Run(steps).accepted, TaskId(args.deletion.value.request, webhook)) == 1
  {
    var id, task := TaskId(args.deletion.value.request, webhook), InvokeFor(args, number, webhook);
    EveryWebhookInvoked(steps, args, number, webhook);
    var k :| 0 <= k < |steps| && task in Offered(steps[k]);
    assert HasId(task, id);
    TriedAt(steps, k, id);
    InvokedOnce(steps, id);
  }
}
