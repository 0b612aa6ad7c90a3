/** The delivery of one queued invocation: whether it is still worth sending, and what is sent to the worker. */
module Delivery {
  import opened Options
  import opened Breaker
  import Catalog
  import Dispatch
  import Headers
  import Notices
  import Replica

  /** An invocation task; `name` is the event name older tasks carried beside the event type, or empty. */
  datatype Invocation = Invocation(name: string, event: Dispatch.EventType, image: nat, number: int)

  datatype WorkerRequest = WorkerRequest(url: string, body: string, headers: map<string, string>)

  function EventName(event: Dispatch.EventType): string {
    match event
    case Creation => "create"
    case Update => "update"
    case Deletion => "delete"
  }

  /** The event name fits its type, and a create or update is still about the current version of a live image. */
  predicate Timely(db: Catalog.Store, task: Invocation) {
    && (task.name == "" || task.name == EventName(task.event))
    && (task.event.Deletion? || Notices.Delivers(db, Notices.VersionTask(task.image, task.number)))
  }

  ghost predicate Renders(settings: Settings, engine: Headers.Engine, body: string -> Option<string>) {
    body(settings.body).Some? && Headers.Acceptable(settings.headers, engine)
  }

  lemma NoHeaders(engine: Headers.Engine)
    ensures Headers.Acceptable(map[], engine) && Headers.Renders(map[], engine, map[])
  {
    assert Headers.Sizes(map[]) == map[] && Headers.Values(map[], engine) == map[];
  }

  /** HandleInvokeTask up to the request: it is made exactly for a timely event of an active webhook whose templates
      render, and the worker will accept its headers as they are. An event that is not timely or finds the webhook
      paused costs nothing; templates that do not render count as one failure. */
  method Prepare(
    db: Catalog.Store, task: Invocation, hook: Webhook, engine: Headers.Engine, body: string -> Option<string>)
    returns (request: Option<WorkerRequest>)
    requires hook.Valid()
    modifies hook`row, hook`history
    ensures hook.Valid() && hook.row.settings == old(hook.row.settings)
    ensures request.Some? <==> Timely(db, task) && old(hook.row.active) && Renders(old(hook.row.settings), engine, body)
    ensures request.Some? ==>
      && request.value.url == hook.row.settings.endpoint && Some(request.value.body) == body(hook.row.settings.body)
      && Headers.Renders(hook.row.settings.headers, engine, request.value.headers)
      && forall wire :: Headers.Carries(wire, request.value.headers) ==>
           Headers.Parsed(wire) == Some(request.value.headers)
    ensures hook.history ==
      if request.None? && Timely(db, task) && old(hook.row.active)
      then old(hook.history) + [Reported(NotRendered)] else old(hook.history)
  {
    if task.name != "" && task.name != EventName(task.event) { return None; }
    if !task.event.Deletion? {
      if task.image !in db.images || !Catalog.Live(db.images[task.image]) { return None; }
      var current := Catalog.CurrentVersion(db.images[task.image]).value;
      if Notices.ShouldIgnore(current.number, task.number) { return None; }
    }
    var row := hook.row;
    if !row.active { return None; }
    var rendered := body(row.settings.body);
    var headers: Option<map<string, string>> := Some(map[]);
    NoHeaders(engine);
    if row.settings.headers != map[] {
      headers := Headers.RenderHeaders(row.settings.headers, EventName(task.event), engine);
    }
    if rendered.None? || headers.None? {
      hook.RecordWebhookFailure(NotRendered);
      return None;
    }
    forall wire | Headers.Carries(wire, headers.value) ensures Headers.Parsed(wire) == Some(headers.value) {
      Headers.RenderedIsParsed(row.settings.headers, engine, headers.value, wire);
    }
    request := Some(WorkerRequest(row.settings.endpoint, rendered.value, headers.value));
  }

  /** Which tasks are timely, read off the version list. */
  lemma TimelyMeans(db: Catalog.Store, task: Invocation)
    requires Catalog.StoreInv(db)
    ensures Timely(db, task) <==>
      && (task.name == "" || (task.event.Creation? && task.name == "create")
          || (task.event.Update? && task.name == "update") || (task.event.Deletion? && task.name == "delete"))
      && (!task.event.Deletion? ==>
            && task.image in db.images && db.images[task.image].deletedAt.None?
            && db.images[task.image].versions != []
            && db.images[task.image].versions[|db.images[task.image].versions| - 1].number <= task.number)
  {
    if task.image in db.images { Notices.LastVersion(db, task.image); }
  }

  /** A request about a version is only ever made for the current version of an image that is not deleted. */
  lemma RequestIsCurrent(s: Replica.System, task: Invocation)
    requires Replica.SystemInv(s) && Timely(s.world.db, task) && !task.event.Deletion?
    requires Notices.VersionTask(task.image, task.number) in s.queues.invoke
    ensures task.image in s.world.db.images && s.world.db.images[task.image].deletedAt.None?
    ensures var versions := s.world.db.images[task.image].versions;
      versions != [] && versions[|versions| - 1].number == task.number
  {
    Notices.DeliveredIsCurrent(s.world.db, Notices.VersionTask(task.image, task.number));
  }
}
