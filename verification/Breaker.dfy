/** One webhook row: deliveries count failures and pause it, its owner edits it by reading it first and writing later.
    */
module Breaker {
  import opened Options

  const MAX_FAILURES: int := 3

  /** `body` and `headers` are the templates; an empty body template means the default body. */
  datatype Settings = Settings(events: int, endpoint: string, body: string, headers: map<string, string>)

  datatype Hook = Hook(settings: Settings, active: bool, failures: int)

  datatype Patch = Patch(
    events: Option<int>, endpoint: Option<string>, body: Option<string>, headers: Option<map<string, string>>,
    active: Option<bool>)

  /** The parameters of UpdateWebhook, built from the row as EditWebhook read it. */
  datatype Draft = Draft(settings: Settings, active: bool)

  // ----- statements -----

  function RecordFailure(hook: Hook): Hook {
    hook.(failures := hook.failures + 1, active := if hook.failures + 1 >= MAX_FAILURES then false else hook.active)
  }

  function RecordSuccess(hook: Hook): Hook {
    hook.(failures := if hook.active then 0 else hook.failures)
  }

  function Chosen<T>(change: Option<T>, kept: T): T {
    if change.Some? then change.value else kept
  }

  function DraftOf(hook: Hook, patch: Patch): Draft {
    var kept := hook.settings;
    Draft(
      Settings(Chosen(patch.events, kept.events), Chosen(patch.endpoint, kept.endpoint),
               Chosen(patch.body, kept.body), Chosen(patch.headers, kept.headers)),
      Chosen(patch.active, hook.active))
  }

  function Update(hook: Hook, draft: Draft): Hook {
    Hook(draft.settings, draft.active, if !hook.active && draft.active then 0 else hook.failures)
  }

  datatype Outcome = Answered(status: int) | Unreachable | NotRendered

  predicate Success(outcome: Outcome) {
    outcome.Answered? && 200 <= outcome.status < 300
  }

  function Record(hook: Hook, outcome: Outcome): Hook {
    if Success(outcome) then RecordSuccess(hook) else RecordFailure(hook)
  }

  // ----- runs: results may come late, edits may write what they read long ago -----

  datatype Step = Reported(outcome: Outcome) | EditRead(edit: nat, patch: Patch) | EditWritten(edit: nat)

  datatype State = State(hook: Hook, drafts: map<nat, Draft>)

  function Next(s: State, step: Step): State {
    match step
    case Reported(outcome) => s.(hook := Record(s.hook, outcome))
    case EditRead(edit, patch) => s.(drafts := s.drafts[edit := DraftOf(s.hook, patch)])
    case EditWritten(edit) => if edit in s.drafts then s.(hook := Update(s.hook, s.drafts[edit])) else s
  }

  function Run(start: Hook, steps: seq<Step>): State {
    if steps == [] then State(start, map[]) else Next(Run(start, steps[..|steps| - 1]), steps[|steps| - 1])
  }

  /** A success while active, or an edit that turns a paused webhook on again. */
  predicate Resets(s: State, step: Step) {
    match step
    case Reported(outcome) => Success(outcome) && s.hook.active
    case EditRead(_, _) => false
    case EditWritten(edit) => edit in s.drafts && !s.hook.active && s.drafts[edit].active
  }

  predicate Fails(step: Step) {
    step.Reported? && !Success(step.outcome)
  }

  function CountFailures(steps: seq<Step>): nat {
    if steps == [] then 0 else CountFailures(steps[..|steps| - 1]) + if Fails(steps[|steps| - 1]) then 1 else 0
  }

  /** Where the current count began: just after the last reset, or at creation. */
  function CountStart(start: Hook, steps: seq<Step>): (since: nat)
    ensures since <= |steps|
  {
    if steps == [] then 0
    else
      var head, last := steps[..|steps| - 1], steps[|steps| - 1];
      if Resets(Run(start, head), last) then |steps| else CountStart(start, head)
  }

  /** The failures since then. */
  function Streak(start: Hook, steps: seq<Step>): nat {
    CountFailures(steps[CountStart(start, steps)..])
  }

  /** The step before it resets the count, and no step after it does. */
  lemma {:induction false} CountStartMeans(start: Hook, steps: seq<Step>, k: nat)
    requires k < |steps| && CountStart(start, steps) <= k + 1
    ensures Resets(Run(start, steps[..k]), steps[k]) <==> CountStart(start, steps) == k + 1
  {
    if k < |steps| - 1 {
      CountStartMeans(start, steps[..|steps| - 1], k);
      assert steps[..|steps| - 1][..k] == steps[..k];
    }
  }

  lemma {:induction false} ActiveBelowLimit(start: Hook, steps: seq<Step>)
    requires start.failures == 0
    ensures var hook := Run(start, steps).hook;
      hook.failures >= 0 && (hook.active ==> hook.failures < 3)
  {
    if steps != [] { ActiveBelowLimit(start, steps[..|steps| - 1]); }
  }

  /** Main result: the count is exactly the failures recorded since the last reset, late or not, active or paused. */
  lemma {:induction false} CountIsExact(start: Hook, steps: seq<Step>)
    requires start.failures == 0
    ensures Run(start, steps).hook.failures == Streak(start, steps)
  {
    if steps == [] {
    } else {
      var head, last, since := steps[..|steps| - 1], steps[|steps| - 1], CountStart(start, steps);
      if since == |steps| {
        CountMoves(Run(start, head), last);
        assert steps[since..] == [];
      } else {
        CountIsExact(start, head);
        CountAppends(head[since..], last);
        assert steps[since..] == head[since..] + [last];
      }
    }
  }

  lemma CountMoves(s: State, step: Step)
    ensures Next(s, step).hook.failures == if Resets(s, step) then 0 else s.hook.failures + if Fails(step) then 1 else 0
  {
  }

  lemma CountAppends(steps: seq<Step>, step: Step)
    ensures CountFailures(steps + [step]) == CountFailures(steps) + if Fails(step) then 1 else 0
  {
    assert (steps + [step])[..|steps|] == steps;
  }

  /** Main result: a delivery result pauses an active webhook exactly when it is the third failure since the last reset.
      */
  lemma PausedAtTheThird(start: Hook, steps: seq<Step>, outcome: Outcome)
    requires start.failures == 0 && Run(start, steps).hook.active
    ensures !Record(Run(start, steps).hook, outcome).active <==>
        !Success(outcome) && Streak(start, steps) == 2
  {
    ActiveBelowLimit(start, steps);
    CountIsExact(start, steps);
  }

  /** No delivery result, however late, turns a webhook on again. */
  lemma OnlyEditsReactivate(s: State, step: Step)
    requires !s.hook.active && Next(s, step).hook.active
    ensures step.EditWritten? && step.edit in s.drafts && s.drafts[step.edit].active && Next(s, step).hook.failures == 0
  {
  }

  // ----- an edit that says nothing about `active` -----

  lemma {:induction false} DraftKept(s: State, steps: seq<Step>, edit: nat)
    requires edit in s.drafts
    requires forall k :: 0 <= k < |steps| ==> !(steps[k].EditRead? && steps[k].edit == edit)
    ensures edit in Continue(s, steps).drafts && Continue(s, steps).drafts[edit] == s.drafts[edit]
  {
    if steps != [] { DraftKept(s, steps[..|steps| - 1], edit); }
  }

  function Continue(s: State, steps: seq<Step>): State {
    if steps == [] then s else Next(Continue(s, steps[..|steps| - 1]), steps[|steps| - 1])
  }

  /** Such an edit writes back the flag it read. It leaves the flag alone if and only if nobody changed it in between;
      it revives the webhook, with a fresh count, if and only if it was read active and has been paused since. */
  lemma SilentEdit(s: State, edit: nat, patch: Patch, between: seq<Step>)
    requires patch.active.None?
    requires forall k :: 0 <= k < |between| ==> !(between[k].EditRead? && between[k].edit == edit)
    ensures var at := Continue(Next(s, EditRead(edit, patch)), between);
      var hook := Next(at, EditWritten(edit)).hook;
      && (hook.active == at.hook.active <==> s.hook.active == at.hook.active)
      && (!at.hook.active && hook.active <==> s.hook.active && !at.hook.active)
      && hook.failures == (if s.hook.active && !at.hook.active then 0 else at.hook.failures)
  {
    DraftKept(Next(s, EditRead(edit, patch)), between, edit);
  }

  /** An edit of the endpoint undoes the pause that three failures caused while it was under way. */
  lemma StaleEditRevives(settings: Settings)
    ensures var failed := Reported(Unreachable);
      var patch := Patch(None, Some("new"), None, None, None);
      var edited := Next(State(Hook(settings, true, 0), map[]), EditRead(1, patch));
      var paused := Continue(edited, [failed, failed, failed]);
      !paused.hook.active && Next(paused, EditWritten(1)).hook == Hook(settings.(endpoint := "new"), true, 0)
  {
    var failed := Reported(Unreachable);
    var edited := Next(State(Hook(settings, true, 0), map[]), EditRead(1, Patch(None, Some("new"), None, None, None)));
    assert [failed, failed, failed][..2] == [failed, failed];
    assert [failed, failed][..1] == [failed] && [failed][..0] == [];
    assert Continue(edited, [failed]) == Next(edited, failed);
    assert Continue(edited, [failed, failed]) == Next(Next(edited, failed), failed);
    assert Continue(edited, [failed, failed, failed]) == Next(Next(Next(edited, failed), failed), failed);
  }

  // ----- the row and its statements -----

  lemma RunAppends(start: Hook, steps: seq<Step>, step: Step)
    ensures Run(start, steps + [step]) == Next(Run(start, steps), step)
    ensures CountStart(start, steps + [step]) ==
      if Resets(Run(start, steps), step) then |steps| + 1 else CountStart(start, steps)
  {
    assert (steps + [step])[..|steps|] == steps;
  }

  /** One row of the webhook table and the edits under way on it. The history records what has happened to the row
      since it was inserted with its default count, so every result about runs applies to the methods. */
  class Webhook {
    var row: Hook
    var drafts: map<nat, Draft>
    ghost const start: Hook
    ghost var history: seq<Step>

    ghost predicate Valid()
      reads this
    {
      start.failures == 0 && State(row, drafts) == Run(start, history)
    }

    /** NewWebhook. */
    constructor (settings: Settings, active: bool)
      ensures Valid() && history == [] && row.settings == settings && row.active == active && drafts == map[]
    {
      row, drafts := Hook(settings, active, 0), map[];
      start, history := Hook(settings, active, 0), [];
    }

    /** An active webhook stays active as long as this is not its third failure since the last reset. */
    method RecordWebhookFailure(outcome: Outcome)
      requires Valid() && !Success(outcome)
      modifies this`row, this`history
      ensures Valid() && history == old(history) + [Reported(outcome)]
      ensures row.settings == old(row.settings)
      ensures row.failures == Streak(start, history) == Streak(start, old(history)) + 1
      ensures row.active <==> old(row.active) && Streak(start, history) < 3
    {
      RunAppends(start, history, Reported(outcome));
      CountIsExact(start, history);
      CountIsExact(start, history + [Reported(outcome)]);
      var failures := row.failures + 1;
      if failures >= MAX_FAILURES { row := row.(active := false); }
      row := row.(failures := failures);
      history := history + [Reported(outcome)];
    }

    /** A success starts a new count for an active webhook; a late one changes nothing for a paused webhook. */
    method RecordWebhookSuccess(outcome: Outcome)
      requires Valid() && Success(outcome)
      modifies this`row, this`history
      ensures Valid() && history == old(history) + [Reported(outcome)]
      ensures row.settings == old(row.settings) && row.active == old(row.active)
      ensures CountStart(start, history) == if row.active then |history| else CountStart(start, old(history))
      ensures row.failures == Streak(start, history) == if row.active then 0 else Streak(start, old(history))
    {
      RunAppends(start, history, Reported(outcome));
      CountIsExact(start, history);
      CountIsExact(start, history + [Reported(outcome)]);
      if row.active { row := row.(failures := 0); }
      history := history + [Reported(outcome)];
    }

    /** The first half of EditWebhook; other statements may run before the second. */
    method ReadForEdit(edit: nat, patch: Patch)
      requires Valid()
      modifies this`drafts, this`history
      ensures Valid() && history == old(history) + [EditRead(edit, patch)]
      ensures drafts.Keys == old(drafts.Keys) + {edit}
      ensures forall other :: other in old(drafts) && other != edit ==> drafts[other] == old(drafts)[other]
      ensures var draft, kept := drafts[edit].settings, row.settings;
        && (if patch.events.Some? then Some(draft.events) == patch.events else draft.events == kept.events)
        && (if patch.endpoint.Some? then Some(draft.endpoint) == patch.endpoint else draft.endpoint == kept.endpoint)
        && (if patch.body.Some? then Some(draft.body) == patch.body else draft.body == kept.body)
        && (if patch.headers.Some? then Some(draft.headers) == patch.headers else draft.headers == kept.headers)
        && (if patch.active.Some? then Some(drafts[edit].active) == patch.active else drafts[edit].active == row.active)
      ensures patch == Patch(None, None, None, None, None) ==> Update(row, drafts[edit]) == row
    {
      RunAppends(start, history, EditRead(edit, patch));
      var draft := Draft(row.settings, row.active);
      if patch.endpoint.Some? { draft := draft.(settings := draft.settings.(endpoint := patch.endpoint.value)); }
      if patch.events.Some? { draft := draft.(settings := draft.settings.(events := patch.events.value)); }
      if patch.active.Some? { draft := draft.(active := patch.active.value); }
      if patch.body.Some? { draft := draft.(settings := draft.settings.(body := patch.body.value)); }
      if patch.headers.Some? { draft := draft.(settings := draft.settings.(headers := patch.headers.value)); }
      drafts := drafts[edit := draft];
      history := history + [EditRead(edit, patch)];
    }

    /** The second half writes the draft whatever has happened to the row since, and starts a new count
        exactly when it turns a paused webhook on. */
    method UpdateWebhook(edit: nat)
      requires Valid() && edit in drafts
      modifies this`row, this`history
      ensures Valid() && history == old(history) + [EditWritten(edit)]
      ensures row.settings == drafts[edit].settings && row.active == drafts[edit].active
      ensures CountStart(start, history) ==
        if !old(row.active) && row.active then |history| else CountStart(start, old(history))
      ensures row.failures == Streak(start, history)
    {
      RunAppends(start, history, EditWritten(edit));
      CountIsExact(start, history + [EditWritten(edit)]);
      var draft := drafts[edit];
      if !row.active && draft.active { row := row.(failures := 0); }
      row := row.(settings := draft.settings, active := draft.active);
      history := history + [EditWritten(edit)];
    }

    /** What HandleInvokeTask does with an answer, which may arrive after the row has changed: it pauses an active
        webhook
        exactly when it is the third failure since the last reset. */
    method Finish(outcome: Outcome)
      requires Valid()
      modifies this`row, this`history
      ensures Valid() && history == old(history) + [Reported(outcome)] && row.settings == old(row.settings)
      ensures row.active <==>
        old(row.active) && ((outcome.Answered? && 200 <= outcome.status <= 299) || Streak(start, old(history)) != 2)
    {
      ActiveBelowLimit(start, history);
      CountIsExact(start, history);
      if outcome.Answered? && outcome.status >= 200 && outcome.status < 300 {
        RecordWebhookSuccess(outcome);
      } else {
        RecordWebhookFailure(outcome);
      }
    }
  }
}
