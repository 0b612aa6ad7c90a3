/** The webhook fan-out: pages of at most 100 subscribers, continued by a task that carries the last id. */
module Dispatch {
  import Breaker
  import Keyset

  const BATCH: nat := 100

  datatype EventType = Creation | Update | Deletion

  function Flag(event: EventType): int {
    match event
    case Creation => 1
    case Update => 2
    case Deletion => 4
  }

  type Table = map<nat, Breaker.Hook>

  /** `event_types & flag != 0` for a mask of any sign: the flag's bit in two's complement. */
  predicate Subscribes(mask: int, event: EventType) {
    (mask / Flag(event)) % 2 == 1
  }

  predicate Eligible(hook: Breaker.Hook, event: EventType) {
    Subscribes(hook.settings.events, event) && hook.active && hook.failures < Breaker.MAX_FAILURES
  }

  function EligibleIds(hooks: Table, event: EventType): set<nat> {
    set id | id in hooks && Eligible(hooks[id], event)
  }

  function Page(eligible: set<nat>, after: nat): seq<nat> {
    Keyset.Page(eligible, after, BATCH)
  }

  function GetWebhooksByEvent(hooks: Table, after: nat, event: EventType): seq<nat> {
    Page(EligibleIds(hooks, event), after)
  }

  /** The query: active webhooks with fewer than three failures and the event's bit in their mask (1 for creations, 2
      for updates, 4 for deletions), in ascending order above the cursor, and none left out before the page is full. */
  lemma PageIsEligible(hooks: Table, after: nat, event: EventType, id: nat)
    ensures var page := GetWebhooksByEvent(hooks, after, event);
      && |page| <= 100 && Keyset.Ascending(page)
      && (id in page ==> id > after && id in hooks)
      && (id > after && id in hooks ==>
            var hook := hooks[id];
            var wanted := match event
              case Creation => hook.settings.events % 2 >= 1
              case Update => hook.settings.events % 4 >= 2
              case Deletion => hook.settings.events % 8 >= 4;
            if hook.active && hook.failures < 3 && wanted
            then id in page || (|page| == 100 && page[99] < id)
            else id !in page)
  {
    var page := GetWebhooksByEvent(hooks, after, event);
    if id in hooks { MaskBit(hooks[id].settings.events); }
    if id in EligibleIds(hooks, event) && id > after && id !in page {
      Keyset.PageIsFirst(EligibleIds(hooks, event), after, BATCH, id);
    }
  }

  lemma MaskBit(mask: int)
    ensures (mask / 1) % 2 == 1 <==> mask % 2 >= 1
    ensures (mask / 2) % 2 == 1 <==> mask % 4 >= 2
    ensures (mask / 4) % 2 == 1 <==> mask % 8 >= 4
  {
  }

  // ----- the chain of dispatch tasks; `found[k]` are the ids eligible when its k-th task queries the table -----

  /** Who is reached by as many tasks as there are queries. */
  function Chain(found: seq<set<nat>>, after: nat): seq<nat>
    decreases |found|
  {
    if found == [] then []
    else
      var page := Page(found[0], after);
      if |page| < BATCH then page else page + Chain(found[1..], page[BATCH - 1])
  }

  /** Whether these tasks are enough for the chain to end. */
  predicate Ends(found: seq<set<nat>>, after: nat)
    decreases |found|
  {
    found != [] &&
    var page := Page(found[0], after);
    |page| < BATCH || Ends(found[1..], page[BATCH - 1])
  }

  /** Nobody is reached twice. */
  lemma {:induction false} ChainAscends(found: seq<set<nat>>, after: nat)
    ensures Keyset.Ascending(Chain(found, after))
    ensures forall id :: id in Chain(found, after) ==> id > after
    decreases |found|
  {
    if found != [] {
      var page := Page(found[0], after);
      if |page| == BATCH {
        ChainAscends(found[1..], page[BATCH - 1]);
        assert page[BATCH - 1] in page;
        Keyset.JoinAscends(page, Chain(found[1..], page[BATCH - 1]));
      }
    }
  }

  /** Everyone reached was eligible for the query that reached them. */
  lemma {:induction false} ChainFinds(found: seq<set<nat>>, after: nat, id: nat) returns (k: nat)
    requires id in Chain(found, after)
    ensures k < |found| && id in found[k]
    decreases |found|
  {
    var page := Page(found[0], after);
    k := 0;
    if id !in page {
      k := ChainFinds(found[1..], page[BATCH - 1], id);
      k := k + 1;
    }
  }

  /** Main result: once a chain has ended, everyone who stayed eligible at every query was reached, whatever happened to
      others. */
  lemma {:induction false} ChainReaches(found: seq<set<nat>>, after: nat, id: nat)
    requires Ends(found, after) && id > after
    requires forall k :: 0 <= k < |found| ==> id in found[k]
    ensures id in Chain(found, after)
    decreases |found|
  {
    var page := Page(found[0], after);
    if id !in page {
      Keyset.PageIsFirst(found[0], after, BATCH, id);
      ChainReaches(found[1..], page[BATCH - 1], id);
    }
  }

  lemma {:induction false} AscendingSpreads(s: seq<nat>, k: nat)
    requires Keyset.Ascending(s) && k < |s|
    ensures s[k] >= s[0] + k
  {
    if k > 0 { AscendingSpreads(s, k - 1); }
  }

  /** The cursor gains at least 100 with every continuation, so a chain ends after bound / 100 + 1 tasks. */
  lemma {:induction false} ChainEnds(found: seq<set<nat>>, after: nat, bound: nat)
    requires after <= bound && BATCH * |found| > bound - after
    requires forall k, id :: 0 <= k < |found| && id in found[k] ==> id <= bound
    ensures Ends(found, after)
    decreases |found|
  {
    var page := Page(found[0], after);
    if |page| == BATCH {
      AscendingSpreads(page, BATCH - 1);
      assert page[0] in page && page[BATCH - 1] in page;
      assert page[BATCH - 1] in found[0];
      ChainEnds(found[1..], page[BATCH - 1], bound);
    }
  }

  function Remaining(eligible: set<nat>, after: nat): seq<nat> {
    Keyset.Sorted(Keyset.Above(eligible, after))
  }

  ghost predicate Takes(chain: seq<nat>, all: seq<nat>, reach: nat, ends: bool) {
    chain <= all && |chain| == (if reach < |all| then reach else |all|) && (ends <==> reach > |all|)
  }

  lemma TakesMore(
    page: seq<nat>, later: seq<nat>, rest: seq<nat>, chain: seq<nat>, all: seq<nat>, reach: nat, ends: bool)
    requires |page| <= 100 <= reach
    requires |page| == 100 ==> Takes(later, rest, reach - 100, ends)
    requires chain == (page + if |page| == 100 then later else []) && all == page + if |page| == 100 then rest else []
    ensures Takes(chain, all, reach, |page| < 100 || ends)
  {
    assert page + [] == page;
  }

  lemma TaskStep(found: seq<set<nat>>, eligible: set<nat>, after: nat) returns (page: seq<nat>, last: nat)
    requires found != [] && found[0] == eligible
    ensures |page| <= 100
    ensures Chain(found, after) == page + if |page| == 100 then Chain(found[1..], last) else []
    ensures Remaining(eligible, after) == page + if |page| == 100 then Remaining(eligible, last) else []
    ensures Ends(found, after) <==> |page| < 100 || Ends(found[1..], last)
  {
    Keyset.PageSplit(eligible, after, BATCH);
    page := Page(eligible, after);
    last := if |page| == BATCH then page[BATCH - 1] else after;
    assert page + [] == page;
  }

  /** While nobody's eligibility changes, k tasks reach the first 100 * k eligible subscribers in id order; the chain
      ends with the first task that exceeds them, after floor(n / 100) + 1 tasks. */
  lemma {:induction false} StaticChain(found: seq<set<nat>>, eligible: set<nat>, reach: nat, after: nat)
    requires reach == 100 * |found| && forall k :: 0 <= k < |found| ==> found[k] == eligible
    ensures Takes(Chain(found, after), Remaining(eligible, after), reach, Ends(found, after))
    decreases |found|
  {
    if found != [] {
      var page, last := TaskStep(found, eligible, after);
      var later := found[1..];
      StaticChain(later, eligible, reach - 100, last);
      TakesMore(page, Chain(later, last), Remaining(eligible, last),
        Chain(found, after), Remaining(eligible, after), reach, Ends(later, last));
    }
  }
}
