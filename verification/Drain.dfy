/** Once the catalogue rests the follower catches up: every successful step of the queues, of a delivery or of a refresh
    uses up work, and as long as any is left some step is possible. */
module Drain {
  import opened Options
  import opened Catalog
  import opened Views
  import opened Notices
  import opened Replica

  // ----- work left -----

  ghost predicate Read(q: Queues, n: Notice) {
    exists answer :: (n, answer) in q.lookups
  }

  ghost function Unread(q: Queues): set<Notice> {
    set n | n in q.dispatch && !Read(q, n)
  }

  /** A task weighs 6, then 5 once its request is under way and 1 once that has arrived. */
  function TaskWeight(invoke: set<Task>, sent: set<Task>, received: set<Task>): nat {
    |invoke| + 4 * |invoke - received| + |invoke - received - sent|
  }

  ghost function QueueWeight(q: Queues): nat {
    9 * |q.unsent| + 7 * |q.dispatch| + |Unread(q)| + TaskWeight(q.invoke, q.sent, q.received)
  }

  function Unanswered(f: Follower): set<nat> {
    set i | i in f.claims && f.claims[i].None?
  }

  /** A journaled image weighs 3, a claim 2, and 1 once it has been fetched. */
  function WorkWeight(f: Follower): nat {
    3 * |f.journal| + |f.claims| + |Unanswered(f)|
  }

  ghost function Weight(s: System): nat {
    QueueWeight(s.queues) + WorkWeight(s.follower)
  }

  // ----- steps that get something done -----

  ghost predicate Serves(q: Queues, db: Store, m: Move) {
    match m
    case Enqueued(n) => n in q.unsent
    case LookedUp(n) => n in Unread(q)
    case Dispatched(n, answer, acknowledged) => n in q.dispatch && (n, answer) in q.lookups && acknowledged
    case Checked(t) => t in q.invoke && (Delivers(db, t) ==> t !in q.sent && t !in q.received)
    case Arrived(t) => t in q.invoke && t in q.sent && t !in q.received
    case Answered(t) => t in q.invoke && t in q.received
    case _ => false
  }

  predicate Refreshes(f: Follower, m: Move) {
    match m
    case Claimed(i) => f.phase.Following? && i in f.journal && i !in f.claims
    case Fetched(i) => i in f.claims && f.claims[i].None?
    case Applied(i) => i in f.claims && f.claims[i].Some?
    case _ => false
  }

  /** A successful step of an enqueue, a dispatch, a delivery or a refresh. */
  ghost predicate Succeeds(s: System, m: Move) {
    Serves(s.queues, s.world.db, m) || Refreshes(s.follower, m)
  }

  // ----- every such step uses up work -----

  lemma RemoveOne<T>(a: set<T>, x: T)
    ensures |a - {x}| == |a| - if x in a then 1 else 0
    ensures |a + {x}| == |a| + if x in a then 0 else 1
  {
    if x in a { assert a + {x} == a && a == a - {x} + {x}; } else { assert a - {x} == a; }
  }

  lemma EnqueuedLightens(q: Queues, db: Store, n: Notice)
    requires n in q.unsent
    ensures QueueWeight(Serve(q, db, Enqueued(n))) < QueueWeight(q)
  {
    var q' := Serve(q, db, Enqueued(n));
    RemoveOne(q.unsent, n);
    RemoveOne(q.dispatch, n);
    RemoveOne(Unread(q), n);
    assert Unread(q') == if Read(q, n) then Unread(q) else Unread(q) + {n} by {
      forall x ensures Read(q', x) <==> Read(q, x) {}
    }
  }

  lemma LookedUpLightens(q: Queues, db: Store, n: Notice)
    requires n in Unread(q)
    ensures QueueWeight(Serve(q, db, LookedUp(n))) < QueueWeight(q)
  {
    var q' := Serve(q, db, LookedUp(n));
    RemoveOne(Unread(q), n);
    forall x ensures Read(q', x) <==> Read(q, x) || x == n {
      if Read(q, x) {
        var answer :| (x, answer) in q.lookups;
        assert (x, answer) in q'.lookups;
      }
      if x == n { assert (n, Invocation(db, n)) in q'.lookups; }
    }
    assert Unread(q') == Unread(q) - {n};
  }

  lemma AtMostOneMore<T>(more: set<T>, a: set<T>, x: T)
    requires more <= a + {x}
    ensures |more| <= |a| + 1
  {
    var rest := more - {x};
    RemoveOne(more, x);
    assert a == rest + (a - rest);
  }

  lemma AddedTask(invoke: set<Task>, sent: set<Task>, received: set<Task>, t: Task)
    ensures TaskWeight(invoke + {t}, sent, received) <= TaskWeight(invoke, sent, received) + 6
  {
    AtMostOneMore(invoke + {t}, invoke, t);
    AtMostOneMore(invoke + {t} - received, invoke - received, t);
    AtMostOneMore(invoke + {t} - received - sent, invoke - received - sent, t);
  }

  lemma RemovedTask(invoke: set<Task>, sent: set<Task>, received: set<Task>, t: Task)
    requires t in invoke
    ensures TaskWeight(invoke - {t}, sent, received) < TaskWeight(invoke, sent, received)
  {
    RemoveOne(invoke, t);
    RemoveOne(invoke - received, t);
    RemoveOne(invoke - received - sent, t);
    assert invoke - {t} - received == invoke - received - {t};
    assert invoke - {t} - received - sent == invoke - received - sent - {t};
  }

  lemma SentTask(invoke: set<Task>, sent: set<Task>, received: set<Task>, t: Task)
    requires t in invoke && t !in sent && t !in received
    ensures TaskWeight(invoke, sent + {t}, received) < TaskWeight(invoke, sent, received)
  {
    RemoveOne(invoke - received - sent, t);
    assert invoke - received - (sent + {t}) == invoke - received - sent - {t};
  }

  lemma ReceivedTask(invoke: set<Task>, sent: set<Task>, received: set<Task>, t: Task)
    requires t in invoke && t in sent && t !in received
    ensures TaskWeight(invoke, sent, received + {t}) + 4 <= TaskWeight(invoke, sent, received)
  {
    RemoveOne(invoke - received, t);
    assert invoke - (received + {t}) == invoke - received - {t};
    assert invoke - (received + {t}) - sent == invoke - received - sent;
  }

  lemma DispatchedLightens(q: Queues, db: Store, n: Notice, answer: Option<Task>)
    requires n in q.dispatch && (n, answer) in q.lookups
    ensures QueueWeight(Serve(q, db, Dispatched(n, answer, true))) < QueueWeight(q)
  {
    var q' := Serve(q, db, Dispatched(n, answer, true));
    RemoveOne(q.dispatch, n);
    if answer.Some? { AddedTask(q.invoke, q.sent, q.received, answer.value); }
    assert Unread(q') == Unread(q) by {
      forall x ensures Read(q', x) <==> Read(q, x) {}
      assert Read(q, n);
    }
  }

  lemma SameNotices(q: Queues, q': Queues)
    requires q'.unsent == q.unsent && q'.dispatch == q.dispatch && q'.lookups == q.lookups
    ensures QueueWeight(q') - TaskWeight(q'.invoke, q'.sent, q'.received)
         == QueueWeight(q) - TaskWeight(q.invoke, q.sent, q.received)
  {
    forall x ensures Read(q', x) <==> Read(q, x) {}
    assert Unread(q') == Unread(q);
  }

  /** An arrival leaves room for the refresh it asks for. */
  lemma ServingLightens(q: Queues, db: Store, m: Move)
    requires Serves(q, db, m)
    ensures QueueWeight(Serve(q, db, m)) + (if m.Arrived? then 3 else 0) < QueueWeight(q)
  {
    match m
    case Enqueued(n) => EnqueuedLightens(q, db, n);
    case LookedUp(n) => LookedUpLightens(q, db, n);
    case Dispatched(n, answer, _) => DispatchedLightens(q, db, n, answer);
    case Checked(t) =>
      SameNotices(q, Serve(q, db, m));
      if Delivers(db, t) { SentTask(q.invoke, q.sent, q.received, t); }
      else { RemovedTask(q.invoke, q.sent, q.received, t); }
    case Arrived(t) =>
      SameNotices(q, Serve(q, db, m));
      ReceivedTask(q.invoke, q.sent, q.received, t);
    case Answered(t) =>
      SameNotices(q, Serve(q, db, m));
      RemovedTask(q.invoke, q.sent, q.received, t);
  }

  lemma ClaimedLightens(f: Follower, f': Follower, i: nat)
    requires i in f.journal && i !in f.claims && f'.journal == f.journal - {i} && f'.claims == f.claims[i := None]
    ensures WorkWeight(f') < WorkWeight(f)
  {
    RemoveOne(f.journal, i);
    RemoveOne(Unanswered(f), i);
    assert Unanswered(f') == Unanswered(f) + {i};
  }

  lemma FetchedLightens(f: Follower, f': Follower, i: nat)
    requires i in f.claims && f.claims[i].None? && f'.journal == f.journal
    requires f'.claims.Keys == f.claims.Keys && f'.claims[i].Some?
    requires forall j :: j in f.claims && j != i ==> f'.claims[j] == f.claims[j]
    ensures WorkWeight(f') < WorkWeight(f)
  {
    RemoveOne(Unanswered(f), i);
    assert Unanswered(f') == Unanswered(f) - {i};
    assert |f'.claims| == |f'.claims.Keys| && |f.claims| == |f.claims.Keys|;
  }

  lemma AppliedLightens(f: Follower, f': Follower, i: nat)
    requires i in f.claims && f.claims[i].Some? && f'.journal == f.journal && f'.claims == f.claims - {i}
    ensures WorkWeight(f') < WorkWeight(f)
  {
    RemoveOne(f.claims.Keys, i);
    assert f'.claims.Keys == f.claims.Keys - {i} && Unanswered(f') == Unanswered(f);
    assert |f'.claims| == |f'.claims.Keys| && |f.claims| == |f.claims.Keys|;
  }

  lemma RefreshingLightens(f: Follower, q: Queues, db: Store, m: Move)
    requires Refreshes(f, m)
    ensures WorkWeight(Follow(f, q, db, m)) < WorkWeight(f)
  {
    var f' := Follow(f, q, db, m);
    match m
    case Claimed(i) => ClaimedLightens(f, f', i);
    case Fetched(i) => FetchedLightens(f, f', i);
    case Applied(i) => AppliedLightens(f, f', i);
  }

  lemma ArrivalWeighs(f: Follower, f': Follower, i: nat)
    requires f' == f.(journal := f.journal + {i})
    ensures WorkWeight(f') <= WorkWeight(f) + 3
  {
    RemoveOne(f.journal, i);
    assert Unanswered(f') == Unanswered(f);
  }

  lemma SuccessLightens(s: System, m: Move)
    requires Succeeds(s, m)
    ensures Weight(Advance(s, m)) < Weight(s)
    ensures Advance(s, m).world == s.world && Advance(s, m).follower.phase == s.follower.phase
  {
    var q, f, db := s.queues, s.follower, s.world.db;
    if Serves(q, db, m) {
      ServingLightens(q, db, m);
      if m.Arrived? { ArrivalWeighs(f, Follow(f, q, db, m), m.task.image); }
    } else {
      RefreshingLightens(f, q, db, m);
    }
  }

  // ----- as long as work is left, some step is possible -----

  lemma TaskStep(q: Queues, db: Store) returns (m: Move)
    requires q.invoke != {}
    ensures Serves(q, db, m)
  {
    var t :| t in q.invoke;
    m := if t in q.received then Answered(t) else if t in q.sent then Arrived(t) else Checked(t);
  }

  lemma NoticeStep(q: Queues, db: Store) returns (m: Move)
    requires q.dispatch != {}
    ensures Serves(q, db, m)
  {
    var n :| n in q.dispatch;
    if Read(q, n) {
      var answer :| (n, answer) in q.lookups;
      m := Dispatched(n, answer, true);
    } else {
      m := LookedUp(n);
    }
  }

  lemma WorkStep(f: Follower) returns (m: Move)
    requires f.phase.Following? && (f.journal != {} || f.claims != map[])
    ensures Refreshes(f, m)
  {
    if f.claims != map[] {
      var i :| i in f.claims;
      m := if f.claims[i].None? then Fetched(i) else Applied(i);
    } else {
      var i :| i in f.journal;
      m := Claimed(i);
    }
  }

  lemma SomeStep(s: System) returns (m: Move)
    requires s.follower.phase.Following? && !Quiet(s)
    ensures Succeeds(s, m)
  {
    if s.queues.unsent != {} {
      var n :| n in s.queues.unsent;
      m := Enqueued(n);
    } else if s.queues.dispatch != {} {
      m := NoticeStep(s.queues, s.world.db);
    } else if s.queues.invoke != {} {
      m := TaskStep(s.queues, s.world.db);
    } else {
      m := WorkStep(s.follower);
    }
  }

  // ----- runs -----

  ghost predicate AllSucceed(s: System, moves: seq<Move>)
    decreases |moves|
  {
    moves == [] || (Succeeds(s, moves[0]) && AllSucceed(Advance(s, moves[0]), moves[1..]))
  }

  lemma {:induction false} SuccessesLighten(s: System, moves: seq<Move>)
    requires AllSucceed(s, moves)
    ensures Weight(Play(s, moves)) + |moves| <= Weight(s)
    ensures Play(s, moves).world == s.world && Play(s, moves).follower.phase == s.follower.phase
    decreases |moves|
  {
    if moves != [] {
      SuccessLightens(s, moves[0]);
      SuccessesLighten(Advance(s, moves[0]), moves[1..]);
    }
  }

  /** Main result: whatever successful steps are taken, in whatever order, there are at most as many as the weight of
      the
      work; and whenever none is left to take, the replica is the catalogue. */
  lemma EveryRunCatchesUp(s: System, moves: seq<Move>)
    requires SystemInv(s) && s.follower.phase.Following? && AllSucceed(s, moves)
    ensures |moves| <= Weight(s) && Play(s, moves).world == s.world
    ensures (forall m :: !Succeeds(Play(s, moves), m)) ==> Play(s, moves).follower.replica == LiveView(s.world.db)
  {
    SuccessesLighten(s, moves);
    PlayKeepsInv(s, moves);
    if forall m :: !Succeeds(Play(s, moves), m) {
      if !Quiet(Play(s, moves)) {
        var m := SomeStep(Play(s, moves));
        assert false;
      }
      QuietIsCurrent(Play(s, moves));
    }
  }

  /** Such a run always exists. */
  lemma {:induction false} DrainPossible(s: System) returns (moves: seq<Move>)
    requires s.follower.phase.Following?
    ensures AllSucceed(s, moves) && Quiet(Play(s, moves)) && Play(s, moves).world == s.world
    decreases Weight(s)
  {
    if Quiet(s) {
      moves := [];
    } else {
      var m := SomeStep(s);
      SuccessLightens(s, m);
      var rest := DrainPossible(Advance(s, m));
      moves := [m] + rest;
      assert moves[1..] == rest;
    }
  }
}
