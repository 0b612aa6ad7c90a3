/** The periodic repair: each round picks at most 100 disagreeing images and has them synchronised. */
module Reconcile {
  import opened Catalog
  import opened IndexProtocol
  import opened IndexGuarantees
  import Keyset

  const BATCH: nat := 100

  function OutOfSync(db: Store): set<nat> {
    set i | i in db.images && NeedsIndex(db.images[i])
  }

  /** GetUnindexedImages: the first rows in id order; ids are positive. */
  function Batch(db: Store): seq<nat> {
    Keyset.Page(OutOfSync(db), 0, BATCH)
  }

  predicate IsIndexEvent(e: Event) {
    e.Scheduled? || e.Acquire? || e.Submit? || e.Process? || e.Confirm? || e.Commit? || e.Abandon?
  }

  /** A job on image i returns without error: it commits its marker, or finds nothing left to do. */
  predicate Finishes(w: World, e: Event, i: nat) {
    && i in w.locks
    && ((e == Commit(i) && w.locks[i].Confirmed?) || (e == Submit(i) && i !in Step(w, e).locks))
  }

  ghost predicate IndexWork(es: seq<Event>) {
    forall k :: 0 <= k < |es| ==> IsIndexEvent(es[k])
  }

  lemma IndexWorkAppends(a: seq<Event>, b: seq<Event>)
    requires IndexWork(a) && IndexWork(b)
    ensures IndexWork(a + b)
  {
  }

  /** Index events in any order, with failures and retries, in which every image of the batch is finished once. */
  ghost predicate Round(w: World, es: seq<Event>) {
    && IndexWork(es)
    && (forall i :: i in Batch(w.db) ==> FinishedIn(w, es, i))
  }

  ghost predicate FinishedIn(w: World, es: seq<Event>, i: nat) {
    exists k :: FinishedAt(w, es, i, k)
  }

  ghost predicate FinishedAt(w: World, es: seq<Event>, i: nat, k: int) {
    0 <= k < |es| && Finishes(Run(w, es[..k]), es[k], i)
  }

  lemma SkipSynchronises(w: World, i: nat)
    requires Inv(w) && i in w.locks && w.locks[i].Holding? && i !in Step(w, Submit(i)).locks
    ensures Step(w, Submit(i)).db == w.db && i in w.db.images && !NeedsIndex(w.db.images[i])
  {
    assert ImageInv(w.db, i);
    CurrentIsLast(w.db.firstNumber, w.db.nextVersion, w.db.images[i]);
  }

  lemma CommitSynchronises(w: World, i: nat)
    requires Inv(w) && i in w.locks && w.locks[i].Confirmed?
    ensures i in Step(w, Commit(i)).db.images && !NeedsIndex(Step(w, Commit(i)).db.images[i])
  {
    var db' := CommitStep(w, i);
    StepKeepsInv(w, Commit(i));
    QuerySelectsDisagreement(Step(w, Commit(i)), i);
  }

  lemma FinishSynchronises(w: World, e: Event, i: nat)
    requires Inv(w) && Finishes(w, e, i)
    ensures i in Step(w, e).db.images && !NeedsIndex(Step(w, e).db.images[i])
  {
    if e.Commit? { CommitSynchronises(w, i); } else { SkipSynchronises(w, i); }
  }

  lemma RowKeepsSync(db: Store, db': Store, i: nat)
    requires i in db.images && i in db'.images && db'.images == db.images[i := db'.images[i]]
    requires !NeedsIndex(db'.images[i])
    ensures OutOfSync(db') <= OutOfSync(db) - {i}
  {
  }

  lemma CommitKeepsSync(w: World, i: nat)
    requires Inv(w) && i in w.locks && w.locks[i].Confirmed?
    ensures var w' := Step(w, Commit(i));
      w'.db.images.Keys == w.db.images.Keys && OutOfSync(w'.db) <= OutOfSync(w.db) - {i}
  {
    CommitSynchronises(w, i);
    var db' := CommitStep(w, i);
    RowKeepsSync(w.db, db', i);
  }

  /** Index work on any image never takes another one out of agreement. */
  lemma IndexStepKeepsSync(w: World, e: Event)
    requires Inv(w) && IsIndexEvent(e)
    ensures Step(w, e).db.images.Keys == w.db.images.Keys
    ensures OutOfSync(Step(w, e).db) <= OutOfSync(w.db)
  {
    if e.Commit? && e.image in w.locks && w.locks[e.image].Confirmed? {
      CommitKeepsSync(w, e.image);
    } else {
      assert Step(w, e).db == w.db;
    }
  }

  lemma FinishedFirstOrLater(w: World, es: seq<Event>, i: nat)
    requires es != [] && FinishedIn(w, es, i)
    ensures Finishes(w, es[0], i) || FinishedIn(Step(w, es[0]), es[1..], i)
  {
    var k :| FinishedAt(w, es, i, k);
    if k > 0 {
      assert es[..k][1..] == es[1..][..k - 1];
      assert FinishedAt(Step(w, es[0]), es[1..], i, k - 1);
    } else {
      assert es[..0] == [];
    }
  }

  lemma {:induction false} IndexRunKeepsSync(w: World, es: seq<Event>)
    requires Inv(w) && IndexWork(es)
    ensures OutOfSync(Run(w, es).db) <= OutOfSync(w.db) && Run(w, es).db.images.Keys == w.db.images.Keys
    decreases |es|
  {
    if es != [] {
      StepKeepsInv(w, es[0]);
      IndexStepKeepsSync(w, es[0]);
      IndexRunKeepsSync(Step(w, es[0]), es[1..]);
    }
  }

  /** What has been finished stays in agreement. */
  lemma {:induction false} FinishedStaysInSync(w: World, es: seq<Event>, i: nat)
    requires Inv(w) && IndexWork(es) && FinishedIn(w, es, i)
    ensures i !in OutOfSync(Run(w, es).db)
    decreases |es|
  {
    StepKeepsInv(w, es[0]);
    FinishedFirstOrLater(w, es, i);
    if Finishes(w, es[0], i) {
      FinishSynchronises(w, es[0], i);
      IndexRunKeepsSync(Step(w, es[0]), es[1..]);
    } else {
      FinishedStaysInSync(Step(w, es[0]), es[1..], i);
    }
  }

  lemma SmallerBy(a: set<nat>, b: set<nat>, gone: seq<nat>)
    requires a <= b && Keyset.Ascending(gone) && forall x :: x in gone ==> x in b && x !in a
    ensures |a| + |gone| <= |b|
    decreases |gone|
  {
    if gone != [] {
      var x := gone[|gone| - 1];
      assert a <= b - {x};
      forall y | y in gone[..|gone| - 1] ensures y in b - {x} && y !in a { assert y in gone; }
      SmallerBy(a, b - {x}, gone[..|gone| - 1]);
    } else {
      assert a + (b - a) == b && |a + (b - a)| == |a| + |b - a|;
    }
  }

  lemma BatchIsOutOfSync(db: Store)
    requires StoreInv(db)
    ensures forall i :: i in Batch(db) ==> i in OutOfSync(db)
    ensures |Batch(db)| == if |OutOfSync(db)| < BATCH then |OutOfSync(db)| else BATCH
  {
    assert forall i :: i in db.images ==> ImageInv(db, i);
    assert Keyset.Above(OutOfSync(db), 0) == OutOfSync(db);
  }

  lemma BatchFinishes(w: World, es: seq<Event>)
    requires Inv(w) && Round(w, es)
    ensures forall i :: i in Batch(w.db) ==> i !in OutOfSync(Run(w, es).db)
  {
    forall i | i in Batch(w.db) ensures i !in OutOfSync(Run(w, es).db) { FinishedStaysInSync(w, es, i); }
  }

  /** One round with no edits removes at least min(100, n) of the n disagreeing images. */
  lemma RoundShrinks(w: World, es: seq<Event>)
    requires Inv(w) && Round(w, es)
    ensures var n := |OutOfSync(w.db)|;
      |OutOfSync(Run(w, es).db)| <= n - (if n < 100 then n else 100)
  {
    IndexRunKeepsSync(w, es);
    BatchFinishes(w, es);
    BatchIsOutOfSync(w.db);
    SmallerBy(OutOfSync(Run(w, es).db), OutOfSync(w.db), Batch(w.db));
  }

  ghost predicate Rounds(w: World, rounds: seq<seq<Event>>)
    decreases |rounds|
  {
    rounds == [] || (Round(w, rounds[0]) && Rounds(Run(w, rounds[0]), rounds[1..]))
  }

  ghost function AfterRounds(w: World, rounds: seq<seq<Event>>): World
    decreases |rounds|
  {
    if rounds == [] then w else AfterRounds(Run(w, rounds[0]), rounds[1..])
  }

  /** The index is the projection of the catalogue, and every write in flight leaves it so. */
  ghost predicate IndexIsProjection(w: World) {
    && |w.results| <= |w.log|
    && (forall i :: i in w.db.images ==> Agrees(w, i))
    && (forall i :: i !in w.db.images ==> Stored(w.log, w.results, i).None?)
  }

  lemma {:induction false} RoundsShrink(w: World, rounds: seq<seq<Event>>)
    requires Inv(w) && Rounds(w, rounds)
    ensures Inv(AfterRounds(w, rounds))
    ensures |OutOfSync(w.db)| <= BATCH * |rounds| ==> OutOfSync(AfterRounds(w, rounds).db) == {}
    decreases |rounds|
  {
    if rounds != [] {
      RunKeepsInv(w, rounds[0]);
      RoundShrinks(w, rounds[0]);
      RoundsShrink(Run(w, rounds[0]), rounds[1..]);
    }
  }

  /** Main result: ceil(n / 100) rounds without edits repair everything, whatever was lost or left in flight before. */
  lemma ReconcileConverges(w: World, rounds: seq<seq<Event>>)
    requires Inv(w) && Rounds(w, rounds) && |OutOfSync(w.db)| <= 100 * |rounds|
    ensures OutOfSync(AfterRounds(w, rounds).db) == {} && IndexIsProjection(AfterRounds(w, rounds))
  {
    var w' := AfterRounds(w, rounds);
    RoundsShrink(w, rounds);
    forall i | i in w'.db.images ensures Agrees(w', i) {
      assert i !in OutOfSync(w'.db);
      UnselectedAgrees(w', i);
    }
    forall i | i !in w'.db.images ensures Stored(w'.log, w'.results, i).None? {
      assert forall m :: 0 <= m < |w'.log| ==> WriteInv(w'.db.images, w'.log[m]);
      NeverStored(w'.log, w'.results, i);
    }
  }

  // ----- a round is always possible once no job holds a lock -----

  lemma {:induction false} RunAppend(w: World, a: seq<Event>, b: seq<Event>)
    ensures Run(w, a + b) == Run(Run(w, a), b)
    decreases |a|
  {
    if a == [] {
      assert a + b == b;
    } else {
      assert (a + b)[1..] == a[1..] + b;
      RunAppend(Step(w, a[0]), a[1..], b);
    }
  }

  function Trues(n: nat): seq<bool> {
    seq(n, _ => true)
  }

  function Acknowledgements(n: nat): seq<Event> {
    seq(n, _ => Process(true))
  }

  lemma {:induction false} AcknowledgeAll(w: World, n: nat)
    requires |w.results| + n == |w.log|
    ensures Run(w, Acknowledgements(n)) == w.(results := w.results + Trues(n))
    decreases n
  {
    if n == 0 {
      assert w.results + Trues(n) == w.results;
    } else {
      var w1 := Step(w, Process(true));
      assert Acknowledgements(n)[0] == Process(true) && Acknowledgements(n)[1..] == Acknowledgements(n - 1);
      AcknowledgeAll(w1, n - 1);
      assert w1.results + Trues(n - 1) == w.results + Trues(n);
    }
  }

  lemma RunThree(w: World, a: Event, b: Event, c: Event)
    ensures Run(w, [a, b, c]) == Step(Step(Step(w, a), b), c)
  {
    RunAppend(w, [a], [b, c]);
    RunAppend(Step(w, a), [b], [c]);
    assert [a] + [b, c] == [a, b, c] && [b] + [c] == [b, c];
  }

  lemma JobSubmits(w: World, i: nat, img: Image)
    requires i in w.db.images && w.db.images[i] == img && !Marked(img)
    requires w.locks == map[i := Holding(DesiredMarker(img))]
    ensures Step(w, Submit(i)) == Enqueue(w, i, Desired(i, img), DesiredMarker(img))
  {
  }

  lemma JobAcquires(w: World, i: nat)
    requires w.locks == map[] && i in w.db.images && NeedsIndex(w.db.images[i])
    ensures var marker := DesiredMarker(w.db.images[i]);
      Step(Step(w, Scheduled(i)), Acquire(i, marker))
        == w.(jobs := w.jobs + {(i, marker)}, locks := map[i := Holding(marker)])
  {
  }

  lemma JobOpens(w: World, i: nat, img: Image, held: World)
    requires Inv(w) && w.locks == map[] && i in w.db.images && w.db.images[i] == img && NeedsIndex(img)
    requires held == w.(jobs := w.jobs + {(i, DesiredMarker(img))}, locks := map[i := Holding(DesiredMarker(img))])
    ensures Run(w, [Scheduled(i), Acquire(i, DesiredMarker(img)), Submit(i)])
      == Enqueue(held, i, Desired(i, img), DesiredMarker(img))
  {
    QuerySelectsDisagreement(w, i);
    JobAcquires(w, i);
    JobSubmits(held, i, img);
    RunThree(w, Scheduled(i), Acquire(i, DesiredMarker(img)), Submit(i));
  }

  lemma ConfirmStep(w: World, i: nat, marker: nat, ticket: nat)
    requires w.locks == map[i := Waiting(marker, ticket)] && ticket < |w.results| && w.results[ticket]
    ensures Run(w, [Confirm(i)]) == w.(locks := map[i := Confirmed(marker, ticket)])
  {
    assert Run(w, [Confirm(i)]) == Step(w, Confirm(i));
  }

  lemma LastTrue(results: seq<bool>, n: nat)
    requires n > 0
    ensures |results + Trues(n)| == |results| + n && (results + Trues(n))[|results| + n - 1]
  {
  }

  lemma JobConfirms(w: World, i: nat, marker: nat, n: nat)
    requires |w.results| + n == |w.log| && n > 0 && w.locks == map[i := Waiting(marker, |w.log| - 1)]
    ensures var w' := Run(w, Acknowledgements(n) + [Confirm(i)]);
      w'.db == w.db && w'.locks == map[i := Confirmed(marker, |w.log| - 1)]
  {
    var w1 := w.(results := w.results + Trues(n));
    AcknowledgeAll(w, n);
    RunAppend(w, Acknowledgements(n), [Confirm(i)]);
    LastTrue(w.results, n);
    ConfirmStep(w1, i, marker, |w.log| - 1);
  }

  lemma JobIsIndexWork(i: nat, marker: nat, n: nat)
    ensures IndexWork([Scheduled(i), Acquire(i, marker), Submit(i)] + (Acknowledgements(n) + [Confirm(i)]))
  {
    IndexWorkAppends(Acknowledgements(n), [Confirm(i)]);
    IndexWorkAppends([Scheduled(i), Acquire(i, marker), Submit(i)], Acknowledgements(n) + [Confirm(i)]);
  }

  /** A job from its scheduling up to the acknowledgement of its write. */
  lemma JobFinishes(w: World, i: nat) returns (es: seq<Event>, marker: nat)
    requires Inv(w) && w.locks == map[] && i in w.db.images && NeedsIndex(w.db.images[i])
    ensures IndexWork(es) && Run(w, es).db == w.db && Run(w, es).locks == map[i := Confirmed(marker, |w.log|)]
  {
    marker := DesiredMarker(w.db.images[i]);
    var n := |w.log| + 1 - |w.results|;
    var opening, closing := [Scheduled(i), Acquire(i, marker), Submit(i)], Acknowledgements(n) + [Confirm(i)];
    JobIsIndexWork(i, marker, n);
    var held := w.(jobs := w.jobs + {(i, marker)}, locks := map[i := Holding(marker)]);
    JobOpens(w, i, w.db.images[i], held);
    var w1 := Enqueue(held, i, Desired(i, w.db.images[i]), marker);
    assert w1.locks == map[i := Waiting(marker, |w.log|)];
    JobConfirms(w1, i, marker, n);
    RunAppend(w, opening, closing);
    es := opening + closing;
  }

  lemma CommitReleases(w: World, i: nat) returns (w': World)
    requires Inv(w) && Finishes(w, Commit(i), i) && w.locks.Keys == {i}
    ensures w' == Run(w, [Commit(i)]) && w'.locks == map[] && i in w'.db.images && i in w.db.images
    ensures w'.db.images == w.db.images[i := w'.db.images[i]]
  {
    assert Run(w, [Commit(i)]) == Step(w, Commit(i));
    var db' := CommitStep(w, i);
    w' := w.(db := db', locks := w.locks - {i});
    assert (w.locks - {i}).Keys == {};
  }

  lemma FinishedLast(w: World, es: seq<Event>, e: Event, i: nat)
    requires Finishes(Run(w, es), e, i)
    ensures FinishedIn(w, es + [e], i)
  {
    assert (es + [e])[..|es|] == es;
    assert FinishedAt(w, es + [e], i, |es|);
  }

  lemma FinishOne(w: World, i: nat) returns (es: seq<Event>)
    requires Inv(w) && w.locks == map[] && i in w.db.images && NeedsIndex(w.db.images[i])
    ensures IndexWork(es) && FinishedIn(w, es, i)
    ensures Run(w, es).locks == map[]
    ensures forall j :: j in w.db.images && j != i ==>
      j in Run(w, es).db.images && Run(w, es).db.images[j] == w.db.images[j]
  {
    var opening, marker := JobFinishes(w, i);
    RunKeepsInv(w, opening);
    es := opening + [Commit(i)];
    IndexWorkAppends(opening, [Commit(i)]);
    var w' := CommitReleases(Run(w, opening), i);
    RunAppend(w, opening, [Commit(i)]);
    FinishedLast(w, opening, Commit(i), i);
  }

  lemma FinishedExtends(w: World, a: seq<Event>, b: seq<Event>, i: nat)
    ensures FinishedIn(w, a, i) ==> FinishedIn(w, a + b, i)
    ensures FinishedIn(Run(w, a), b, i) ==> FinishedIn(w, a + b, i)
  {
    if FinishedIn(w, a, i) {
      var k :| FinishedAt(w, a, i, k);
      assert (a + b)[..k] == a[..k];
      assert FinishedAt(w, a + b, i, k);
    }
    if FinishedIn(Run(w, a), b, i) {
      var k :| FinishedAt(Run(w, a), b, i, k);
      assert (a + b)[..|a| + k] == a + b[..k];
      RunAppend(w, a, b[..k]);
      assert FinishedAt(w, a + b, i, |a| + k);
    }
  }

  lemma AllFinished(w: World, job: seq<Event>, rest: seq<Event>, todo: seq<nat>)
    requires todo != [] && FinishedIn(w, job, todo[0])
    requires forall i :: i in todo[1..] ==> FinishedIn(Run(w, job), rest, i)
    ensures forall i :: i in todo ==> FinishedIn(w, job + rest, i)
  {
    forall i | i in todo ensures FinishedIn(w, job + rest, i) {
      FinishedExtends(w, job, rest, i);
      assert i == todo[0] || i in todo[1..];
    }
  }

  lemma {:induction false} FinishAll(w: World, todo: seq<nat>) returns (es: seq<Event>)
    requires Inv(w) && w.locks == map[] && Keyset.Ascending(todo)
    requires forall i :: i in todo ==> i in w.db.images && NeedsIndex(w.db.images[i])
    ensures IndexWork(es) && Run(w, es).locks == map[]
    ensures forall i :: i in todo ==> FinishedIn(w, es, i)
    decreases |todo|
  {
    if todo == [] {
      es := [];
    } else {
      var job := FinishOne(w, todo[0]);
      RunKeepsInv(w, job);
      forall j | j in todo[1..] ensures j in todo && j != todo[0] {}
      var rest := FinishAll(Run(w, job), todo[1..]);
      es := job + rest;
      IndexWorkAppends(job, rest);
      RunAppend(w, job, rest);
      AllFinished(w, job, rest, todo);
    }
  }

  /** From any reachable state without a running job there is a round: convergence is never out of reach. */
  lemma RoundExists(w: World)
    requires Inv(w) && w.locks == map[]
    ensures exists es :: Round(w, es) && Run(w, es).locks == map[]
  {
    var es := FinishAll(w, Batch(w.db));
    assert Round(w, es);
  }
}
