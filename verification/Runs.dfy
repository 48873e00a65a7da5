/** Lists of events: taking them apart, and serving a request without interruption inside them. */
module Runs {
  import opened Euclid
  import opened Records
  import opened Services
  import opened Evolution
  import opened Invariant
  import opened Preservation

  // ----- taking runs apart

  lemma OneEvent(hypot: Hypot, s: System, e: Event)
    ensures Exec(hypot, s, [e]) == Apply(hypot, s, e)
  {
    hide Apply;
    assert [e][..0] == [];
  }

  /** One event at the end of a run. */
  lemma Appended(hypot: Hypot, events: seq<Event>, e: Event)
    ensures Run(hypot, events + [e]) == Apply(hypot, Run(hypot, events), e)
    ensures (events + [e])[..|events|] == events && (events + [e])[..|events| + 1] == events + [e]
  {
    hide Apply;
    assert (events + [e])[..|events|] == events;
  }

  /** One event in the middle of a run. */
  lemma RunStep(hypot: Hypot, events: seq<Event>, i: nat)
    requires i < |events|
    ensures Run(hypot, events[..i + 1]) == Apply(hypot, Run(hypot, events[..i]), events[i])
  {
    hide Apply;
    assert events[..i + 1] == events[..i] + [events[i]];
    Appended(hypot, events[..i], events[i]);
  }

  lemma SplitRun(hypot: Hypot, events: seq<Event>, rest: seq<Event>)
    ensures Run(hypot, events + rest) == Exec(hypot, Run(hypot, events), rest)
  {
    ExecSplit(hypot, INITIAL, events, rest);
  }

  lemma Started(hypot: Hypot, s: System, u: nat, request: Request)
    requires u !in s.threads
    ensures Apply(hypot, s, Start(u, request)) == s.(threads := s.threads[u := Begin(s.db, request)])
  {
    hide Begin;
  }

  lemma {:induction false} AboveAll(keys: set<nat>) returns (bound: nat)
    ensures forall k :: k in keys ==> k < bound
  {
    if keys == {} {
      bound := 0;
    } else {
      var k :| k in keys;
      var others := AboveAll(keys - {k});
      bound := if others <= k then k + 1 else others;
      assert forall x :: x in keys ==> x == k || x in keys - {k};
    }
  }

  // ----- a request served alone

  /** A thread taking up to n steps with no other thread in between. */
  ghost function Alone(hypot: Hypot, db: DB, thread: Thread, order: seq<nat>, n: nat): (DB, Thread)
    decreases n
  {
    if n == 0 || thread.Finished? then (db, thread)
    else
      var next := Advance(hypot, db, thread, order);
      Alone(hypot, next.0, next.1, order, n - 1)
  }

  function Steps(u: nat, order: seq<nat>, n: nat): seq<Event> {
    seq(n, _ => Step(u, order))
  }

  /** The events of a request served by thread u without interruption. */
  function Serve(u: nat, request: Request, order: seq<nat>, n: nat): seq<Event> {
    [Start(u, request)] + Steps(u, order, n)
  }

  lemma FinishedStays(hypot: Hypot, db: DB, thread: Thread, order: seq<nat>)
    requires thread.Finished?
    ensures Advance(hypot, db, thread, order) == (db, thread)
  {
    hide StoreGap, StoreReplay, ReadRuns;
  }

  lemma AloneStep(hypot: Hypot, db: DB, thread: Thread, order: seq<nat>, n: nat)
    requires n > 0
    ensures var next := Advance(hypot, db, thread, order);
            Alone(hypot, db, thread, order, n) == Alone(hypot, next.0, next.1, order, n - 1)
  {
    hide Advance;
    if thread.Finished? {
      FinishedStays(hypot, db, thread, order);
    }
  }

  lemma AloneOnce(hypot: Hypot, db: DB, thread: Thread, order: seq<nat>)
    ensures Alone(hypot, db, thread, order, 1) == Advance(hypot, db, thread, order)
  {
    hide Advance;
    AloneStep(hypot, db, thread, order, 1);
  }

  lemma {:induction false} StepsAlone(hypot: Hypot, s: System, u: nat, order: seq<nat>, n: nat)
    requires u in s.threads
    ensures var next := Alone(hypot, s.db, s.threads[u], order, n);
            Exec(hypot, s, Steps(u, order, n)) == System(next.0, s.threads[u := next.1])
    decreases n
  {
    hide Advance;
    if n > 0 {
      var after := Apply(hypot, s, Step(u, order));
      AloneStep(hypot, s.db, s.threads[u], order, n);
      StepsAlone(hypot, after, u, order, n - 1);
      assert Steps(u, order, n) == [Step(u, order)] + Steps(u, order, n - 1);
      ExecSplit(hypot, s, [Step(u, order)], Steps(u, order, n - 1));
      OneEvent(hypot, s, Step(u, order));
    } else {
      assert s.threads[u := s.threads[u]] == s.threads;
    }
  }

  /** A new request served alone changes the database as its thread does, and no other thread. */
  lemma ServeAlone(hypot: Hypot, s: System, u: nat, request: Request, order: seq<nat>, n: nat)
    requires u !in s.threads
    ensures var next := Alone(hypot, s.db, Begin(s.db, request), order, n);
            Exec(hypot, s, Serve(u, request, order, n)) == System(next.0, s.threads[u := next.1])
  {
    hide Exec, Apply, Begin, Alone, Steps;
    var after := Apply(hypot, s, Start(u, request));
    Started(hypot, s, u, request);
    OneEvent(hypot, s, Start(u, request));
    ExecSplit(hypot, s, [Start(u, request)], Steps(u, order, n));
    StepsAlone(hypot, after, u, order, n);
  }

  lemma {:induction false} AloneKeeps(hypot: Hypot, db: DB, thread: Thread, order: seq<nat>, n: nat)
    requires DbOk(hypot, db) && ThreadOk(db, thread)
    ensures var next := Alone(hypot, db, thread, order, n);
            DbOk(hypot, next.0) && ThreadOk(next.0, next.1) && Evolves(db, next.0)
    decreases n
  {
    hide DbOk, ThreadOk, Evolves, Advance;
    EvolvesReflexive(db);
    if n > 0 && !thread.Finished? {
      AdvanceKeeps(hypot, db, thread, order);
      var next := Advance(hypot, db, thread, order);
      AloneKeeps(hypot, next.0, next.1, order, n - 1);
      EvolvesTransitive(db, next.0, Alone(hypot, next.0, next.1, order, n - 1).0);
    }
  }
}
