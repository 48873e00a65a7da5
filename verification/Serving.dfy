/** A request served without interruption, as one of the protocol's interleavings. */
module Serving {
  import opened Euclid
  import opened Records
  import opened Services
  import opened Evolution
  import opened Invariant
  import opened Preservation
  import opened Runs

  /** Serving the request without interruption leads from one database to the other. */
  ghost predicate Served(hypot: Hypot, a: DB, request: Request, b: DB, outcome: Outcome) {
    exists order :: Alone(hypot, a, Begin(a, request), order, 3) == (b, Finished(outcome))
  }

  lemma ServedAtOnce(hypot: Hypot, a: DB, request: Request, outcome: Outcome)
    requires Begin(a, request) == Finished(outcome)
    ensures Served(hypot, a, request, a, outcome)
  {
    hide Begin, Advance;
    assert Alone(hypot, a, Begin(a, request), [], 3) == (a, Finished(outcome));
  }

  lemma ServedInOne(hypot: Hypot, a: DB, request: Request, order: seq<nat>, b: DB, outcome: Outcome)
    requires Advance(hypot, a, Begin(a, request), order) == (b, Finished(outcome))
    ensures Served(hypot, a, request, b, outcome)
  {
    hide Begin, Advance;
    AloneStep(hypot, a, Begin(a, request), order, 3);
  }

  lemma ServedInTwo(hypot: Hypot, a: DB, request: Request, order: seq<nat>, m: DB, thread: Thread, b: DB, outcome: Outcome)
    requires Advance(hypot, a, Begin(a, request), order) == (m, thread)
    requires Advance(hypot, m, thread, order) == (b, Finished(outcome))
    ensures Served(hypot, a, request, b, outcome)
  {
    hide Begin, Advance;
    AloneStep(hypot, a, Begin(a, request), order, 3);
    AloneStep(hypot, m, thread, order, 2);
  }

  lemma ServedInThree(hypot: Hypot, a: DB, request: Request, order: seq<nat>, m: DB, thread: Thread,
                      n: DB, next: Thread, b: DB, outcome: Outcome)
    requires Advance(hypot, a, Begin(a, request), order) == (m, thread)
    requires Advance(hypot, m, thread, order) == (n, next)
    requires Advance(hypot, n, next, order) == (b, Finished(outcome))
    ensures Served(hypot, a, request, b, outcome)
  {
    hide Begin, Advance;
    AloneStep(hypot, a, Begin(a, request), order, 3);
    AloneStep(hypot, m, thread, order, 2);
    AloneStep(hypot, n, next, order, 1);
  }

  lemma ServedKeeps(hypot: Hypot, a: DB, request: Request, b: DB, outcome: Outcome)
    requires DbOk(hypot, a) && Served(hypot, a, request, b, outcome)
    ensures DbOk(hypot, b) && Evolves(a, b)
  {
    hide DbOk, ThreadOk, Evolves, Begin, Alone;
    var order :| Alone(hypot, a, Begin(a, request), order, 3) == (b, Finished(outcome));
    BeginOk(hypot, a, request);
    AloneKeeps(hypot, a, Begin(a, request), order, 3);
  }

  /** Serving a request without interruption is one of the interleavings of the protocol, whatever
      other requests are waiting. */
  lemma ServedIsRun(hypot: Hypot, s: System, u: nat, request: Request, b: DB, outcome: Outcome)
    requires u !in s.threads && Served(hypot, s.db, request, b, outcome)
    ensures exists order ::
              Exec(hypot, s, Serve(u, request, order, 3)) == System(b, s.threads[u := Finished(outcome)])
  {
    hide Begin, Alone, Exec, Serve;
    var order :| Alone(hypot, s.db, Begin(s.db, request), order, 3) == (b, Finished(outcome));
    ServeAlone(hypot, s, u, request, order, 3);
  }
}
