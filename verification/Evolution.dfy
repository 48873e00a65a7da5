/** How stored rows may change over time: relations that every operation keeps. */
module Evolution {
  import opened States
  import opened Records

  ghost predicate AreaEvolves(a: AreaRow, b: AreaRow) {
    && a.code == b.code
    && a.version <= b.version
    && (a.version == b.version ==> a == b)
  }

  /** Versions count the changes, and a locked plan stays locked. */
  ghost predicate PlanEvolves(a: PlanRow, b: PlanRow) {
    && a.area == b.area
    && a.version <= b.version
    && (a.version == b.version ==> a == b)
    && (a.state == LockedPlan ==> b.state == LockedPlan)
  }

  ghost predicate Usable(state: RunState) {
    state == Processed || state == Superseded
  }

  /** A run only moves forward, and what was imported never changes. */
  ghost predicate RunEvolves(a: RunRow, b: RunRow) {
    && a.data == b.data
    && (a == b || (a.version < b.version && a.state.Rank() < b.state.Rank()))
    && (Usable(a.state) ==> Usable(b.state))
  }

  /** A gap only moves forward, its explanation only grows at the end, and the two ways to close
      it are one step long. */
  ghost predicate GapEvolves(a: GapRow, b: GapRow) {
    && a.data == b.data
    && (a == b || (a.version < b.version && a.state.Rank() < b.state.Rank()))
    && a.explanation <= b.explanation
    && ((a.state == FalsePositive || a.state == Resurveyed) && a != b ==>
          b.state == Closed && b.version == a.version + 1)
  }

  ghost predicate AreasEvolve(a: DB, b: DB) {
    forall id :: id in a.areas ==> id in b.areas && AreaEvolves(a.areas[id], b.areas[id])
  }

  ghost predicate PlansEvolve(a: DB, b: DB) {
    forall id :: id in a.plans ==> id in b.plans && PlanEvolves(a.plans[id], b.plans[id])
  }

  ghost predicate RunsEvolve(a: DB, b: DB) {
    forall id :: id in a.runs ==> id in b.runs && RunEvolves(a.runs[id], b.runs[id])
  }

  ghost predicate GapsEvolve(a: DB, b: DB) {
    forall id :: id in a.gaps ==> id in b.gaps && GapEvolves(a.gaps[id], b.gaps[id])
  }

  ghost predicate ReplaysEvolve(a: DB, b: DB) {
    forall id :: id in a.replays ==> id in b.replays && a.replays[id] == b.replays[id]
  }

  /** Rows are never deleted, each evolves, and the audit log only grows. */
  ghost predicate Evolves(a: DB, b: DB) {
    && AreasEvolve(a, b) && PlansEvolve(a, b) && RunsEvolve(a, b) && GapsEvolve(a, b) && ReplaysEvolve(a, b)
    && a.audits <= b.audits
    && a.next <= b.next
  }

  lemma EvolvesReflexive(a: DB)
    ensures Evolves(a, a)
  {
  }

  lemma TablesStay(a: DB, b: DB)
    ensures a.areas == b.areas ==> AreasEvolve(a, b)
    ensures a.plans == b.plans ==> PlansEvolve(a, b)
    ensures a.runs == b.runs ==> RunsEvolve(a, b)
    ensures a.gaps == b.gaps ==> GapsEvolve(a, b)
    ensures a.replays == b.replays ==> ReplaysEvolve(a, b)
  {
  }

  lemma AreaEvolvesTransitive(a: AreaRow, b: AreaRow, c: AreaRow)
    requires AreaEvolves(a, b) && AreaEvolves(b, c)
    ensures AreaEvolves(a, c)
  {
  }

  lemma PlanEvolvesTransitive(a: PlanRow, b: PlanRow, c: PlanRow)
    requires PlanEvolves(a, b) && PlanEvolves(b, c)
    ensures PlanEvolves(a, c)
  {
  }

  lemma RunEvolvesTransitive(a: RunRow, b: RunRow, c: RunRow)
    requires RunEvolves(a, b) && RunEvolves(b, c)
    ensures RunEvolves(a, c)
  {
  }

  lemma GapEvolvesTransitive(a: GapRow, b: GapRow, c: GapRow)
    requires GapEvolves(a, b) && GapEvolves(b, c)
    ensures GapEvolves(a, c)
  {
    assert a.explanation <= b.explanation <= c.explanation;
  }

  lemma EvolvesTransitive(a: DB, b: DB, c: DB)
    requires Evolves(a, b) && Evolves(b, c)
    ensures Evolves(a, c)
  {
    hide AreaEvolves, PlanEvolves, RunEvolves, GapEvolves;
    forall id | id in a.areas ensures id in c.areas && AreaEvolves(a.areas[id], c.areas[id]) {
      AreaEvolvesTransitive(a.areas[id], b.areas[id], c.areas[id]);
    }
    forall id | id in a.plans ensures id in c.plans && PlanEvolves(a.plans[id], c.plans[id]) {
      PlanEvolvesTransitive(a.plans[id], b.plans[id], c.plans[id]);
    }
    forall id | id in a.runs ensures id in c.runs && RunEvolves(a.runs[id], c.runs[id]) {
      RunEvolvesTransitive(a.runs[id], b.runs[id], c.runs[id]);
    }
    forall id | id in a.gaps ensures id in c.gaps && GapEvolves(a.gaps[id], c.gaps[id]) {
      GapEvolvesTransitive(a.gaps[id], b.gaps[id], c.gaps[id]);
    }
  }
}
