/** The stored records and the atomic operations the repositories perform on them. */
module Records {
  import opened Options
  import opened Rings
  import opened Coverage
  import opened States
  import opened Replay
  import opened Text

  // ----- rows

  datatype AreaStatus = DraftArea | ActiveArea | ArchivedArea

  /** The columns of an area that an update overwrites. */
  datatype AreaFields = AreaFields(
    name: string, boundary: Polygon, resolution: real, crs: string,
    defaultSwath: real, ownerTeam: string, status: AreaStatus)

  datatype AreaRow = AreaRow(code: string, fields: AreaFields, version: nat)

  datatype PlanState = DraftPlan | LockedPlan

  datatype PlanFields = PlanFields(name: string, lines: seq<Line>, heading: real, swath: real, spacing: real)

  datatype PlanRow = PlanRow(area: nat, fields: PlanFields, state: PlanState, version: nat)

  /** The number of samples a track file claims to hold. */
  datatype Declared = Absent | Malformed | Claimed(count: real)

  /** What an import fixes for good: no operation rewrites it. `source` is the track as it was sent;
      `track` and `declared` are what parsing it gives. Times are in nanoseconds. */
  datatype RunData = RunData(
    plan: nat, code: string, source: string, track: seq<Line>, declared: Declared, swath: real,
    startedAt: int, endedAt: int, navigation: Navigation)

  /** The canonical input of the checksum of a run, the swath printed with three decimals. */
  datatype Checksum = Checksum(source: string, plan: nat, swathMillis: int, startedAt: int, endedAt: int)

  function ChecksumOf(data: RunData): Checksum {
    Checksum(data.source, data.plan, RoundHalfEven(data.swath * 1000.0), data.startedAt, data.endedAt)
  }

  datatype RunRow = RunRow(data: RunData, state: RunState, version: nat)

  /** The canonical input of the coverage hash; sorting the checksums makes them a multiset. */
  datatype CoverageKey = CoverageKey(
    area: nat, crs: string, algorithm: string, checksums: multiset<Checksum>, resolution: real)

  /** What a detection fixes for good. `analysed` is the boundary the analysis read: it is not a
      stored column, and the key leaves it out too. */
  datatype GapData = GapData(
    sourceRuns: seq<nat>, key: CoverageKey, result: CoverageResult, severity: Severity, analysed: Polygon)

  /** The explanation holds the figures of the analysis, then one marked note per review. */
  datatype GapRow = GapRow(data: GapData, state: GapState, explanation: string, version: nat)

  /** The canonical input of the replay hash. */
  datatype ReplayKey = ReplayKey(checksum: Checksum, algorithm: string, params: Params, expected: int)

  datatype ReplayRow = ReplayRow(run: nat, key: ReplayKey, snapshot: Snapshot)

  /** An audit entry of a gap review. */
  datatype AuditRow = AuditRow(gap: nat, before: GapRow, after: GapRow)

  datatype DB = DB(
    areas: map<nat, AreaRow>, plans: map<nat, PlanRow>, runs: map<nat, RunRow>,
    gaps: map<nat, GapRow>, replays: map<nat, ReplayRow>, audits: seq<AuditRow>, next: nat)

  const EMPTY := DB(map[], map[], map[], map[], map[], [], 1)

  // ----- conditional updates: none when no row has the expected version (and state)

  function UpdateArea(db: DB, id: nat, expected: nat, fields: AreaFields): Option<DB> {
    if id in db.areas && db.areas[id].version == expected
    then Some(db.(areas := db.areas[id := db.areas[id].(fields := fields, version := expected + 1)]))
    else None
  }

  function UpdatePlan(db: DB, id: nat, expected: nat, fields: PlanFields): Option<DB> {
    if id in db.plans && db.plans[id].version == expected
    then Some(db.(plans := db.plans[id := db.plans[id].(fields := fields, version := expected + 1)]))
    else None
  }

  function MovePlan(db: DB, id: nat, expected: nat, from: PlanState, to: PlanState): Option<DB> {
    if id in db.plans && db.plans[id].version == expected && db.plans[id].state == from
    then Some(db.(plans := db.plans[id := db.plans[id].(state := to, version := expected + 1)]))
    else None
  }

  function MoveRun(db: DB, id: nat, expected: nat, from: RunState, to: RunState): Option<DB> {
    if id in db.runs && db.runs[id].version == expected && db.runs[id].state == from
    then Some(db.(runs := db.runs[id := db.runs[id].(state := to, version := expected + 1)]))
    else None
  }

  predicate GapMatches(db: DB, id: nat, expected: nat, from: GapState) {
    id in db.gaps && db.gaps[id].version == expected && db.gaps[id].state == from
  }

  /** Also none when the explanation does not fit its column. */
  function MoveGap(db: DB, id: nat, expected: nat, from: GapState, to: GapState, explanation: string): Option<DB> {
    if GapMatches(db, id, expected, from) && |explanation| <= MAX_EXPLANATION
    then Some(db.(gaps := db.gaps[id := db.gaps[id].(state := to, explanation := explanation, version := expected + 1)]))
    else None
  }

  // ----- inserts: none when a unique column is already taken or a text does not fit

  function InsertArea(db: DB, row: AreaRow): Option<DB> {
    if exists id :: id in db.areas && db.areas[id].code == row.code then None
    else Some(db.(areas := db.areas[db.next := row], next := db.next + 1))
  }

  function InsertPlan(db: DB, row: PlanRow): Option<DB> {
    if |row.fields.name| > MAX_NAME then None
    else Some(db.(plans := db.plans[db.next := row], next := db.next + 1))
  }

  function InsertRun(db: DB, row: RunRow): Option<DB> {
    if exists id :: id in db.runs && (ChecksumOf(db.runs[id].data) == ChecksumOf(row.data) || db.runs[id].data.code == row.data.code)
    then None
    else Some(db.(runs := db.runs[db.next := row], next := db.next + 1))
  }

  function InsertGap(db: DB, row: GapRow): Option<DB> {
    if (exists id :: id in db.gaps && db.gaps[id].data.key == row.data.key) || |row.explanation| > MAX_EXPLANATION then None
    else Some(db.(gaps := db.gaps[db.next := row], next := db.next + 1))
  }

  function InsertReplay(db: DB, row: ReplayRow): Option<DB> {
    if exists id :: id in db.replays && db.replays[id].key == row.key then None
    else Some(db.(replays := db.replays[db.next := row], next := db.next + 1))
  }

  // ----- lookups by a unique column

  ghost function RunByChecksum(db: DB, checksum: Checksum): Option<nat> {
    if id :| id in db.runs && ChecksumOf(db.runs[id].data) == checksum then Some(id) else None
  }

  ghost function GapByKey(db: DB, key: CoverageKey): Option<nat> {
    if id :| id in db.gaps && db.gaps[id].data.key == key then Some(id) else None
  }

  ghost function ReplayByKey(db: DB, key: ReplayKey): Option<nat> {
    if id :| id in db.replays && db.replays[id].key == key then Some(id) else None
  }
}
