/** Retirement, data wipe, disposal and reactivation of assets, as split between the API and the
    agent gateway: what each command checks, in which order, and what it changes. */
module AssetLifecycle {
  import opened Wrappers
  import opened JsonText
  import opened Approvals

  type Id = Text

  datatype LifecycleState =
    | Planned | Purchased | Received | Available | Reserved | Assigned | InUse | Repair | Returned | Retired | Disposed

  datatype Asset = Asset(state: LifecycleState, unassigned: bool, version: int)

  datatype RetirementState = Candidate | Blocked | Completed

  datatype Retirement = Retirement(asset: Id, state: RetirementState, version: int)

  datatype WipeMethod = CryptographicErase | NistClear | NistPurge | PhysicalDestruction

  datatype WipeResult = Pass | Fail | NotApplicable | PhysicalDestructionRequired

  datatype Evidence = Evidence(document: Text, storageRef: Text, checksum: Text)

  datatype JobState = JobQueued | JobClaimed | JobCompleted | JobFailed

  datatype WipeJob = WipeJob(
    id: Id, asset: Id, retirement: Id, agent: Id, state: JobState, means: WipeMethod, generation: nat,
    approval: Id, version: int, result: Option<WipeResult>, evidence: Option<Evidence>, reportKey: Option<Text>)

  datatype OperationState = OpQueued | OpRunning | OpWaiting | OpSucceeded | OpFailed | OpCancelled

  datatype Operation = Operation(state: OperationState, version: int)

  datatype DisposalMethod = ReuseInternal | Sell | Recycle | ReturnVendor | Donate | Destroy

  datatype Disposal = Disposal(id: Id, asset: Id, retirement: Id, means: DisposalMethod, approval: Id)

  /** The tables; `jobs` and `disposals` in order of creation. */
  datatype World = World(
    assets: map<Id, Asset>, retirements: map<Id, Retirement>, jobs: seq<WipeJob>,
    operations: map<Id, Operation>, disposals: seq<Disposal>)

  datatype Error = Invalid | NotFound | RuleViolation | VersionConflict | InProgress | Unavailable | DatabaseConflict

  // ----- Approval requests -----

  datatype Source = AssetRetirement | DataWipe | AssetDisposal

  datatype Sourced = Sourced(source: Source, sourceId: Id, request: Request)

  type ApprovalTable = map<Id, Sourced>

  function ApprovalFor(approvals: ApprovalTable, id: Id, source: Source, sourceId: Id): Option<Request> {
    if id in approvals && approvals[id].source == source && approvals[id].sourceId == sourceId
    then Some(approvals[id].request) else None
  }

  function Ascii(s: string): Text {
    seq(|s|, i requires 0 <= i < |s| => if s[i] as int < 128 then s[i] as int else 0)
  }

  function Entry(key: string, value: Json): Field {
    Field(Ascii(key), value)
  }

  function WipeName(m: WipeMethod): Json {
    match m
    case CryptographicErase => String(Ascii("CRYPTOGRAPHIC_ERASE"))
    case NistClear => String(Ascii("NIST_CLEAR"))
    case NistPurge => String(Ascii("NIST_PURGE"))
    case PhysicalDestruction => String(Ascii("PHYSICAL_DESTRUCTION"))
  }

  function DisposalName(m: DisposalMethod): Json {
    match m
    case ReuseInternal => String(Ascii("REUSE_INTERNAL"))
    case Sell => String(Ascii("SELL"))
    case Recycle => String(Ascii("RECYCLE"))
    case ReturnVendor => String(Ascii("RETURN_VENDOR"))
    case Donate => String(Ascii("DONATE"))
    case Destroy => String(Ascii("DESTROY"))
  }

  predicate Whitespace(c: CodeUnit) {
    || 9 <= c <= 13 || c == 32 || c == 160 || c == 0x1680 || 0x2000 <= c <= 0x200a || c == 0x2028 || c == 0x2029
    || c == 0x202f || c == 0x205f || c == 0x3000 || c == 0xfeff
  }

  /** Empty after trimming. */
  predicate Blank(t: Text) {
    forall i | 0 <= i < |t| :: Whitespace(t[i])
  }

  function Trim(t: Text): Text {
    if t == [] then []
    else if Whitespace(t[0]) then Trim(t[1..])
    else if Whitespace(t[|t| - 1]) then Trim(t[..|t| - 1])
    else t
  }

  /** What the tables accept as a SHA-256 checksum. */
  predicate Sha256(t: Text) {
    |t| == 64 && forall i | 0 <= i < 64 :: 48 <= t[i] <= 57 || 65 <= t[i] <= 70 || 97 <= t[i] <= 102
  }

  /** Clearances as the commands read them: anything but an object or a list counts as `{}`. */
  function References(body: Option<Json>): Json {
    match body
    case Some(v) => if v.Object? || v.Array? then v else Object([])
    case None => Object([])
  }

  predicate Cleared(references: Json, key: string) {
    references.Object? &&
    match Lookup(references.fields, Ascii(key))
    case Some(v) => v.String? && !Blank(v.s)
    case None => false
  }

  // ----- Retirement candidates -----

  predicate OpenRetirement(retirements: map<Id, Retirement>, asset: Id) {
    exists r | r in retirements :: retirements[r].asset == asset && retirements[r].state != Completed
  }

  function CreateCandidate(w: World, asset: Id, record: Id): Result<World, Error> {
    if asset !in w.assets then Err(NotFound)
    else
      var a := w.assets[asset];
      if !(a.state in {Available, Returned, Repair, Assigned, InUse}) then Err(RuleViolation)
      else if OpenRetirement(w.retirements, asset) || record in w.retirements then Err(DatabaseConflict)
      else
        var state := if !a.unassigned || a.state in {Assigned, InUse} then Blocked else Candidate;
        Ok(w.(retirements := w.retirements[record := Retirement(asset, state, 1)]))
  }

  // ----- Retirement -----

  datatype RetireCommand = RetireCommand(
    asset: Id, record: Id, approval: Id, recordVersion: Option<int>, version: int, clearances: Option<Json>)

  /** What other modules know about an asset. */
  datatype Facts = Facts(licensed: bool, inMaintenance: bool, inIncident: bool)

  predicate RetirementCleared(references: Json) {
    && Cleared(references, "legal_hold") && Cleared(references, "retention")
    && Cleared(references, "financial") && Cleared(references, "incident")
  }

  predicate RetirementBlocked(a: Asset, facts: Facts, references: Json) {
    !a.unassigned || facts.licensed || facts.inMaintenance || facts.inIncident || !RetirementCleared(references)
  }

  /** What an approval of a retirement has to have recorded. */
  function RetireTerms(c: RetireCommand): seq<Field> {
    [Entry("asset_id", String(c.asset)), Entry("clearances", References(c.clearances))]
  }

  /** Why a retirement is refused before anything is looked at that may block it. */
  function RetireRefusal(w: World, approvals: ApprovalTable, c: RetireCommand): (e: Option<Error>)
    ensures e == None ==> c.record in w.retirements && c.asset in w.assets
  {
    if c.record !in w.retirements || w.retirements[c.record].asset != c.asset then Some(NotFound)
    else
      var record := w.retirements[c.record];
      if record.state == Completed then Some(RuleViolation)
      else if c.recordVersion == None then Some(Invalid)
      else if record.version != c.recordVersion.value then Some(VersionConflict)
      else if c.asset !in w.assets then Some(NotFound)
      else if w.assets[c.asset].version != c.version then Some(VersionConflict)
      else if AssertApproval(ApprovalFor(approvals, c.approval, AssetRetirement, c.record), RetireTerms(c)).Some?
      then Some(RuleViolation)
      else None
  }

  function Retire(w: World, approvals: ApprovalTable, c: RetireCommand, facts: Facts): Result<World, Error> {
    match RetireRefusal(w, approvals, c)
    case Some(e) => Err(e)
    case None =>
      var a, version := w.assets[c.asset], w.retirements[c.record].version + 1;
      if RetirementBlocked(a, facts, References(c.clearances)) then
        Ok(w.(retirements := w.retirements[c.record := Retirement(c.asset, Blocked, version)]))
      else if !(a.state in {Available, Returned, Repair}) then Err(RuleViolation)
      else
        Ok(w.(assets := w.assets[c.asset := a.(state := Retired, version := a.version + 1)],
              retirements := w.retirements[c.record := Retirement(c.asset, Completed, version)]))
  }

  // ----- Data wipe -----

  datatype WipeCommand = WipeCommand(asset: Id, record: Id, approval: Id, means: WipeMethod, version: int, job: Id)

  /** The job of an asset with the highest generation. */
  function Latest(jobs: seq<WipeJob>, asset: Id): Option<WipeJob> {
    if jobs == [] then None
    else
      var n := |jobs| - 1;
      var before := Latest(jobs[..n], asset);
      if jobs[n].asset == asset && (before == None || before.value.generation < jobs[n].generation)
      then Some(jobs[n]) else before
  }

  predicate CompletedFor(retirements: map<Id, Retirement>, asset: Id, record: Id) {
    record in retirements && retirements[record].asset == asset && retirements[record].state == Completed
  }

  /** The row that a query for completed retirements of an asset returns first, if any. */
  ghost predicate FirstCompleted(retirements: map<Id, Retirement>, asset: Id, row: Option<Id>) {
    match row
    case Some(r) => CompletedFor(retirements, asset, r)
    case None => forall r :: !CompletedFor(retirements, asset, r)
  }

  /** Why another wipe may not follow the latest one. */
  function RepeatRefusal(prior: Option<WipeJob>, means: WipeMethod, approval: Id): Option<Error> {
    match prior
    case None => None
    case Some(job) =>
      if job.state == JobQueued || job.state == JobClaimed then Some(InProgress)
      else if job.state == JobCompleted then Some(RuleViolation)
      else if job.means == means || job.approval == approval then Some(RuleViolation)
      else None
  }

  predicate JobExists(jobs: seq<WipeJob>, id: Id) {
    exists i | 0 <= i < |jobs| :: jobs[i].id == id
  }

  function NextGeneration(prior: Option<WipeJob>): nat {
    if prior == None then 1 else prior.value.generation + 1
  }

  function NewJob(c: WipeCommand, agent: Id, generation: nat): WipeJob {
    WipeJob(c.job, c.asset, c.record, agent, JobQueued, c.means, generation, c.approval, 1, None, None, None)
  }

  function WipeTerms(c: WipeCommand): seq<Field> {
    [Entry("asset_id", String(c.asset)), Entry("retirement_record_id", String(c.record)),
     Entry("method", WipeName(c.means))]
  }

  /** Why a wipe is refused whatever was wiped before. */
  function WipeRefusal(w: World, approvals: ApprovalTable, c: WipeCommand, firstRow: Option<Id>, agent: Option<Id>)
    : (e: Option<Error>)
    ensures e == None ==> agent.Some?
  {
    if c.asset !in w.assets || w.assets[c.asset].state != Retired then Some(RuleViolation)
    else if w.assets[c.asset].version != c.version then Some(VersionConflict)
    else if firstRow != Some(c.record) then Some(RuleViolation)
    else if AssertApproval(ApprovalFor(approvals, c.approval, DataWipe, c.record), WipeTerms(c)).Some?
    then Some(RuleViolation)
    else if agent == None then Some(Unavailable)
    else None
  }

  function StartWipe(w: World, approvals: ApprovalTable, c: WipeCommand, firstRow: Option<Id>, agent: Option<Id>)
    : Result<World, Error>
  {
    match WipeRefusal(w, approvals, c, firstRow, agent)
    case Some(e) => Err(e)
    case None =>
      var prior := Latest(w.jobs, c.asset);
      match RepeatRefusal(prior, c.means, c.approval)
      case Some(e) => Err(e)
      case None =>
        if JobExists(w.jobs, c.job) || c.job in w.operations then Err(DatabaseConflict)
        else
          var job := NewJob(c, agent.value, NextGeneration(prior));
          Ok(w.(jobs := w.jobs + [job], operations := w.operations[c.job := Operation(OpQueued, 1)]))
  }

  /** `OperationRegistry.transition`: only along the allowed edges, and only from the state and
      version the caller saw. */
  function Transition(operations: map<Id, Operation>, id: Id, version: int, from: OperationState, to: OperationState)
    : Option<map<Id, Operation>>
  {
    if !Edge(from, to) || id !in operations || operations[id] != Operation(from, version) then None
    else Some(operations[id := Operation(to, version + 1)])
  }

  predicate Edge(from: OperationState, to: OperationState) {
    match from
    case OpQueued => to == OpRunning || to == OpCancelled
    case OpRunning => to == OpWaiting || to == OpSucceeded || to == OpFailed || to == OpCancelled
    case OpWaiting => to == OpRunning || to == OpFailed || to == OpCancelled
    case _ => false
  }

  predicate CanClaim(job: WipeJob, agent: Id, methods: set<WipeMethod>, locked: set<Id>) {
    job.agent == agent && job.state == JobQueued && job.means in methods && job.id !in locked
  }

  /** The oldest queued job that the agent can do and nobody else has locked, if there is one. */
  function Claimable(jobs: seq<WipeJob>, agent: Id, methods: set<WipeMethod>, locked: set<Id>): (i: nat)
    ensures i <= |jobs| && (i < |jobs| ==> CanClaim(jobs[i], agent, methods, locked))
    ensures forall k | 0 <= k < i :: !CanClaim(jobs[k], agent, methods, locked)
  {
    if jobs == [] || CanClaim(jobs[0], agent, methods, locked) then 0
    else 1 + Claimable(jobs[1..], agent, methods, locked)
  }

  function Claim(w: World, agent: Id, methods: set<WipeMethod>, locked: set<Id>): Result<World, Error> {
    var i := Claimable(w.jobs, agent, methods, locked);
    if i == |w.jobs| then Ok(w)
    else
      var job := w.jobs[i];
      match Transition(w.operations, job.id, 1, OpQueued, OpRunning)
      case None => Err(VersionConflict)
      case Some(operations) =>
        Ok(w.(jobs := w.jobs[i := job.(state := JobClaimed, version := job.version + 1)], operations := operations))
  }

  // ----- Wipe reports -----

  function Lower(t: Text): Text {
    seq(|t|, i requires 0 <= i < |t| => if 65 <= t[i] <= 90 then t[i] + 32 else t[i])
  }

  /** Evidence that was found in the object store under the checksum it was reported with. */
  predicate Verified(storage: map<Text, Text>, e: Evidence) {
    !Blank(e.document) && e.storageRef in storage && storage[e.storageRef] == e.checksum
  }

  predicate Bound(jobs: seq<WipeJob>, agent: Id, job: Id) {
    exists i | 0 <= i < |jobs| :: jobs[i].id == job && jobs[i].agent == agent && jobs[i].state == JobClaimed
  }

  /** The check made before the reporting transaction, for every result but `FAIL`. */
  function VerifyEvidence(w: World, storage: map<Text, Text>, agent: Id, job: Id, outcome: Option<WipeResult>,
                          document: Option<Text>, storageRef: Option<Text>, checksum: Option<Text>)
    : (r: Result<Option<Evidence>, Error>)
    ensures r.Ok? ==> (r.value == None <==> outcome == Some(Fail))
    ensures r.Ok? && r.value.Some? ==> Verified(storage, r.value.value)
  {
    if outcome == Some(Fail) then Ok(None)
    else if !Bound(w.jobs, agent, job) then Err(NotFound)
    else if document == None || Blank(document.value) || storageRef == None || Blank(storageRef.value)
            || checksum == None || Blank(checksum.value) then Err(Invalid)
    else if storageRef.value !in storage || Lower(storage[storageRef.value]) != Lower(checksum.value)
    then Err(RuleViolation)
    else Ok(Some(Evidence(document.value, storageRef.value, storage[storageRef.value])))
  }

  function JobIndex(jobs: seq<WipeJob>, agent: Id, id: Id): (i: nat)
    ensures i <= |jobs| && (i < |jobs| ==> jobs[i].id == id && jobs[i].agent == agent)
  {
    if jobs == [] || (jobs[0].id == id && jobs[0].agent == agent) then 0 else 1 + JobIndex(jobs[1..], agent, id)
  }

  /** What the table demands of a reported row beside the others: a key that the agent has not used
      for another job, and a document with a SHA-256 checksum behind a completed wipe. */
  predicate RowAccepted(jobs: seq<WipeJob>, i: nat, done: WipeJob) {
    && (forall k | 0 <= k < |jobs| && k != i && jobs[k].agent == done.agent :: jobs[k].reportKey != done.reportKey)
    && (done.state == JobCompleted ==> done.evidence.Some? && Sha256(done.evidence.value.checksum))
  }

  function Reported(job: WipeJob, outcome: WipeResult, evidence: Option<Evidence>, key: Text): WipeJob {
    job.(state := if outcome == Fail then JobFailed else JobCompleted, version := job.version + 1,
         result := Some(outcome), evidence := evidence, reportKey := Some(key))
  }

  /** Why a report is refused before the job is written. */
  function ReportRefusal(jobs: seq<WipeJob>, agent: Id, id: Id, version: Option<int>, outcome: Option<WipeResult>)
    : (e: Option<Error>)
    ensures e == None ==> JobIndex(jobs, agent, id) < |jobs| && outcome.Some?
  {
    var i := JobIndex(jobs, agent, id);
    if i == |jobs| then Some(NotFound)
    else if jobs[i].state != JobClaimed then Some(RuleViolation)
    else if version == None then Some(Invalid)
    else if jobs[i].version != version.value then Some(VersionConflict)
    else if outcome == None then Some(Invalid)
    else None
  }

  function Report(w: World, agent: Id, id: Id, version: Option<int>, outcome: Option<WipeResult>,
                  evidence: Option<Evidence>, key: Text): Result<World, Error>
  {
    match ReportRefusal(w.jobs, agent, id, version, outcome)
    case Some(e) => Err(e)
    case None =>
      var i := JobIndex(w.jobs, agent, id);
      var done := Reported(w.jobs[i], outcome.value, evidence, key);
      if !RowAccepted(w.jobs, i, done) then Err(DatabaseConflict)
      else if id !in w.operations || w.operations[id].state != OpRunning then Err(VersionConflict)
      else
        var to := if outcome.value == Fail then OpFailed else OpSucceeded;
        match Transition(w.operations, id, w.operations[id].version, OpRunning, to)
        case None => Err(VersionConflict)
        case Some(operations) => Ok(w.(jobs := w.jobs[i := done], operations := operations))
  }

  // ----- Disposal and reactivation -----

  datatype DisposeCommand = DisposeCommand(
    asset: Id, record: Id, approval: Id, means: DisposalMethod, version: int, clearances: Option<Json>,
    destructionConfirmed: bool, dispositionConfirmed: bool, evidence: Text, checksum: Text, id: Id)

  /** The latest job was completed, passed, and carries its evidence. */
  predicate WipeProven(jobs: seq<WipeJob>, asset: Id) {
    match Latest(jobs, asset)
    case None => false
    case Some(job) =>
      && job.state == JobCompleted && job.result == Some(Pass)
      && job.evidence.Some? && job.evidence.value.document != [] && job.evidence.value.checksum != []
  }

  predicate DisposalExists(disposals: seq<Disposal>, id: Id) {
    exists i | 0 <= i < |disposals| :: disposals[i].id == id
  }

  function DisposeTerms(c: DisposeCommand): seq<Field> {
    [Entry("asset_id", String(c.asset)), Entry("retirement_record_id", String(c.record)),
     Entry("method", DisposalName(c.means)), Entry("cleanup_clearances", References(c.clearances))]
  }

  /** Why a disposition is refused, by a rule or by the tables. */
  function DisposeRefusal(w: World, approvals: ApprovalTable, c: DisposeCommand, licensed: bool): (e: Option<Error>)
    ensures e == None ==> c.asset in w.assets
  {
    if c.asset !in w.assets || w.assets[c.asset].state != Retired then Some(RuleViolation)
    else if w.assets[c.asset].version != c.version then Some(VersionConflict)
    else if !CompletedFor(w.retirements, c.asset, c.record) then Some(NotFound)
    else
      var references := References(c.clearances);
      if AssertApproval(ApprovalFor(approvals, c.approval, AssetDisposal, c.record), DisposeTerms(c)).Some?
      then Some(RuleViolation)
      else if c.means != Destroy && !WipeProven(w.jobs, c.asset) then Some(RuleViolation)
      else if c.means == Destroy && !c.destructionConfirmed then Some(RuleViolation)
      else if licensed then Some(RuleViolation)
      else if !Cleared(references, "access") || !Cleared(references, "agent") then Some(RuleViolation)
      else if c.means != ReuseInternal && !c.dispositionConfirmed then Some(RuleViolation)
      else if c.means != ReuseInternal && (Blank(c.evidence) || Blank(c.checksum)) then Some(Invalid)
      else if DisposalExists(w.disposals, c.id) then Some(DatabaseConflict)
      else if c.means != ReuseInternal && !Sha256(Trim(c.checksum)) then Some(DatabaseConflict)
      else None
  }

  /** A disposition is recorded, and the asset is disposed of unless it is reused. */
  function Deciding(w: World, c: DisposeCommand): World
    requires c.asset in w.assets
  {
    var a := w.assets[c.asset];
    w.(disposals := w.disposals + [Disposal(c.id, c.asset, c.record, c.means, c.approval)],
       assets := if c.means == ReuseInternal then w.assets
                 else w.assets[c.asset := a.(state := Disposed, version := a.version + 1)])
  }

  function Dispose(w: World, approvals: ApprovalTable, c: DisposeCommand, licensed: bool): Result<World, Error> {
    match DisposeRefusal(w, approvals, c, licensed)
    case Some(e) => Err(e)
    case None => Ok(Deciding(w, c))
  }

  predicate ReuseOf(d: Disposal, approvals: ApprovalTable, asset: Id) {
    && d.asset == asset && d.means == ReuseInternal
    && d.approval in approvals && approvals[d.approval].source == AssetDisposal
  }

  /** Row `k` is the newest decision that an asset be reused internally. */
  predicate NewestReuse(disposals: seq<Disposal>, approvals: ApprovalTable, asset: Id, k: nat) {
    && k < |disposals| && ReuseOf(disposals[k], approvals, asset)
    && forall i | k < i < |disposals| :: !ReuseOf(disposals[i], approvals, asset)
  }

  /** The newest internal-reuse decision about an asset, if there is any. */
  function LatestReuse(disposals: seq<Disposal>, approvals: ApprovalTable, asset: Id): (r: Option<Disposal>)
    ensures r == None <==> forall i | 0 <= i < |disposals| :: !ReuseOf(disposals[i], approvals, asset)
    ensures r.Some? ==>
              exists k | 0 <= k < |disposals| :: disposals[k] == r.value && NewestReuse(disposals, approvals, asset, k)
  {
    if disposals == [] then None
    else
      var n := |disposals| - 1;
      if ReuseOf(disposals[n], approvals, asset) then
        assert NewestReuse(disposals, approvals, asset, n);
        Some(disposals[n])
      else LatestReuse(disposals[..n], approvals, asset)
  }

  datatype ReactivateCommand = ReactivateCommand(asset: Id, version: int, evidence: Text, checksum: Text)

  function ReuseTerms(a: Id): seq<Field> {
    [Entry("asset_id", String(a)), Entry("method", DisposalName(ReuseInternal))]
  }

  function Reactivate(w: World, approvals: ApprovalTable, c: ReactivateCommand): Result<World, Error> {
    if c.asset !in w.assets || w.assets[c.asset].state != Retired then Err(RuleViolation)
    else if w.assets[c.asset].version != c.version then Err(VersionConflict)
    else
      match LatestReuse(w.disposals, approvals, c.asset)
      case None => Err(RuleViolation)
      case Some(d) =>
        if AssertApproval(Some(approvals[d.approval].request), ReuseTerms(c.asset)).Some? then Err(RuleViolation)
        else if Blank(c.evidence) || Blank(c.checksum) then Err(Invalid)
        else Ok(w.(assets := w.assets[c.asset := Asset(Available, true, c.version + 1)]))
  }

  // ----- Steps -----

  /** The commands, each with what it meets, and what other modules do in between. */
  datatype Step =
    | Candidacy(candidate: Id, newRecord: Id)
    | Retiring(retire: RetireCommand, facts: Facts)
    | Wiping(wipe: WipeCommand, firstRow: Option<Id>, online: Option<Id>)
    | Claiming(agent: Id, methods: set<WipeMethod>, locked: set<Id>)
    | Reporting(reporter: Id, job: Id, version: Option<int>, outcome: Option<WipeResult>, evidence: Option<Evidence>,
                key: Text)
    | Disposing(dispose: DisposeCommand, licensed: bool)
    | Reactivating(reactivate: ReactivateCommand)
    | Elsewhere(assets: map<Id, Asset>, operations: map<Id, Operation>)

  function Outcome(w: World, approvals: ApprovalTable, step: Step): Result<World, Error> {
    match step
    case Candidacy(asset, record) => CreateCandidate(w, asset, record)
    case Retiring(c, facts) => Retire(w, approvals, c, facts)
    case Wiping(c, firstRow, agent) => StartWipe(w, approvals, c, firstRow, agent)
    case Claiming(agent, methods, locked) => Claim(w, agent, methods, locked)
    case Reporting(agent, job, version, outcome, evidence, key) =>
      Report(w, agent, job, version, outcome, evidence, key)
    case Disposing(c, licensed) => Dispose(w, approvals, c, licensed)
    case Reactivating(c) => Reactivate(w, approvals, c)
    case Elsewhere(assets, operations) => Ok(w.(assets := assets, operations := operations))
  }

  /** A refused command is rolled back. */
  function After(w: World, approvals: ApprovalTable, step: Step): World {
    match Outcome(w, approvals, step)
    case Ok(next) => next
    case Err(_) => w
  }
}
