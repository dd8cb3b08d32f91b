/** The commands as they run: row by row, inside a transaction that any error rolls back. */
module AssetLifecycleStore {
  import opened Wrappers
  import opened JsonText
  import opened Approvals
  import opened L = AssetLifecycle

  class LifecycleStore {
    var assets: map<Id, Asset>
    var retirements: map<Id, Retirement>
    var jobs: seq<WipeJob>
    var operations: map<Id, Operation>
    var disposals: seq<Disposal>

    function Snapshot(): World
      reads this
    {
      World(assets, retirements, jobs, operations, disposals)
    }

    method CreateCandidate(asset: Id, record: Id) returns (error: Option<Error>)
      modifies `retirements
      ensures Does(L.CreateCandidate(old(Snapshot()), asset, record), Snapshot(), error)
    {
      if asset !in assets {
        return Some(NotFound);
      }
      var a := assets[asset];
      if !(a.state in {Available, Returned, Repair, Assigned, InUse}) {
        return Some(RuleViolation);
      }
      var blocked := !a.unassigned || a.state in {Assigned, InUse};
      if OpenRetirement(retirements, asset) || record in retirements {
        return Some(DatabaseConflict);
      }
      retirements := retirements[record := Retirement(asset, if blocked then Blocked else Candidate, 1)];
      return None;
    }

    /** What still holds on to the asset. */
    static method Blockers(a: Asset, facts: Facts) returns (blockers: nat)
      ensures blockers > 0 <==> !a.unassigned || facts.licensed || facts.inMaintenance || facts.inIncident
    {
      blockers := if a.unassigned then 0 else 1;
      if facts.licensed { blockers := blockers + 1; }
      if facts.inMaintenance { blockers := blockers + 1; }
      if facts.inIncident { blockers := blockers + 1; }
    }

    /** How many of the four clearances are missing. */
    static method MissingClearances(references: Json) returns (missing: nat)
      ensures missing > 0 <==> !RetirementCleared(references)
    {
      missing := 0;
      if !Cleared(references, "legal_hold") { missing := missing + 1; }
      if !Cleared(references, "retention") { missing := missing + 1; }
      if !Cleared(references, "financial") { missing := missing + 1; }
      if !Cleared(references, "incident") { missing := missing + 1; }
    }

    method CheckRetire(approvals: ApprovalTable, c: RetireCommand) returns (refusal: Option<Error>)
      ensures refusal == RetireRefusal(Snapshot(), approvals, c)
    {
      if c.record !in retirements || retirements[c.record].asset != c.asset {
        return Some(NotFound);
      }
      var record := retirements[c.record];
      if !(record.state in {Candidate, Blocked}) {
        return Some(RuleViolation);
      }
      if c.recordVersion == None {
        return Some(Invalid);
      }
      if record.version != c.recordVersion.value {
        return Some(VersionConflict);
      }
      if c.asset !in assets {
        return Some(NotFound);
      }
      if assets[c.asset].version != c.version {
        return Some(VersionConflict);
      }
      if AssertApproval(ApprovalFor(approvals, c.approval, AssetRetirement, c.record), RetireTerms(c)).Some? {
        return Some(RuleViolation);
      }
      return None;
    }

    method Retire(approvals: ApprovalTable, c: RetireCommand, facts: Facts) returns (error: Option<Error>)
      modifies `assets, `retirements
      ensures Does(L.Retire(old(Snapshot()), approvals, c, facts), Snapshot(), error)
    {
      var refusal := CheckRetire(approvals, c);
      if refusal.Some? {
        return refusal;
      }
      var a, version := assets[c.asset], retirements[c.record].version + 1;
      var blockers := Blockers(a, facts);
      var missing := MissingClearances(References(c.clearances));
      if blockers + missing > 0 {
        retirements := retirements[c.record := Retirement(c.asset, Blocked, version)];
        return None;
      }
      if !(a.state in {Available, Returned, Repair}) {
        return Some(RuleViolation);
      }
      assets := assets[c.asset := a.(state := Retired, version := a.version + 1)];
      retirements := retirements[c.record := Retirement(c.asset, Completed, version)];
      return None;
    }

    method CheckWipe(approvals: ApprovalTable, c: WipeCommand, firstRow: Option<Id>, agent: Option<Id>)
      returns (refusal: Option<Error>)
      ensures refusal == WipeRefusal(Snapshot(), approvals, c, firstRow, agent)
    {
      if c.asset !in assets || assets[c.asset].state != Retired {
        return Some(RuleViolation);
      }
      if assets[c.asset].version != c.version {
        return Some(VersionConflict);
      }
      if firstRow != Some(c.record) {
        return Some(RuleViolation);
      }
      if AssertApproval(ApprovalFor(approvals, c.approval, DataWipe, c.record), WipeTerms(c)).Some? {
        return Some(RuleViolation);
      }
      return if agent == None then Some(Unavailable) else None;
    }

    method StartWipe(approvals: ApprovalTable, c: WipeCommand, firstRow: Option<Id>, agent: Option<Id>)
      returns (error: Option<Error>)
      modifies `jobs, `operations
      ensures Does(L.StartWipe(old(Snapshot()), approvals, c, firstRow, agent), Snapshot(), error)
    {
      var refusal := CheckWipe(approvals, c, firstRow, agent);
      if refusal.Some? {
        return refusal;
      }
      var prior := Latest(jobs, c.asset);
      var next := 1;
      if prior.Some? {
        if prior.value.state in {JobQueued, JobClaimed} {
          return Some(InProgress);
        }
        if prior.value.state == JobCompleted {
          return Some(RuleViolation);
        }
        if prior.value.means == c.means || prior.value.approval == c.approval {
          return Some(RuleViolation);
        }
        next := prior.value.generation + 1;
      }
      if JobExists(jobs, c.job) {
        return Some(DatabaseConflict);
      }
      jobs := jobs + [WipeJob(c.job, c.asset, c.record, agent.value, JobQueued, c.means, next, c.approval, 1,
                              None, None, None)];
      if c.job in operations {
        return Some(DatabaseConflict);
      }
      operations := operations[c.job := Operation(OpQueued, 1)];
      return None;
    }

    /** Moves the job first and its operation second. */
    method Claim(agent: Id, methods: set<WipeMethod>, locked: set<Id>) returns (error: Option<Error>)
      modifies `jobs, `operations
      ensures Does(L.Claim(old(Snapshot()), agent, methods, locked), Snapshot(), error)
    {
      var i := Claimable(jobs, agent, methods, locked);
      if i == |jobs| {
        return None;
      }
      var job := jobs[i];
      jobs := jobs[i := job.(state := JobClaimed, version := job.version + 1)];
      var moved := TransitionOperation(job.id, 1, OpQueued, OpRunning);
      return if moved then None else Some(VersionConflict);
    }

    method TransitionOperation(id: Id, version: int, from: OperationState, to: OperationState) returns (moved: bool)
      modifies `operations
      ensures moved == Transition(old(operations), id, version, from, to).Some?
      ensures operations == if moved then Transition(old(operations), id, version, from, to).value else old(operations)
    {
      if !Edge(from, to) || id !in operations || operations[id].state != from || operations[id].version != version {
        return false;
      }
      operations := operations[id := Operation(to, version + 1)];
      return true;
    }

    method CheckReport(agent: Id, id: Id, version: Option<int>, outcome: Option<WipeResult>)
      returns (refusal: Option<Error>)
      ensures refusal == ReportRefusal(jobs, agent, id, version, outcome)
    {
      var i := JobIndex(jobs, agent, id);
      if i == |jobs| {
        return Some(NotFound);
      }
      if jobs[i].state != JobClaimed {
        return Some(RuleViolation);
      }
      if version == None {
        return Some(Invalid);
      }
      if jobs[i].version != version.value {
        return Some(VersionConflict);
      }
      return if outcome == None then Some(Invalid) else None;
    }

    method Report(agent: Id, id: Id, version: Option<int>, outcome: Option<WipeResult>, evidence: Option<Evidence>,
                  key: Text)
      returns (error: Option<Error>)
      modifies `jobs, `operations
      ensures Does(L.Report(old(Snapshot()), agent, id, version, outcome, evidence, key), Snapshot(), error)
    {
      var refusal := CheckReport(agent, id, version, outcome);
      if refusal.Some? {
        return refusal;
      }
      var i := JobIndex(jobs, agent, id);
      var job := jobs[i];
      var success := outcome.value in {Pass, NotApplicable, PhysicalDestructionRequired};
      var done := job.(state := if success then JobCompleted else JobFailed, version := job.version + 1,
                       result := outcome, evidence := evidence, reportKey := Some(key));
      if !RowAccepted(jobs, i, done) {
        return Some(DatabaseConflict);
      }
      jobs := jobs[i := done];
      if id !in operations || operations[id].state != OpRunning {
        return Some(VersionConflict);
      }
      var to := if success then OpSucceeded else OpFailed;
      var moved := TransitionOperation(id, operations[id].version, OpRunning, to);
      return if moved then None else Some(VersionConflict);
    }

    method CheckDispose(approvals: ApprovalTable, c: DisposeCommand, licensed: bool) returns (refusal: Option<Error>)
      ensures refusal == DisposeRefusal(Snapshot(), approvals, c, licensed)
    {
      if c.asset !in assets || assets[c.asset].state != Retired {
        return Some(RuleViolation);
      }
      if assets[c.asset].version != c.version {
        return Some(VersionConflict);
      }
      if !CompletedFor(retirements, c.asset, c.record) {
        return Some(NotFound);
      }
      var references := References(c.clearances);
      if AssertApproval(ApprovalFor(approvals, c.approval, AssetDisposal, c.record), DisposeTerms(c)).Some? {
        return Some(RuleViolation);
      }
      if c.means != Destroy && !WipeProven(jobs, c.asset) {
        return Some(RuleViolation);
      }
      if c.means == Destroy && !c.destructionConfirmed {
        return Some(RuleViolation);
      }
      if licensed || !Cleared(references, "access") || !Cleared(references, "agent") {
        return Some(RuleViolation);
      }
      if c.means != ReuseInternal {
        if !c.dispositionConfirmed {
          return Some(RuleViolation);
        }
        if Blank(c.evidence) || Blank(c.checksum) {
          return Some(Invalid);
        }
      }
      if DisposalExists(disposals, c.id) || (c.means != ReuseInternal && !Sha256(Trim(c.checksum))) {
        return Some(DatabaseConflict);
      }
      return None;
    }

    method Dispose(approvals: ApprovalTable, c: DisposeCommand, licensed: bool) returns (error: Option<Error>)
      modifies `assets, `disposals
      ensures Does(L.Dispose(old(Snapshot()), approvals, c, licensed), Snapshot(), error)
    {
      var refusal := CheckDispose(approvals, c, licensed);
      if refusal.Some? {
        return refusal;
      }
      RecordDisposal(c);
      return None;
    }

    method RecordDisposal(c: DisposeCommand)
      requires c.asset in assets
      modifies `assets, `disposals
      ensures Snapshot() == Deciding(old(Snapshot()), c)
    {
      var a := assets[c.asset];
      disposals := disposals + [Disposal(c.id, c.asset, c.record, c.means, c.approval)];
      if c.means != ReuseInternal {
        assets := assets[c.asset := a.(state := Disposed, version := a.version + 1)];
      }
    }

    method Reactivate(approvals: ApprovalTable, c: ReactivateCommand) returns (error: Option<Error>)
      modifies `assets
      ensures Does(L.Reactivate(old(Snapshot()), approvals, c), Snapshot(), error)
    {
      if c.asset !in assets || assets[c.asset].state != Retired {
        return Some(RuleViolation);
      }
      if assets[c.asset].version != c.version {
        return Some(VersionConflict);
      }
      var reuse := LatestReuse(disposals, approvals, c.asset);
      if reuse == None {
        return Some(RuleViolation);
      }
      if AssertApproval(Some(approvals[reuse.value.approval].request), ReuseTerms(c.asset)).Some? {
        return Some(RuleViolation);
      }
      if Blank(c.evidence) || Blank(c.checksum) {
        return Some(Invalid);
      }
      assets := assets[c.asset := Asset(Available, true, c.version + 1)];
      return None;
    }

    /** One command in its transaction. `fault` is an error of the statements that follow it there:
        audit, outbox, history and work items. */
    method Run(approvals: ApprovalTable, step: Step, fault: Option<Error>) returns (error: Option<Error>)
      modifies this
      ensures Snapshot() == if error == None then After(old(Snapshot()), approvals, step) else old(Snapshot())
      ensures error == match L.Outcome(old(Snapshot()), approvals, step) case Ok(_) => fault case Err(e) => Some(e)
    {
      var before := Snapshot();
      error := Command(approvals, step);
      if error == None {
        error := fault;
      }
      if error.Some? {
        Restore(before);
      }
    }

    method Command(approvals: ApprovalTable, step: Step) returns (error: Option<Error>)
      modifies this
      ensures Does(L.Outcome(old(Snapshot()), approvals, step), Snapshot(), error)
    {
      error := None;
      match step {
        case Candidacy(asset, record) => error := CreateCandidate(asset, record);
        case Retiring(c, facts) => error := Retire(approvals, c, facts);
        case Wiping(c, firstRow, agent) => error := StartWipe(approvals, c, firstRow, agent);
        case Claiming(agent, methods, locked) => error := Claim(agent, methods, locked);
        case Reporting(agent, job, version, outcome, evidence, key) =>
          error := Report(agent, job, version, outcome, evidence, key);
        case Disposing(c, licensed) => error := Dispose(approvals, c, licensed);
        case Reactivating(c) => error := Reactivate(approvals, c);
        case Elsewhere(others, work) => assets, operations := others, work;
      }
    }

    method Restore(w: World)
      modifies this
      ensures Snapshot() == w
    {
      assets, retirements, jobs, operations, disposals := w.assets, w.retirements, w.jobs, w.operations, w.disposals;
    }
  }

  /** The statements of a command do all that is specified, or stop with its error; what they wrote
      until then is for the transaction to take back. */
  ghost predicate Does(specified: Result<World, Error>, now: World, error: Option<Error>) {
    match specified
    case Ok(next) => error == None && now == next
    case Err(e) => error == Some(e)
  }
}
