/** What every run of the retirement, wipe, disposal and reactivation commands keeps, whatever
    other modules do to assets in between. */
module AssetLifecycleProofs {
  import opened Wrappers
  import opened JsonText
  import opened Approvals
  import opened AssetLifecycle

  // ----- Steps and runs -----

  predicate Closed(a: Asset) {
    a.state == Retired || a.state == Disposed
  }

  /** Other modules change assets and register operations of their own, but they neither retire
      nor dispose, they leave retired and disposed assets in that state and unassigned, and they
      do not touch the operations of wipe jobs. */
  ghost predicate Foreign(w: World, assets: map<Id, Asset>, operations: map<Id, Operation>) {
    && (forall a | a in w.assets :: a in assets)
    && (forall a | a in assets :: Closed(assets[a]) || (a in w.assets && Closed(w.assets[a])) ==>
          a in w.assets && assets[a].state == w.assets[a].state && assets[a].unassigned == w.assets[a].unassigned)
    && (forall i | 0 <= i < |w.jobs| :: w.jobs[i].id in w.operations ==>
          w.jobs[i].id in operations && operations[w.jobs[i].id] == w.operations[w.jobs[i].id])
  }

  ghost predicate Allowed(w: World, approvals: ApprovalTable, storage: map<Text, Text>, step: Step) {
    && (forall id | id in approvals :: WellFormed(approvals[id].request.context))
    && match step
       case Retiring(c, _) => WellFormed(References(c.clearances))
       case Disposing(c, _) => WellFormed(References(c.clearances))
       case Wiping(c, firstRow, _) => FirstCompleted(w.retirements, c.asset, firstRow)
       case Reporting(_, _, _, outcome, evidence, _) => EvidenceChecked(storage, outcome, evidence)
       case Elsewhere(assets, operations) => Foreign(w, assets, operations)
       case _ => true
  }

  /** What `VerifyEvidence` lets into the reporting transaction. */
  predicate EvidenceChecked(storage: map<Text, Text>, outcome: Option<WipeResult>, evidence: Option<Evidence>) {
    && (evidence == None <==> outcome == Some(Fail))
    && (evidence.Some? ==> Verified(storage, evidence.value))
  }

  // ----- The invariant -----

  /** The wipe jobs of one asset, oldest first. */
  function History(jobs: seq<WipeJob>, asset: Id): (h: seq<WipeJob>)
    ensures forall i | 0 <= i < |h| :: h[i].asset == asset && h[i] in jobs
  {
    if jobs == [] then []
    else
      var n := |jobs| - 1;
      var before := History(jobs[..n], asset);
      if jobs[n].asset == asset then before + [jobs[n]] else before
  }

  /** Generations count from one, only the last may be anything but failed, and each retry
      changed both the method and the approval. */
  predicate Chain(h: seq<WipeJob>) {
    && (forall i | 0 <= i < |h| :: h[i].generation == i + 1)
    && (forall i | 0 <= i < |h| - 1 ::
          h[i].state == JobFailed && h[i].means != h[i + 1].means && h[i].approval != h[i + 1].approval)
  }

  ghost predicate Chained(jobs: seq<WipeJob>) {
    forall asset :: Chain(History(jobs, asset))
  }

  predicate Paired(job: WipeJob, operation: Operation) {
    match job.state
    case JobQueued => job.version == 1 && operation == Operation(OpQueued, 1)
    case JobClaimed => job.version == 2 && operation == Operation(OpRunning, 2)
    case JobCompleted => job.version == 3 && operation == Operation(OpSucceeded, 3)
    case JobFailed => job.version == 3 && operation == Operation(OpFailed, 3)
  }

  ghost predicate Registered(jobs: seq<WipeJob>, operations: map<Id, Operation>) {
    && (forall i, j | 0 <= i < j < |jobs| :: jobs[i].id != jobs[j].id)
    && (forall i | 0 <= i < |jobs| :: jobs[i].id in operations && Paired(jobs[i], operations[jobs[i].id]))
  }

  /** A job has a result and a report key exactly if it was reported, and verified evidence with a
      SHA-256 checksum exactly if it did not fail. */
  predicate Concluded(job: WipeJob, storage: map<Text, Text>) {
    match job.state
    case JobCompleted =>
      && job.result.Some? && job.result.value != Fail && job.reportKey.Some?
      && job.evidence.Some? && Verified(storage, job.evidence.value) && Sha256(job.evidence.value.checksum)
    case JobFailed => job.result == Some(Fail) && job.evidence == None && job.reportKey.Some?
    case _ => job.result == None && job.evidence == None && job.reportKey == None
  }

  ghost predicate Backed(jobs: seq<WipeJob>, retirements: map<Id, Retirement>, storage: map<Text, Text>) {
    forall i | 0 <= i < |jobs| ::
      Concluded(jobs[i], storage) && CompletedFor(retirements, jobs[i].asset, jobs[i].retirement)
  }

  /** What stood behind a recorded disposition still stands. */
  predicate Documented(d: Disposal, retirements: map<Id, Retirement>, jobs: seq<WipeJob>) {
    CompletedFor(retirements, d.asset, d.retirement) && (d.means != Destroy ==> WipeProven(jobs, d.asset))
  }

  ghost predicate Standing(w: World) {
    && (forall a | a in w.assets && Closed(w.assets[a]) :: w.assets[a].unassigned)
    && (forall a | a in w.assets && w.assets[a].state == Retired :: exists r :: CompletedFor(w.retirements, a, r))
    && (forall a | a in w.assets && w.assets[a].state == Disposed ::
          exists i | 0 <= i < |w.disposals| :: w.disposals[i].asset == a && w.disposals[i].means != ReuseInternal)
    && (forall i | 0 <= i < |w.disposals| :: Documented(w.disposals[i], w.retirements, w.jobs))
  }

  ghost predicate OneOpen(retirements: map<Id, Retirement>) {
    forall r, s | r in retirements && s in retirements && r != s && retirements[r].asset == retirements[s].asset ::
      retirements[r].state == Completed || retirements[s].state == Completed
  }

  /** Only assets that are neither retired nor disposed of have a retirement pending. */
  ghost predicate PendingIsOpen(retirements: map<Id, Retirement>, assets: map<Id, Asset>) {
    forall r | r in retirements && retirements[r].state != Completed ::
      retirements[r].asset in assets && !Closed(assets[retirements[r].asset])
  }

  ghost predicate Inv(w: World, storage: map<Text, Text>) {
    && Chained(w.jobs)
    && Registered(w.jobs, w.operations)
    && Backed(w.jobs, w.retirements, storage)
    && Standing(w)
    && OneOpen(w.retirements)
    && PendingIsOpen(w.retirements, w.assets)
  }

  ghost predicate Initial(w: World) {
    && w.jobs == [] && w.disposals == [] && w.retirements == map[]
    && forall a | a in w.assets :: !Closed(w.assets[a])
  }

  // ----- Histories -----

  lemma {:induction false} HistoryOfUpdate(jobs: seq<WipeJob>, i: nat, job: WipeJob, asset: Id)
    requires i < |jobs| && job.asset == jobs[i].asset
    ensures |History(jobs[..i], asset)| <= |History(jobs, asset)|
    ensures jobs[i].asset != asset ==> History(jobs[i := job], asset) == History(jobs, asset)
    ensures jobs[i].asset == asset ==>
              && |History(jobs[..i], asset)| < |History(jobs, asset)|
              && History(jobs, asset)[|History(jobs[..i], asset)|] == jobs[i]
              && History(jobs[i := job], asset) == History(jobs, asset)[|History(jobs[..i], asset)| := job]
  {
    var n := |jobs| - 1;
    if i < n {
      HistoryOfUpdate(jobs[..n], i, job, asset);
      assert jobs[..n][..i] == jobs[..i];
      assert jobs[i := job][..n] == jobs[..n][i := job];
    } else {
      assert jobs[i := job][..n] == jobs[..n];
    }
  }

  lemma ChainShrinks(h: seq<WipeJob>, job: WipeJob)
    requires Chain(h + [job])
    ensures Chain(h) && job.generation == |h| + 1
  {
    var longer := h + [job];
    assert longer[|h|] == job && forall i | 0 <= i < |h| :: longer[i] == h[i];
  }

  function Last(h: seq<WipeJob>): Option<WipeJob> {
    if h == [] then None else Some(h[|h| - 1])
  }

  lemma LastGrows(h: seq<WipeJob>, job: WipeJob)
    requires Chain(h + [job])
    ensures Last(h) == None || Last(h).value.generation < job.generation
  {
    ChainShrinks(h, job);
  }

  lemma {:induction false} LatestIsLast(jobs: seq<WipeJob>, asset: Id)
    requires Chain(History(jobs, asset))
    ensures Latest(jobs, asset) == Last(History(jobs, asset))
  {
    if jobs != [] {
      var n := |jobs| - 1;
      var before := History(jobs[..n], asset);
      if jobs[n].asset == asset {
        ChainShrinks(before, jobs[n]);
        LatestIsLast(jobs[..n], asset);
        LastGrows(before, jobs[n]);
      } else {
        LatestIsLast(jobs[..n], asset);
      }
    }
  }

  /** A job that has not failed is the last of its asset. */
  lemma UnfailedIsLast(jobs: seq<WipeJob>, i: nat)
    requires Chained(jobs) && i < |jobs| && jobs[i].state != JobFailed
    ensures var h := History(jobs, jobs[i].asset);
            |History(jobs[..i], jobs[i].asset)| == |h| - 1 && h[|h| - 1] == jobs[i]
  {
    HistoryOfUpdate(jobs, i, jobs[i], jobs[i].asset);
    assert Chain(History(jobs, jobs[i].asset));
  }

  lemma ChainedUpdate(jobs: seq<WipeJob>, i: nat, job: WipeJob)
    requires Chained(jobs) && i < |jobs| && jobs[i].state != JobFailed
    requires job.asset == jobs[i].asset && job.generation == jobs[i].generation && job.means == jobs[i].means
             && job.approval == jobs[i].approval
    ensures Chained(jobs[i := job])
  {
    var changed := jobs[i := job];
    forall asset ensures Chain(History(changed, asset)) {
      assert Chain(History(jobs, asset));
      HistoryOfUpdate(jobs, i, job, asset);
      if jobs[i].asset == asset {
        UnfailedIsLast(jobs, i);
      }
    }
  }

  lemma HistoryOfAppend(jobs: seq<WipeJob>, job: WipeJob, a: Id)
    requires job.asset != a
    ensures History(jobs + [job], a) == History(jobs, a)
  {
    assert (jobs + [job])[..|jobs|] == jobs;
  }

  lemma OwnHistory(jobs: seq<WipeJob>, job: WipeJob)
    ensures History(jobs + [job], job.asset) == History(jobs, job.asset) + [job]
  {
    assert (jobs + [job])[..|jobs|] == jobs;
  }

  lemma ChainGrows(h: seq<WipeJob>, job: WipeJob)
    requires Chain(h) && job.generation == |h| + 1
    requires h != [] ==>
               var last := h[|h| - 1];
               last.state == JobFailed && last.means != job.means && last.approval != job.approval
    ensures Chain(h + [job])
  {
  }

  lemma OwnChain(jobs: seq<WipeJob>, job: WipeJob)
    requires Chain(History(jobs, job.asset))
    requires RepeatRefusal(Latest(jobs, job.asset), job.means, job.approval) == None
    requires job.generation == NextGeneration(Latest(jobs, job.asset))
    ensures Chain(History(jobs + [job], job.asset))
  {
    LatestIsLast(jobs, job.asset);
    OwnHistory(jobs, job);
    ChainGrows(History(jobs, job.asset), job);
  }

  lemma ChainedAppend(jobs: seq<WipeJob>, job: WipeJob)
    requires Chained(jobs)
    requires RepeatRefusal(Latest(jobs, job.asset), job.means, job.approval) == None
    requires job.generation == NextGeneration(Latest(jobs, job.asset))
    ensures Chained(jobs + [job])
  {
    forall asset ensures Chain(History(jobs + [job], asset)) {
      assert Chain(History(jobs, asset));
      if job.asset == asset {
        OwnChain(jobs, job);
      } else {
        HistoryOfAppend(jobs, job, asset);
      }
    }
  }

  // ----- Each command keeps the invariant -----

  /** Equal histories prove the same. */
  lemma ProvenByHistory(jobs: seq<WipeJob>, changed: seq<WipeJob>, asset: Id)
    requires Chained(jobs) && Chained(changed) && History(jobs, asset) == History(changed, asset)
    ensures Latest(jobs, asset) == Latest(changed, asset)
    ensures WipeProven(jobs, asset) == WipeProven(changed, asset)
  {
    assert Chain(History(jobs, asset)) && Chain(History(changed, asset));
    LatestIsLast(jobs, asset);
    LatestIsLast(changed, asset);
  }

  ghost predicate ProofsStay(jobs: seq<WipeJob>, changed: seq<WipeJob>) {
    forall a :: WipeProven(jobs, a) ==> WipeProven(changed, a)
  }

  ghost predicate RecordsStay(retirements: map<Id, Retirement>, changed: map<Id, Retirement>) {
    forall a, r :: CompletedFor(retirements, a, r) ==> CompletedFor(changed, a, r)
  }

  /** The standing of assets survives whatever only adds records and proofs. */
  lemma StandingStays(w: World, retirements: map<Id, Retirement>, jobs: seq<WipeJob>)
    requires Standing(w) && ProofsStay(w.jobs, jobs) && RecordsStay(w.retirements, retirements)
    ensures Standing(w.(retirements := retirements, jobs := jobs))
  {
    forall i | 0 <= i < |w.disposals| ensures Documented(w.disposals[i], retirements, jobs) {
      assert Documented(w.disposals[i], w.retirements, w.jobs);
    }
  }

  lemma CandidacyKeeps(w: World, storage: map<Text, Text>, asset: Id, record: Id)
    requires Inv(w, storage) && CreateCandidate(w, asset, record).Ok?
    ensures Inv(CreateCandidate(w, asset, record).value, storage)
  {
    var next := CreateCandidate(w, asset, record).value;
    assert RecordsStay(w.retirements, next.retirements);
    StandingStays(w, next.retirements, w.jobs);
  }

  function Blocking(w: World, c: RetireCommand): World
    requires c.record in w.retirements
  {
    w.(retirements := w.retirements[c.record := Retirement(c.asset, Blocked, w.retirements[c.record].version + 1)])
  }

  function Completing(w: World, c: RetireCommand): World
    requires c.record in w.retirements && c.asset in w.assets
  {
    var a := w.assets[c.asset];
    w.(assets := w.assets[c.asset := a.(state := Retired, version := a.version + 1)],
       retirements := w.retirements[c.record := Retirement(c.asset, Completed, w.retirements[c.record].version + 1)])
  }

  lemma RetireDoes(w: World, approvals: ApprovalTable, c: RetireCommand, facts: Facts)
    requires Retire(w, approvals, c, facts).Ok?
    ensures c.record in w.retirements && w.retirements[c.record].asset == c.asset
            && w.retirements[c.record].state != Completed
    ensures c.asset in w.assets
    ensures var next := Retire(w, approvals, c, facts).value;
            || next == Blocking(w, c)
            || (next == Completing(w, c) && !Closed(w.assets[c.asset]) && w.assets[c.asset].unassigned)
  {
  }

  lemma BlockingKeeps(w: World, storage: map<Text, Text>, c: RetireCommand)
    requires Inv(w, storage) && c.record in w.retirements
    requires w.retirements[c.record].asset == c.asset && w.retirements[c.record].state != Completed
    ensures Inv(Blocking(w, c), storage)
  {
    assert RecordsStay(w.retirements, Blocking(w, c).retirements);
    StandingStays(w, Blocking(w, c).retirements, w.jobs);
  }

  lemma CompletingKeeps(w: World, storage: map<Text, Text>, c: RetireCommand)
    requires Inv(w, storage) && c.record in w.retirements && c.asset in w.assets
    requires w.retirements[c.record].asset == c.asset && w.retirements[c.record].state != Completed
    requires !Closed(w.assets[c.asset]) && w.assets[c.asset].unassigned
    ensures Inv(Completing(w, c), storage)
  {
    var next := Completing(w, c);
    assert RecordsStay(w.retirements, next.retirements);
    StandingStays(w, next.retirements, w.jobs);
    assert CompletedFor(next.retirements, c.asset, c.record);
  }

  lemma RetiringKeeps(w: World, approvals: ApprovalTable, storage: map<Text, Text>, c: RetireCommand, facts: Facts)
    requires Inv(w, storage) && Retire(w, approvals, c, facts).Ok?
    ensures Inv(Retire(w, approvals, c, facts).value, storage)
  {
    RetireDoes(w, approvals, c, facts);
    if Retire(w, approvals, c, facts).value == Blocking(w, c) {
      BlockingKeeps(w, storage, c);
    } else {
      CompletingKeeps(w, storage, c);
    }
  }

  function Queueing(w: World, job: WipeJob): World {
    w.(jobs := w.jobs + [job], operations := w.operations[job.id := Operation(OpQueued, 1)])
  }

  lemma WipeDoes(w: World, approvals: ApprovalTable, c: WipeCommand, firstRow: Option<Id>, agent: Option<Id>)
    requires StartWipe(w, approvals, c, firstRow, agent).Ok?
    ensures firstRow == Some(c.record) && agent.Some? && !JobExists(w.jobs, c.job) && c.job !in w.operations
    ensures var prior := Latest(w.jobs, c.asset);
            && RepeatRefusal(prior, c.means, c.approval) == None
            && StartWipe(w, approvals, c, firstRow, agent)
               == Ok(Queueing(w, NewJob(c, agent.value, NextGeneration(prior))))
  {
  }

  lemma ProofsStayUnderAppend(jobs: seq<WipeJob>, job: WipeJob)
    requires Chained(jobs) && Chained(jobs + [job])
             && RepeatRefusal(Latest(jobs, job.asset), job.means, job.approval) == None
    ensures ProofsStay(jobs, jobs + [job])
  {
    forall a | WipeProven(jobs, a) ensures WipeProven(jobs + [job], a) {
      assert a != job.asset;
      HistoryOfAppend(jobs, job, a);
      ProvenByHistory(jobs, jobs + [job], a);
    }
  }

  predicate Unstarted(job: WipeJob) {
    job.state == JobQueued && job.version == 1 && job.result == None && job.evidence == None && job.reportKey == None
  }

  lemma QueueingKeeps(w: World, storage: map<Text, Text>, job: WipeJob)
    requires Inv(w, storage) && CompletedFor(w.retirements, job.asset, job.retirement) && Unstarted(job)
    requires RepeatRefusal(Latest(w.jobs, job.asset), job.means, job.approval) == None
    requires job.generation == NextGeneration(Latest(w.jobs, job.asset))
    requires !JobExists(w.jobs, job.id) && job.id !in w.operations
    ensures Inv(Queueing(w, job), storage)
  {
    ChainedAppend(w.jobs, job);
    ProofsStayUnderAppend(w.jobs, job);
    StandingStays(w, w.retirements, w.jobs + [job]);
  }

  lemma WipingKeeps(w: World, approvals: ApprovalTable, storage: map<Text, Text>, c: WipeCommand,
                    firstRow: Option<Id>, agent: Option<Id>)
    requires Inv(w, storage) && FirstCompleted(w.retirements, c.asset, firstRow)
    requires StartWipe(w, approvals, c, firstRow, agent).Ok?
    ensures Inv(StartWipe(w, approvals, c, firstRow, agent).value, storage)
  {
    WipeDoes(w, approvals, c, firstRow, agent);
    QueueingKeeps(w, storage, NewJob(c, agent.value, NextGeneration(Latest(w.jobs, c.asset))));
  }

  /** Changing a job that has not failed leaves every proof of another asset alone. */
  lemma ProofsStayUnderUpdate(jobs: seq<WipeJob>, i: nat, job: WipeJob)
    requires i < |jobs| && job.asset == jobs[i].asset && Chained(jobs) && Chained(jobs[i := job])
    requires jobs[i].state in {JobQueued, JobClaimed}
    ensures ProofsStay(jobs, jobs[i := job])
  {
    var changed := jobs[i := job];
    forall a | WipeProven(jobs, a) ensures WipeProven(changed, a) {
      assert Chain(History(jobs, a));
      LatestIsLast(jobs, a);
      UnfailedIsLast(jobs, i);
      HistoryOfUpdate(jobs, i, job, a);
      ProvenByHistory(jobs, changed, a);
    }
  }

  /** A running job moves on together with its operation. */
  lemma UpdateKeeps(w: World, storage: map<Text, Text>, i: nat, job: WipeJob, operation: Operation)
    requires Inv(w, storage) && i < |w.jobs| && w.jobs[i].state in {JobQueued, JobClaimed}
    requires job == w.jobs[i].(state := job.state, version := job.version, result := job.result,
                               evidence := job.evidence, reportKey := job.reportKey)
    requires Paired(job, operation) && Concluded(job, storage)
    ensures Inv(w.(jobs := w.jobs[i := job], operations := w.operations[job.id := operation]), storage)
  {
    ChainedUpdate(w.jobs, i, job);
    ProofsStayUnderUpdate(w.jobs, i, job);
    StandingStays(w, w.retirements, w.jobs[i := job]);
  }

  lemma ClaimingKeeps(w: World, storage: map<Text, Text>, agent: Id, methods: set<WipeMethod>, locked: set<Id>)
    requires Inv(w, storage)
    ensures Claim(w, agent, methods, locked).Ok?
    ensures Inv(Claim(w, agent, methods, locked).value, storage)
  {
    var i := Claimable(w.jobs, agent, methods, locked);
    if i < |w.jobs| {
      assert Paired(w.jobs[i], w.operations[w.jobs[i].id]) && Concluded(w.jobs[i], storage);
      UpdateKeeps(w, storage, i, w.jobs[i].(state := JobClaimed, version := 2), Operation(OpRunning, 2));
    }
  }

  lemma ReportingKeeps(w: World, storage: map<Text, Text>, agent: Id, id: Id, version: Option<int>,
                       outcome: Option<WipeResult>, evidence: Option<Evidence>, key: Text)
    requires Inv(w, storage) && EvidenceChecked(storage, outcome, evidence)
    requires Report(w, agent, id, version, outcome, evidence, key).Ok?
    ensures Inv(Report(w, agent, id, version, outcome, evidence, key).value, storage)
  {
    var i := JobIndex(w.jobs, agent, id);
    var job := w.jobs[i];
    assert Paired(job, w.operations[job.id]) && Concluded(job, storage);
    var done := Reported(job, outcome.value, evidence, key);
    UpdateKeeps(w, storage, i, done, Operation(if outcome.value == Fail then OpFailed else OpSucceeded, 3));
  }

  lemma DisposeDoes(w: World, approvals: ApprovalTable, c: DisposeCommand, licensed: bool)
    requires Dispose(w, approvals, c, licensed).Ok?
    ensures c.asset in w.assets && w.assets[c.asset].state == Retired && CompletedFor(w.retirements, c.asset, c.record)
    ensures if c.means == Destroy then c.destructionConfirmed else WipeProven(w.jobs, c.asset)
    ensures c.means != ReuseInternal ==> c.dispositionConfirmed
    ensures AssertApproval(ApprovalFor(approvals, c.approval, AssetDisposal, c.record), DisposeTerms(c)) == None
    ensures Dispose(w, approvals, c, licensed).value == Deciding(w, c)
  {
  }

  lemma DecidingKeeps(w: World, storage: map<Text, Text>, c: DisposeCommand)
    requires Inv(w, storage) && c.asset in w.assets && w.assets[c.asset].state == Retired
    requires CompletedFor(w.retirements, c.asset, c.record) && (c.means != Destroy ==> WipeProven(w.jobs, c.asset))
    ensures Inv(Deciding(w, c), storage)
  {
    var next := Deciding(w, c);
    var n := |w.disposals|;
    assert Documented(next.disposals[n], w.retirements, w.jobs) && next.disposals[n].asset == c.asset;
    assert forall i | 0 <= i < n :: next.disposals[i] == w.disposals[i];
  }

  lemma DisposingKeeps(w: World, approvals: ApprovalTable, storage: map<Text, Text>, c: DisposeCommand, licensed: bool)
    requires Inv(w, storage) && Dispose(w, approvals, c, licensed).Ok?
    ensures Inv(Dispose(w, approvals, c, licensed).value, storage)
  {
    DisposeDoes(w, approvals, c, licensed);
    DecidingKeeps(w, storage, c);
  }

  lemma ReactivatingKeeps(w: World, approvals: ApprovalTable, storage: map<Text, Text>, c: ReactivateCommand)
    requires Inv(w, storage) && Reactivate(w, approvals, c).Ok?
    ensures Inv(Reactivate(w, approvals, c).value, storage)
  {
  }

  lemma ElsewhereKeeps(w: World, storage: map<Text, Text>, assets: map<Id, Asset>, operations: map<Id, Operation>)
    requires Inv(w, storage) && Foreign(w, assets, operations)
    ensures Inv(w.(assets := assets, operations := operations), storage)
  {
  }

  lemma StepKeeps(w: World, approvals: ApprovalTable, storage: map<Text, Text>, step: Step)
    requires Inv(w, storage) && Allowed(w, approvals, storage, step)
    ensures Inv(After(w, approvals, step), storage)
  {
    if Outcome(w, approvals, step).Ok? {
      match step
      case Candidacy(asset, record) => CandidacyKeeps(w, storage, asset, record);
      case Retiring(c, facts) => RetiringKeeps(w, approvals, storage, c, facts);
      case Wiping(c, firstRow, agent) => WipingKeeps(w, approvals, storage, c, firstRow, agent);
      case Claiming(agent, methods, locked) => ClaimingKeeps(w, storage, agent, methods, locked);
      case Reporting(agent, job, version, outcome, evidence, key) =>
        ReportingKeeps(w, storage, agent, job, version, outcome, evidence, key);
      case Disposing(c, licensed) => DisposingKeeps(w, approvals, storage, c, licensed);
      case Reactivating(c) => ReactivatingKeeps(w, approvals, storage, c);
      case Elsewhere(assets, operations) => ElsewhereKeeps(w, storage, assets, operations);
    }
  }

  // ----- What a step can change -----

  ghost predicate StateMoves(w: World, step: Step, next: World) {
    && (forall a | a in w.assets :: a in next.assets)
    && (forall a | a in next.assets :: StateMove(w, step, next, a))
  }

  predicate StateMove(w: World, step: Step, next: World, a: Id)
    requires a in next.assets
  {
    var now := next.assets[a];
    if a !in w.assets then !Closed(now)
    else
      var was := w.assets[a].state;
      || now.state == was
      || (!Closed(w.assets[a]) && !Closed(now))
      || (!Closed(w.assets[a]) && now.state == Retired && step.Retiring? && step.retire.asset == a)
      || (was == Retired && now.state == Disposed && step.Disposing? && step.dispose.asset == a)
      || (was == Retired && now.state == Available && now.unassigned && step.Reactivating?
          && step.reactivate.asset == a)
  }

  ghost predicate JobsMove(w: World, next: World) {
    || next.jobs == w.jobs
    || (exists job ::
          next.jobs == w.jobs + [job] && RepeatRefusal(Latest(w.jobs, job.asset), job.means, job.approval) == None)
    || (exists i, job | 0 <= i < |w.jobs| ::
          next.jobs == w.jobs[i := job] && w.jobs[i].state in {JobQueued, JobClaimed} && job.asset == w.jobs[i].asset)
  }

  lemma RetiringMoves(w: World, approvals: ApprovalTable, step: Step)
    requires step.Retiring? && Retire(w, approvals, step.retire, step.facts).Ok?
    ensures StateMoves(w, step, Retire(w, approvals, step.retire, step.facts).value)
    ensures JobsMove(w, Retire(w, approvals, step.retire, step.facts).value)
  {
    RetireDoes(w, approvals, step.retire, step.facts);
  }

  lemma WipingMoves(w: World, approvals: ApprovalTable, step: Step)
    requires step.Wiping? && StartWipe(w, approvals, step.wipe, step.firstRow, step.online).Ok?
    ensures StateMoves(w, step, StartWipe(w, approvals, step.wipe, step.firstRow, step.online).value)
    ensures JobsMove(w, StartWipe(w, approvals, step.wipe, step.firstRow, step.online).value)
  {
    var next := StartWipe(w, approvals, step.wipe, step.firstRow, step.online).value;
    assert next.jobs == w.jobs + [next.jobs[|w.jobs|]];
  }

  lemma ClaimingMoves(w: World, step: Step)
    requires step.Claiming? && Claim(w, step.agent, step.methods, step.locked).Ok?
    ensures StateMoves(w, step, Claim(w, step.agent, step.methods, step.locked).value)
    ensures JobsMove(w, Claim(w, step.agent, step.methods, step.locked).value)
  {
  }

  lemma ReportingMoves(w: World, approvals: ApprovalTable, step: Step)
    requires step.Reporting? && Outcome(w, approvals, step).Ok?
    ensures StateMoves(w, step, Outcome(w, approvals, step).value)
    ensures JobsMove(w, Outcome(w, approvals, step).value)
  {
  }

  lemma DisposingMoves(w: World, approvals: ApprovalTable, step: Step)
    requires step.Disposing? && Dispose(w, approvals, step.dispose, step.licensed).Ok?
    ensures StateMoves(w, step, Dispose(w, approvals, step.dispose, step.licensed).value)
    ensures JobsMove(w, Dispose(w, approvals, step.dispose, step.licensed).value)
  {
  }

  lemma ReactivatingMoves(w: World, approvals: ApprovalTable, step: Step)
    requires step.Reactivating? && Reactivate(w, approvals, step.reactivate).Ok?
    ensures StateMoves(w, step, Reactivate(w, approvals, step.reactivate).value)
    ensures JobsMove(w, Reactivate(w, approvals, step.reactivate).value)
  {
  }

  lemma StepMoves(w: World, approvals: ApprovalTable, storage: map<Text, Text>, step: Step)
    requires Allowed(w, approvals, storage, step)
    ensures StateMoves(w, step, After(w, approvals, step)) && JobsMove(w, After(w, approvals, step))
  {
    if Outcome(w, approvals, step).Ok? {
      match step
      case Candidacy(_, _) =>
      case Retiring(_, _) => RetiringMoves(w, approvals, step);
      case Wiping(_, _, _) => WipingMoves(w, approvals, step);
      case Claiming(_, _, _) => ClaimingMoves(w, step);
      case Reporting(_, _, _, _, _, _) => ReportingMoves(w, approvals, step);
      case Disposing(_, _) => DisposingMoves(w, approvals, step);
      case Reactivating(_) => ReactivatingMoves(w, approvals, step);
      case Elsewhere(_, _) =>
    }
  }

  // ----- Runs -----

  datatype Event = Event(step: Step, approvals: ApprovalTable)

  ghost predicate Run(ws: seq<World>, events: seq<Event>, storage: map<Text, Text>) {
    && |ws| == |events| + 1 && Initial(ws[0])
    && forall i {:trigger Follows(ws, events, storage, i)} | 0 <= i < |events| :: Follows(ws, events, storage, i)
  }

  ghost predicate Follows(ws: seq<World>, events: seq<Event>, storage: map<Text, Text>, i: nat)
    requires |ws| == |events| + 1 && i < |events|
  {
    && Allowed(ws[i], events[i].approvals, storage, events[i].step)
    && ws[i + 1] == After(ws[i], events[i].approvals, events[i].step)
  }

  lemma RunStepKeeps(ws: seq<World>, events: seq<Event>, storage: map<Text, Text>, k: nat, next: nat)
    requires Run(ws, events, storage) && k < |events| && next == k + 1 && Inv(ws[k], storage)
    ensures Inv(ws[next], storage)
  {
    assert Follows(ws, events, storage, k);
    StepKeeps(ws[k], events[k].approvals, storage, events[k].step);
  }

  /** Every state of every run satisfies the invariant. */
  lemma {:induction false} InvAlways(ws: seq<World>, events: seq<Event>, storage: map<Text, Text>, i: nat)
    requires Run(ws, events, storage) && i < |ws|
    ensures Inv(ws[i], storage)
  {
    if i > 0 {
      InvAlways(ws, events, storage, i - 1);
      RunStepKeeps(ws, events, storage, i - 1, i);
    }
  }

  /** An approved request whose evidence means what a command asks for, given by somebody else. */
  ghost predicate Attested(approvals: ApprovalTable, id: Id, source: Source, sourceId: Id, expected: seq<Field>) {
    && id in approvals && approvals[id].source == source && approvals[id].sourceId == sourceId
    && AttestedBy(approvals[id].request, expected)
  }

  ghost predicate AttestedBy(request: Request, expected: seq<Field>) {
    && request.state == Approved && Independent(request)
    && forall i | 0 <= i < |expected| :: Records(request.context, expected[i].key, expected[i].value)
  }

  lemma AttestedExactly(approvals: ApprovalTable, id: Id, source: Source, sourceId: Id, expected: seq<Field>)
    requires forall a | a in approvals :: WellFormed(approvals[a].request.context)
    requires expected != [] && forall i | 0 <= i < |expected| :: WellFormed(expected[i].value)
    ensures AssertApproval(ApprovalFor(approvals, id, source, sourceId), expected) == None
       <==> Attested(approvals, id, source, sourceId, expected)
  {
    ApprovalComparesMeaning(ApprovalFor(approvals, id, source, sourceId), expected);
    if Attested(approvals, id, source, sourceId, expected) {
      assert Records(approvals[id].request.context, expected[0].key, expected[0].value);
    }
  }

  lemma DisposeTermsFormed(c: DisposeCommand)
    requires WellFormed(References(c.clearances))
    ensures DisposeTerms(c) != [] && forall i | 0 <= i < |DisposeTerms(c)| :: WellFormed(DisposeTerms(c)[i].value)
  {
  }

  lemma DisposeDemands(w: World, approvals: ApprovalTable, storage: map<Text, Text>, c: DisposeCommand, licensed: bool)
    requires Inv(w, storage) && Dispose(w, approvals, c, licensed).Ok? && WellFormed(References(c.clearances))
    requires forall id | id in approvals :: WellFormed(approvals[id].request.context)
    ensures CompletedFor(w.retirements, c.asset, c.record)
    ensures c.means != ReuseInternal ==> c.dispositionConfirmed
    ensures Attested(approvals, c.approval, AssetDisposal, c.record, DisposeTerms(c))
    ensures if c.means == Destroy then c.destructionConfirmed else PassedOnEvidence(w.jobs, c.asset, storage)
  {
    DisposeDoes(w, approvals, c, licensed);
    DisposeTermsFormed(c);
    AttestedExactly(approvals, c.approval, AssetDisposal, c.record, DisposeTerms(c));
    if c.means != Destroy {
      ProvenPassed(w, storage, c.asset);
    }
  }

  /** An asset becomes disposed of only by a disposal command from RETIRED, with a completed
      retirement, an independent approval of exactly that method, and a verified wipe that passed
      unless it is destroyed. */
  lemma DisposalIsEarned(w: World, approvals: ApprovalTable, storage: map<Text, Text>, step: Step, a: Id)
    requires Inv(w, storage) && Allowed(w, approvals, storage, step)
    requires a in After(w, approvals, step).assets && After(w, approvals, step).assets[a].state == Disposed
    requires !(a in w.assets && w.assets[a].state == Disposed)
    ensures a in w.assets && w.assets[a].state == Retired && step.Disposing? && step.dispose.asset == a
    ensures var c := step.dispose;
            && c.means != ReuseInternal && c.dispositionConfirmed
            && CompletedFor(w.retirements, a, c.record)
            && Attested(approvals, c.approval, AssetDisposal, c.record, DisposeTerms(c))
            && (if c.means == Destroy then c.destructionConfirmed else PassedOnEvidence(w.jobs, a, storage))
  {
    StepMoves(w, approvals, storage, step);
    assert StateMove(w, step, After(w, approvals, step), a);
    DisposeChangesState(w, approvals, step.dispose, step.licensed);
    DisposeDemands(w, approvals, storage, step.dispose, step.licensed);
  }

  lemma DisposeChangesState(w: World, approvals: ApprovalTable, c: DisposeCommand, licensed: bool)
    ensures Dispose(w, approvals, c, licensed).Ok? && c.means == ReuseInternal
        ==> Dispose(w, approvals, c, licensed).value.assets == w.assets
  {
  }

  /** The last wipe of the asset passed, and its evidence was found under its checksum. */
  ghost predicate PassedOnEvidence(jobs: seq<WipeJob>, asset: Id, storage: map<Text, Text>) {
    var h := History(jobs, asset);
    && h != []
    && var last := h[|h| - 1];
       && last.state == JobCompleted && last.result == Some(Pass)
       && last.evidence.Some? && Verified(storage, last.evidence.value)
  }

  lemma ProvenPassed(w: World, storage: map<Text, Text>, a: Id)
    requires Inv(w, storage) && WipeProven(w.jobs, a)
    ensures PassedOnEvidence(w.jobs, a, storage)
  {
    assert Chain(History(w.jobs, a));
    LatestIsLast(w.jobs, a);
    var i :| 0 <= i < |w.jobs| && w.jobs[i] == Latest(w.jobs, a).value;
    assert Concluded(w.jobs[i], storage);
  }

  /** The newest decision that the asset be reused is still approved by somebody else. */
  ghost predicate ReuseDecided(w: World, approvals: ApprovalTable, a: Id) {
    exists k | 0 <= k < |w.disposals| :: DecidedAt(w, approvals, a, k)
  }

  ghost predicate DecidedAt(w: World, approvals: ApprovalTable, a: Id, k: nat) {
    && NewestReuse(w.disposals, approvals, a, k)
    && AttestedBy(approvals[w.disposals[k].approval].request, ReuseTerms(a))
  }

  lemma NewestIsLatest(disposals: seq<Disposal>, approvals: ApprovalTable, a: Id, k: nat)
    requires NewestReuse(disposals, approvals, a, k)
    ensures LatestReuse(disposals, approvals, a) == Some(disposals[k])
  {
    var d := LatestReuse(disposals, approvals, a).value;
    var i :| 0 <= i < |disposals| && disposals[i] == d && NewestReuse(disposals, approvals, a, i);
    assert i == k;
  }

  lemma DecidedExactly(w: World, approvals: ApprovalTable, a: Id)
    requires forall id | id in approvals :: WellFormed(approvals[id].request.context)
    ensures ReuseDecided(w, approvals, a)
       <==> match LatestReuse(w.disposals, approvals, a)
            case Some(d) => AssertApproval(Some(approvals[d.approval].request), ReuseTerms(a)) == None
            case None => false
  {
    match LatestReuse(w.disposals, approvals, a)
    case None =>
    case Some(d) =>
      ApprovalComparesMeaning(Some(approvals[d.approval].request), ReuseTerms(a));
      var i :| 0 <= i < |w.disposals| && w.disposals[i] == d && NewestReuse(w.disposals, approvals, a, i);
      RequestAttestedExactly(approvals[d.approval].request, ReuseTerms(a));
      assert DecidedAt(w, approvals, a, i) <==> AttestedBy(approvals[d.approval].request, ReuseTerms(a));
      if ReuseDecided(w, approvals, a) {
        var k :| 0 <= k < |w.disposals| && DecidedAt(w, approvals, a, k);
        NewestIsLatest(w.disposals, approvals, a, k);
      }
  }

  lemma RequestAttestedExactly(request: Request, expected: seq<Field>)
    requires WellFormed(request.context)
    requires expected != [] && forall i | 0 <= i < |expected| :: WellFormed(expected[i].value)
    ensures AssertApproval(Some(request), expected) == None <==> AttestedBy(request, expected)
  {
    ApprovalComparesMeaning(Some(request), expected);
    if AttestedBy(request, expected) {
      assert Records(request.context, expected[0].key, expected[0].value);
    }
  }

  lemma ReactivateDemands(w: World, approvals: ApprovalTable, storage: map<Text, Text>, c: ReactivateCommand)
    requires Inv(w, storage) && Reactivate(w, approvals, c).Ok?
    requires forall id | id in approvals :: WellFormed(approvals[id].request.context)
    ensures PassedOnEvidence(w.jobs, c.asset, storage) && WipeProven(w.jobs, c.asset)
    ensures ReuseDecided(w, approvals, c.asset)
  {
    DecidedExactly(w, approvals, c.asset);
    var k :| 0 <= k < |w.disposals| && DecidedAt(w, approvals, c.asset, k);
    assert Documented(w.disposals[k], w.retirements, w.jobs);
    ProvenPassed(w, storage, c.asset);
  }

  /** A retired asset leaves that state only by disposal or by reactivation, and the latter only
      after a verified wipe that passed and on a decision for internal reuse. */
  lemma RetirementIsLeft(w: World, approvals: ApprovalTable, storage: map<Text, Text>, step: Step, a: Id)
    requires Inv(w, storage) && Allowed(w, approvals, storage, step)
    requires a in w.assets && w.assets[a].state == Retired
    ensures a in After(w, approvals, step).assets
    ensures var now := After(w, approvals, step).assets[a];
            || now.state == Retired
            || (now.state == Disposed && step.Disposing? && step.dispose.asset == a)
            || (&& now.state == Available && now.unassigned && step.Reactivating? && step.reactivate.asset == a
                && PassedOnEvidence(w.jobs, a, storage) && ReuseDecided(w, approvals, a))
  {
    StepMoves(w, approvals, storage, step);
    assert StateMove(w, step, After(w, approvals, step), a);
    if step.Reactivating? && step.reactivate.asset == a && Outcome(w, approvals, step).Ok? {
      ReactivateDemands(w, approvals, storage, step.reactivate);
    }
  }

  ghost predicate DisposedStay(w: World, next: World) {
    forall a | a in w.assets && w.assets[a].state == Disposed :: a in next.assets && next.assets[a].state == Disposed
  }

  lemma RunMoves(ws: seq<World>, events: seq<Event>, storage: map<Text, Text>, k: nat, next: nat)
    requires Run(ws, events, storage) && k < |events| && next == k + 1
    ensures DisposedStay(ws[k], ws[next]) && JobsMove(ws[k], ws[next])
  {
    var step := events[k].step;
    assert Follows(ws, events, storage, k);
    StepMoves(ws[k], events[k].approvals, storage, step);
    forall a | a in ws[k].assets && ws[k].assets[a].state == Disposed
      ensures a in ws[next].assets && ws[next].assets[a].state == Disposed
    {
      assert StateMove(ws[k], step, ws[next], a);
    }
  }

  /** Nothing leaves DISPOSED, however a run goes on. */
  lemma {:induction false} DisposedForever(ws: seq<World>, events: seq<Event>, storage: map<Text, Text>, i: nat,
                                           j: nat, a: Id)
    requires Run(ws, events, storage) && i <= j < |ws| && a in ws[i].assets && ws[i].assets[a].state == Disposed
    ensures a in ws[j].assets && ws[j].assets[a].state == Disposed
  {
    if i < j {
      DisposedForever(ws, events, storage, i, j - 1, a);
      RunMoves(ws, events, storage, j - 1, j);
    }
  }

  ghost predicate Wiped(jobs: seq<WipeJob>, a: Id) {
    History(jobs, a) != [] && History(jobs, a)[|History(jobs, a)| - 1].state == JobCompleted
  }

  lemma WipedBarsRetry(jobs: seq<WipeJob>, a: Id, means: WipeMethod, approval: Id)
    requires Chained(jobs) && Wiped(jobs, a)
    ensures RepeatRefusal(Latest(jobs, a), means, approval) != None
  {
    assert Chain(History(jobs, a));
    LatestIsLast(jobs, a);
  }

  lemma WipedStays(w: World, next: World, a: Id)
    requires Chained(w.jobs) && Wiped(w.jobs, a) && JobsMove(w, next)
    ensures History(next.jobs, a) == History(w.jobs, a)
  {
    if |next.jobs| > |w.jobs| {
      var job :| next.jobs == w.jobs + [job]
        && RepeatRefusal(Latest(w.jobs, job.asset), job.means, job.approval) == None;
      WipedBarsRetry(w.jobs, a, job.means, job.approval);
      HistoryOfAppend(w.jobs, job, a);
    } else if next.jobs != w.jobs {
      var i, job :| 0 <= i < |w.jobs| && next.jobs == w.jobs[i := job] && w.jobs[i].state in {JobQueued, JobClaimed}
                    && job.asset == w.jobs[i].asset;
      UnfailedIsLast(w.jobs, i);
      HistoryOfUpdate(w.jobs, i, job, a);
    }
  }

  lemma RunKeepsWiped(ws: seq<World>, events: seq<Event>, storage: map<Text, Text>, k: nat, next: nat, a: Id)
    requires Run(ws, events, storage) && k < |events| && next == k + 1 && Wiped(ws[k].jobs, a)
    ensures History(ws[next].jobs, a) == History(ws[k].jobs, a)
  {
    InvAlways(ws, events, storage, k);
    RunMoves(ws, events, storage, k, next);
    WipedStays(ws[k], ws[next], a);
  }

  lemma WipedAlike(jobs: seq<WipeJob>, later: seq<WipeJob>, a: Id)
    requires Wiped(jobs, a) && History(later, a) == History(jobs, a)
    ensures Wiped(later, a)
  {
  }

  /** A completed wipe is the last one of its asset for good, across any later retirement. */
  lemma {:induction false} CompletedWipeIsLast(ws: seq<World>, events: seq<Event>, storage: map<Text, Text>, i: nat,
                                               j: nat, a: Id)
    requires Run(ws, events, storage) && i <= j < |ws| && Wiped(ws[i].jobs, a)
    ensures History(ws[j].jobs, a) == History(ws[i].jobs, a)
  {
    if i < j {
      CompletedWipeIsLast(ws, events, storage, i, j - 1, a);
      WipedAlike(ws[i].jobs, ws[j - 1].jobs, a);
      RunKeepsWiped(ws, events, storage, j - 1, j, a);
    }
  }

  /** The last wipe of the asset completed without passing. */
  ghost predicate WipedInVain(jobs: seq<WipeJob>, a: Id) {
    Wiped(jobs, a) && History(jobs, a)[|History(jobs, a)| - 1].result != Some(Pass)
  }

  lemma InVainAlike(jobs: seq<WipeJob>, later: seq<WipeJob>, a: Id)
    requires WipedInVain(jobs, a) && History(later, a) == History(jobs, a)
    ensures WipedInVain(later, a)
  {
  }

  lemma NeverProven(w: World, storage: map<Text, Text>, a: Id)
    requires Inv(w, storage) && WipedInVain(w.jobs, a)
    ensures !WipeProven(w.jobs, a)
  {
    if WipeProven(w.jobs, a) {
      ProvenPassed(w, storage, a);
    }
  }

  lemma DisposeNeedsProof(w: World, approvals: ApprovalTable, c: DisposeCommand, licensed: bool)
    ensures Dispose(w, approvals, c, licensed).Ok? ==> c.means == Destroy || WipeProven(w.jobs, c.asset)
  {
  }

  /** So a wipe that completed without passing leaves destruction as the only disposal, ever. */
  lemma OnlyDestructionRemains(ws: seq<World>, events: seq<Event>, storage: map<Text, Text>, i: nat, j: nat,
                               approvals: ApprovalTable, c: DisposeCommand, licensed: bool)
    requires Run(ws, events, storage) && i <= j < |ws| && WipedInVain(ws[i].jobs, c.asset)
    ensures Dispose(ws[j], approvals, c, licensed).Ok? ==> c.means == Destroy
  {
    CompletedWipeIsLast(ws, events, storage, i, j, c.asset);
    InvAlways(ws, events, storage, j);
    InVainAlike(ws[i].jobs, ws[j].jobs, c.asset);
    NeverProven(ws[j], storage, c.asset);
    DisposeNeedsProof(ws[j], approvals, c, licensed);
  }

  ghost predicate ClaimHeld(jobs: seq<WipeJob>, agent: Id, id: Id, version: Option<int>) {
    exists i | 0 <= i < |jobs| ::
      jobs[i].id == id && jobs[i].agent == agent && jobs[i].state == JobClaimed && version == Some(jobs[i].version)
  }

  /** The reported row: the outcome, evidence and key of the report, failed exactly if the outcome says
      so, and everything else as before. */
  predicate RowStored(was: WipeJob, row: WipeJob, outcome: WipeResult, evidence: Option<Evidence>, key: Text) {
    && row.result == Some(outcome) && row.evidence == evidence && row.reportKey == Some(key)
    && row.version == was.version + 1
    && (outcome == Fail ==> row.state == JobFailed) && (outcome != Fail ==> row.state == JobCompleted)
    && row.id == was.id && row.asset == was.asset && row.retirement == was.retirement && row.agent == was.agent
    && row.means == was.means && row.generation == was.generation && row.approval == was.approval
  }

  /** Row `i` and its operation are all that a report changes. */
  predicate Stored(w: World, next: World, i: nat, outcome: WipeResult, evidence: Option<Evidence>, key: Text)
    requires i < |w.jobs|
  {
    var to := if outcome == Fail then OpFailed else OpSucceeded;
    && |next.jobs| == |w.jobs| && (forall k | 0 <= k < |w.jobs| && k != i :: next.jobs[k] == w.jobs[k])
    && RowStored(w.jobs[i], next.jobs[i], outcome, evidence, key)
    && next == w.(jobs := next.jobs, operations := w.operations[w.jobs[i].id := Operation(to, 3)])
  }

  predicate ClaimOf(job: WipeJob, agent: Id, id: Id) {
    job.id == id && job.agent == agent && job.state == JobClaimed
  }

  /** A report goes through exactly when the agent holds the claim at the version it names, the
      outcome is a known one, the agent has used the key for no job, and what proves a completed
      wipe has a SHA-256 checksum: job and operation never disagree. It stores what it says. */
  lemma ReportsGoThrough(w: World, storage: map<Text, Text>, agent: Id, id: Id, version: Option<int>,
                         outcome: Option<WipeResult>, evidence: Option<Evidence>, key: Text)
    requires Inv(w, storage) && EvidenceChecked(storage, outcome, evidence)
    ensures Report(w, agent, id, version, outcome, evidence, key).Ok?
       <==> && outcome.Some? && ClaimHeld(w.jobs, agent, id, version)
            && (forall k | 0 <= k < |w.jobs| && w.jobs[k].agent == agent :: w.jobs[k].reportKey != Some(key))
            && (evidence.Some? ==> Sha256(evidence.value.checksum))
    ensures forall i | 0 <= i < |w.jobs| && ClaimOf(w.jobs[i], agent, id) ::
              Report(w, agent, id, version, outcome, evidence, key).Ok? ==>
                Stored(w, Report(w, agent, id, version, outcome, evidence, key).value, i, outcome.value, evidence, key)
  {
    ReportAccepted(w, storage, agent, id, version, outcome, evidence, key);
    forall i | 0 <= i < |w.jobs| && ClaimOf(w.jobs[i], agent, id)
      ensures Report(w, agent, id, version, outcome, evidence, key).Ok? ==>
                Stored(w, Report(w, agent, id, version, outcome, evidence, key).value, i, outcome.value, evidence, key)
    {
      if Report(w, agent, id, version, outcome, evidence, key).Ok? {
        ReportStores(w, storage, agent, id, version, outcome, evidence, key, i);
      }
    }
  }

  lemma ReportStores(w: World, storage: map<Text, Text>, agent: Id, id: Id, version: Option<int>,
                     outcome: Option<WipeResult>, evidence: Option<Evidence>, key: Text, i: nat)
    requires Inv(w, storage) && i < |w.jobs| && ClaimOf(w.jobs[i], agent, id)
    requires Report(w, agent, id, version, outcome, evidence, key).Ok?
    ensures Stored(w, Report(w, agent, id, version, outcome, evidence, key).value, i, outcome.value, evidence, key)
  {
    JobIndexFinds(w.jobs, agent, id);
    assert JobIndex(w.jobs, agent, id) == i;
    assert Paired(w.jobs[i], w.operations[id]);
  }

  lemma ReportAccepted(w: World, storage: map<Text, Text>, agent: Id, id: Id, version: Option<int>,
                       outcome: Option<WipeResult>, evidence: Option<Evidence>, key: Text)
    requires Inv(w, storage) && EvidenceChecked(storage, outcome, evidence)
    ensures Report(w, agent, id, version, outcome, evidence, key).Ok?
       <==> && outcome.Some? && ClaimHeld(w.jobs, agent, id, version)
            && (forall k | 0 <= k < |w.jobs| && w.jobs[k].agent == agent :: w.jobs[k].reportKey != Some(key))
            && (evidence.Some? ==> Sha256(evidence.value.checksum))
  {
    var i := JobIndex(w.jobs, agent, id);
    JobIndexFinds(w.jobs, agent, id);
    if i < |w.jobs| {
      assert Paired(w.jobs[i], w.operations[id]) && Concluded(w.jobs[i], storage);
    }
  }

  lemma {:induction false} JobIndexFinds(jobs: seq<WipeJob>, agent: Id, id: Id)
    ensures forall k | 0 <= k < JobIndex(jobs, agent, id) :: !(jobs[k].id == id && jobs[k].agent == agent)
  {
    if jobs != [] && !(jobs[0].id == id && jobs[0].agent == agent) {
      JobIndexFinds(jobs[1..], agent, id);
      assert forall k | 1 <= k < |jobs| :: jobs[k] == jobs[1..][k - 1];
    }
  }

  // ----- Exactly when a command goes through -----

  /** An asset is retired exactly on a pending record, with nothing left that blocks it. */
  lemma RetiresExactly(w: World, approvals: ApprovalTable, c: RetireCommand, facts: Facts)
    requires forall a | a in approvals :: WellFormed(approvals[a].request.context)
    requires WellFormed(References(c.clearances))
    ensures Retire(w, approvals, c, facts).Ok?
            && CompletedFor(Retire(w, approvals, c, facts).value.retirements, c.asset, c.record)
       <==> && c.record in w.retirements && w.retirements[c.record].asset == c.asset
            && w.retirements[c.record].state != Completed
            && c.recordVersion == Some(w.retirements[c.record].version)
            && c.asset in w.assets && w.assets[c.asset].version == c.version
            && w.assets[c.asset].state in {Available, Returned, Repair} && w.assets[c.asset].unassigned
            && !facts.licensed && !facts.inMaintenance && !facts.inIncident
            && Cleared(References(c.clearances), "legal_hold") && Cleared(References(c.clearances), "retention")
            && Cleared(References(c.clearances), "financial") && Cleared(References(c.clearances), "incident")
            && Attested(approvals, c.approval, AssetRetirement, c.record, RetireTerms(c))
  {
    AttestedExactly(approvals, c.approval, AssetRetirement, c.record, RetireTerms(c));
    RetireAccepted(w, approvals, c, facts);
  }

  lemma RetireAccepted(w: World, approvals: ApprovalTable, c: RetireCommand, facts: Facts)
    ensures Retire(w, approvals, c, facts).Ok?
            && CompletedFor(Retire(w, approvals, c, facts).value.retirements, c.asset, c.record)
       <==> && c.record in w.retirements && w.retirements[c.record].asset == c.asset
            && w.retirements[c.record].state != Completed
            && c.recordVersion == Some(w.retirements[c.record].version)
            && c.asset in w.assets && w.assets[c.asset].version == c.version
            && w.assets[c.asset].state in {Available, Returned, Repair}
            && AssertApproval(ApprovalFor(approvals, c.approval, AssetRetirement, c.record), RetireTerms(c)) == None
            && !RetirementBlocked(w.assets[c.asset], facts, References(c.clearances))
  {
  }

  /** A wipe starts exactly when the asset is retired, an agent is online, and the asset's last
      wipe, if any, failed by another method under another approval. */
  lemma WipesExactly(w: World, approvals: ApprovalTable, storage: map<Text, Text>, c: WipeCommand,
                     firstRow: Option<Id>, agent: Option<Id>)
    requires Inv(w, storage)
    requires forall a | a in approvals :: WellFormed(approvals[a].request.context)
    requires c.job !in w.operations
    ensures StartWipe(w, approvals, c, firstRow, agent).Ok?
       <==> && c.asset in w.assets && w.assets[c.asset].state == Retired && w.assets[c.asset].version == c.version
            && firstRow == Some(c.record) && agent.Some?
            && Attested(approvals, c.approval, DataWipe, c.record, WipeTerms(c))
            && MayFollow(History(w.jobs, c.asset), c.means, c.approval)
  {
    AttestedExactly(approvals, c.approval, DataWipe, c.record, WipeTerms(c));
    RefusalExactly(w.jobs, c.asset, c.means, c.approval);
    JobIsNew(w, c.job);
    WipeAccepted(w, approvals, c, firstRow, agent);
  }

  lemma WipeAccepted(w: World, approvals: ApprovalTable, c: WipeCommand, firstRow: Option<Id>, agent: Option<Id>)
    requires !JobExists(w.jobs, c.job) && c.job !in w.operations
    ensures StartWipe(w, approvals, c, firstRow, agent).Ok?
       <==> && c.asset in w.assets && w.assets[c.asset].state == Retired && w.assets[c.asset].version == c.version
            && firstRow == Some(c.record) && agent.Some?
            && AssertApproval(ApprovalFor(approvals, c.approval, DataWipe, c.record), WipeTerms(c)) == None
            && RepeatRefusal(Latest(w.jobs, c.asset), c.means, c.approval) == None
  {
  }

  lemma JobIsNew(w: World, id: Id)
    requires Registered(w.jobs, w.operations) && id !in w.operations
    ensures !JobExists(w.jobs, id)
  {
  }

  /** What may be wiped next after a history: nothing yet, or the last attempt failed and this one
      changes both its method and its approval. */
  predicate MayFollow(h: seq<WipeJob>, means: WipeMethod, approval: Id) {
    h == [] || (var last := h[|h| - 1]; last.state == JobFailed && last.means != means && last.approval != approval)
  }

  lemma RefusalExactly(jobs: seq<WipeJob>, a: Id, means: WipeMethod, approval: Id)
    requires Chained(jobs)
    ensures RepeatRefusal(Latest(jobs, a), means, approval) == None <==> MayFollow(History(jobs, a), means, approval)
  {
    assert Chain(History(jobs, a));
    LatestIsLast(jobs, a);
  }

  lemma {:induction false} BlankTrims(t: Text)
    requires Blank(t)
    ensures Trim(t) == []
  {
    if t != [] {
      BlankTrims(t[1..]);
    }
  }

  /** A disposition goes through exactly when nothing is missing. */
  lemma DisposesExactly(w: World, approvals: ApprovalTable, c: DisposeCommand, licensed: bool)
    requires forall a | a in approvals :: WellFormed(approvals[a].request.context)
    requires WellFormed(References(c.clearances))
    requires !DisposalExists(w.disposals, c.id)
    ensures Dispose(w, approvals, c, licensed).Ok?
       <==> && c.asset in w.assets && w.assets[c.asset].state == Retired && w.assets[c.asset].version == c.version
            && CompletedFor(w.retirements, c.asset, c.record) && !licensed
            && Cleared(References(c.clearances), "access") && Cleared(References(c.clearances), "agent")
            && (if c.means == Destroy then c.destructionConfirmed else WipeProven(w.jobs, c.asset))
            && (c.means == ReuseInternal || (c.dispositionConfirmed && !Blank(c.evidence) && Sha256(Trim(c.checksum))))
            && Attested(approvals, c.approval, AssetDisposal, c.record, DisposeTerms(c))
  {
    AttestedExactly(approvals, c.approval, AssetDisposal, c.record, DisposeTerms(c));
    if Blank(c.checksum) {
      BlankTrims(c.checksum);
    }
  }

  // ----- Reactivation, again and again -----

  /** A reactivation goes through exactly when the asset is retired and the newest decision that it
      be reused is still approved by somebody else. */
  lemma ReactivatesExactly(w: World, approvals: ApprovalTable, c: ReactivateCommand)
    requires forall id | id in approvals :: WellFormed(approvals[id].request.context)
    ensures Reactivate(w, approvals, c).Ok?
       <==> && c.asset in w.assets && w.assets[c.asset].state == Retired && w.assets[c.asset].version == c.version
            && !Blank(c.evidence) && !Blank(c.checksum)
            && ReuseDecided(w, approvals, c.asset)
  {
    DecidedExactly(w, approvals, c.asset);
  }

  lemma DisposalsStay(w: World, approvals: ApprovalTable, step: Step)
    ensures w.disposals <= After(w, approvals, step).disposals
  {
    if step.Disposing? && Outcome(w, approvals, step).Ok? {
      DisposeDoes(w, approvals, step.dispose, step.licensed);
    }
  }

  lemma RunKeepsDisposals(ws: seq<World>, events: seq<Event>, storage: map<Text, Text>, k: nat, next: nat)
    requires Run(ws, events, storage) && k < |events| && next == k + 1
    ensures ws[k].disposals <= ws[next].disposals
  {
    assert Follows(ws, events, storage, k);
    DisposalsStay(ws[k], events[k].approvals, events[k].step);
  }

  /** No disposition is ever changed or taken back. */
  lemma {:induction false} DisposalsGrow(ws: seq<World>, events: seq<Event>, storage: map<Text, Text>, i: nat, j: nat)
    requires Run(ws, events, storage) && i <= j < |ws|
    ensures ws[i].disposals <= ws[j].disposals
  {
    if i < j {
      DisposalsGrow(ws, events, storage, i, j - 1);
      RunKeepsDisposals(ws, events, storage, j - 1, j);
    }
  }

  /** Event `i` reactivates an asset on the decision of row `k`. */
  ghost predicate Reuses(ws: seq<World>, events: seq<Event>, i: nat, k: nat, a: Id) {
    && i < |events| && i < |ws| && events[i].step.Reactivating? && events[i].step.reactivate.asset == a
    && Outcome(ws[i], events[i].approvals, events[i].step).Ok?
    && NewestReuse(ws[i].disposals, events[i].approvals, a, k)
  }

  /** Reactivation does not use its decision up. At any later time of any run, while that decision
      is the newest one, it reactivates the asset again exactly when the asset is retired again and
      the same approval still stands; nothing of the new retirement has to be approved for reuse. */
  lemma ReuseIsNotConsumed(ws: seq<World>, events: seq<Event>, storage: map<Text, Text>, i: nat, j: nat, k: nat,
                           approvals: ApprovalTable, again: ReactivateCommand)
    requires Run(ws, events, storage) && i < j < |ws| && Reuses(ws, events, i, k, again.asset)
    requires forall id | id in approvals :: WellFormed(approvals[id].request.context)
    requires NewestReuse(ws[j].disposals, approvals, again.asset, k)
    requires !Blank(again.evidence) && !Blank(again.checksum)
    ensures var d := ws[i].disposals[k];
            && ws[j].disposals[k] == d
            && AttestedBy(events[i].approvals[d.approval].request, ReuseTerms(again.asset))
            && (Reactivate(ws[j], approvals, again).Ok?
                <==> && again.asset in ws[j].assets && ws[j].assets[again.asset].state == Retired
                     && ws[j].assets[again.asset].version == again.version
                     && AttestedBy(approvals[d.approval].request, ReuseTerms(again.asset)))
  {
    DisposalsGrow(ws, events, storage, i, j);
    assert ws[j].disposals[k] == ws[i].disposals[k];
    assert Follows(ws, events, storage, i);
    DecidedOn(ws[i], events[i].approvals, again.asset, k);
    DecidedOn(ws[j], approvals, again.asset, k);
    ReactivatesExactly(ws[i], events[i].approvals, events[i].step.reactivate);
    ReactivatesExactly(ws[j], approvals, again);
  }

  lemma DecidedOn(w: World, approvals: ApprovalTable, a: Id, k: nat)
    requires NewestReuse(w.disposals, approvals, a, k)
    ensures ReuseDecided(w, approvals, a) <==> AttestedBy(approvals[w.disposals[k].approval].request, ReuseTerms(a))
  {
    if ReuseDecided(w, approvals, a) {
      var i :| 0 <= i < |w.disposals| && DecidedAt(w, approvals, a, i);
      assert i == k;
    }
    assert AttestedBy(approvals[w.disposals[k].approval].request, ReuseTerms(a)) ==> DecidedAt(w, approvals, a, k);
  }

  /** Every reactivation can be followed by another retirement and a second reactivation on the same
      decision: it takes a new candidate and its approved retirement, and nothing else. */
  lemma ReusedAgain(w: World, approvals: ApprovalTable, storage: map<Text, Text>, c: ReactivateCommand,
                    retire: RetireCommand)
    requires Inv(w, storage) && Reactivate(w, approvals, c).Ok?
    requires forall id | id in approvals :: WellFormed(approvals[id].request.context)
    requires retire.asset == c.asset && retire.record !in w.retirements && WellFormed(References(retire.clearances))
    requires retire.recordVersion == Some(1) && retire.version == c.version + 1
    requires RetirementCleared(References(retire.clearances))
    requires Attested(approvals, retire.approval, AssetRetirement, retire.record, RetireTerms(retire))
    ensures var available := After(w, approvals, Reactivating(c));
            var candidate := After(available, approvals, Candidacy(c.asset, retire.record));
            var retired := After(candidate, approvals, Retiring(retire, Facts(false, false, false)));
            retired.disposals == w.disposals && Reactivate(retired, approvals, c.(version := c.version + 2)).Ok?
  {
    var available := After(w, approvals, Reactivating(c));
    ReactivateDoes(w, approvals, c);
    CandidateAccepted(w, available, c.asset, retire.record, storage);
    CandidateRetired(w, available, approvals, c, retire);
  }

  lemma ReactivateDoes(w: World, approvals: ApprovalTable, c: ReactivateCommand)
    requires Reactivate(w, approvals, c).Ok?
    ensures c.asset in w.assets && w.assets[c.asset].state == Retired
    ensures After(w, approvals, Reactivating(c))
            == w.(assets := w.assets[c.asset := Asset(Available, true, c.version + 1)])
  {
  }

  lemma CandidateRetired(w: World, available: World, approvals: ApprovalTable, c: ReactivateCommand,
                         retire: RetireCommand)
    requires Reactivate(w, approvals, c).Ok?
             && available == w.(assets := w.assets[c.asset := Asset(Available, true, c.version + 1)])
    requires forall id | id in approvals :: WellFormed(approvals[id].request.context)
    requires retire.asset == c.asset && WellFormed(References(retire.clearances))
             && RetirementCleared(References(retire.clearances))
    requires retire.recordVersion == Some(1) && retire.version == c.version + 1
    requires Attested(approvals, retire.approval, AssetRetirement, retire.record, RetireTerms(retire))
    requires CreateCandidate(available, c.asset, retire.record)
          == Ok(available.(retirements := w.retirements[retire.record := Retirement(c.asset, Candidate, 1)]))
    ensures var candidate := After(available, approvals, Candidacy(c.asset, retire.record));
            var retired := After(candidate, approvals, Retiring(retire, Facts(false, false, false)));
            retired.disposals == w.disposals && Reactivate(retired, approvals, c.(version := c.version + 2)).Ok?
  {
    var candidate := available.(retirements := w.retirements[retire.record := Retirement(c.asset, Candidate, 1)]);
    RetiredAgain(candidate, approvals, retire);
    SecondReuse(w, After(candidate, approvals, Retiring(retire, Facts(false, false, false))), approvals, c);
  }

  lemma RetiredAgain(w: World, approvals: ApprovalTable, c: RetireCommand)
    requires forall id | id in approvals :: WellFormed(approvals[id].request.context)
    requires WellFormed(References(c.clearances))
    requires c.record in w.retirements && w.retirements[c.record] == Retirement(c.asset, Candidate, 1)
    requires c.asset in w.assets && w.assets[c.asset] == Asset(Available, true, c.version) && c.recordVersion == Some(1)
    requires RetirementCleared(References(c.clearances))
    requires Attested(approvals, c.approval, AssetRetirement, c.record, RetireTerms(c))
    ensures var next := After(w, approvals, Retiring(c, Facts(false, false, false)));
            && next.disposals == w.disposals && c.asset in next.assets
            && next.assets[c.asset] == Asset(Retired, true, c.version + 1)
  {
    AttestedExactly(approvals, c.approval, AssetRetirement, c.record, RetireTerms(c));
  }

  /** What reactivates depends on the asset and the dispositions alone. */
  lemma SecondReuse(w: World, later: World, approvals: ApprovalTable, c: ReactivateCommand)
    requires Reactivate(w, approvals, c).Ok? && later.disposals == w.disposals
    requires c.asset in later.assets && later.assets[c.asset].state == Retired
    requires later.assets[c.asset].version == c.version + 2
    ensures Reactivate(later, approvals, c.(version := c.version + 2)).Ok?
  {
  }

  lemma CandidateAccepted(w: World, available: World, a: Id, record: Id, storage: map<Text, Text>)
    requires Inv(w, storage) && a in w.assets && w.assets[a].state == Retired && record !in w.retirements
    requires available.retirements == w.retirements && a in available.assets
    requires available.assets[a].state == Available && available.assets[a].unassigned
    ensures CreateCandidate(available, a, record)
         == Ok(available.(retirements := w.retirements[record := Retirement(a, Candidate, 1)]))
  {
  }

  lemma ReactivatedProven(ws: seq<World>, events: seq<Event>, storage: map<Text, Text>, i: nat, a: Id)
    requires Run(ws, events, storage) && i < |events|
    requires events[i].step.Reactivating? && Outcome(ws[i], events[i].approvals, events[i].step).Ok?
    requires a == events[i].step.reactivate.asset
    ensures PassedOnEvidence(ws[i].jobs, a, storage) && WipeProven(ws[i].jobs, a)
  {
    InvAlways(ws, events, storage, i);
    assert Follows(ws, events, storage, i);
    ReactivateDemands(ws[i], events[i].approvals, storage, events[i].step.reactivate);
  }

  lemma WipedRefuses(w: World, approvals: ApprovalTable, c: WipeCommand, firstRow: Option<Id>, agent: Option<Id>)
    requires Chained(w.jobs) && Wiped(w.jobs, c.asset)
    ensures StartWipe(w, approvals, c, firstRow, agent).Err?
  {
    WipedBarsRetry(w.jobs, c.asset, c.means, c.approval);
  }

  lemma PassedIsWiped(jobs: seq<WipeJob>, a: Id, storage: map<Text, Text>)
    requires PassedOnEvidence(jobs, a, storage)
    ensures Wiped(jobs, a)
  {
  }

  lemma OldWipeBars(w: World, later: World, storage: map<Text, Text>, approvals: ApprovalTable, wipe: WipeCommand,
                    firstRow: Option<Id>, agent: Option<Id>)
    requires Inv(w, storage) && Inv(later, storage) && History(later.jobs, wipe.asset) == History(w.jobs, wipe.asset)
    requires WipeProven(w.jobs, wipe.asset) && Wiped(w.jobs, wipe.asset)
    ensures WipeProven(later.jobs, wipe.asset) && StartWipe(later, approvals, wipe, firstRow, agent).Err?
  {
    ProvenByHistory(w.jobs, later.jobs, wipe.asset);
    WipedAlike(w.jobs, later.jobs, wipe.asset);
    WipedRefuses(later, approvals, wipe, firstRow, agent);
  }

  /** After a reactivation the wipe made before it counts for good: no other can ever start, and
      whenever the asset is retired again it can be disposed of or reused on that old wipe. */
  lemma OldWipeCountsAgain(ws: seq<World>, events: seq<Event>, storage: map<Text, Text>, i: nat, j: nat,
                           approvals: ApprovalTable, wipe: WipeCommand, firstRow: Option<Id>, agent: Option<Id>)
    requires Run(ws, events, storage) && i <= j < |ws| && i < |events|
    requires events[i].step.Reactivating? && Outcome(ws[i], events[i].approvals, events[i].step).Ok?
    requires wipe.asset == events[i].step.reactivate.asset
    ensures History(ws[j].jobs, wipe.asset) == History(ws[i].jobs, wipe.asset)
    ensures WipeProven(ws[j].jobs, wipe.asset) && PassedOnEvidence(ws[i].jobs, wipe.asset, storage)
    ensures StartWipe(ws[j], approvals, wipe, firstRow, agent).Err?
  {
    ReactivatedProven(ws, events, storage, i, wipe.asset);
    PassedIsWiped(ws[i].jobs, wipe.asset, storage);
    CompletedWipeIsLast(ws, events, storage, i, j, wipe.asset);
    InvAlways(ws, events, storage, i);
    InvAlways(ws, events, storage, j);
    OldWipeBars(ws[i], ws[j], storage, approvals, wipe, firstRow, agent);
  }
}
