/** What an accepted command leaves behind, row by row, and what follows from it later in a run. */
module AssetLifecycleEffects {
  import opened Wrappers
  import opened JsonText
  import opened Approvals
  import opened AssetLifecycle
  import opened AssetLifecycleProofs

  // ----- Reports decide -----

  /** Event `i` is an accepted report on the job in row `k`, which is one of asset `a`. */
  ghost predicate Reports(ws: seq<World>, events: seq<Event>, i: nat, k: nat, a: Id) {
    && i < |events| && i < |ws| && events[i].step.Reporting?
    && Outcome(ws[i], events[i].approvals, events[i].step).Ok?
    && k < |ws[i].jobs| && ws[i].jobs[k].asset == a
    && ClaimOf(ws[i].jobs[k], events[i].step.reporter, events[i].step.job)
  }

  /** A reported job is the last of its asset, and stays so if it completed. */
  lemma StoredIsLast(jobs: seq<WipeJob>, changed: seq<WipeJob>, k: nat)
    requires Chained(jobs) && Chained(changed) && k < |jobs| == |changed| && jobs[k].state == JobClaimed
    requires changed[k].asset == jobs[k].asset && forall m | 0 <= m < |jobs| && m != k :: changed[m] == jobs[m]
    ensures var h := History(changed, jobs[k].asset); h != [] && h[|h| - 1] == changed[k]
    ensures Latest(changed, jobs[k].asset) == Some(changed[k])
  {
    var a := jobs[k].asset;
    assert changed == jobs[k := changed[k]];
    UnfailedIsLast(jobs, k);
    HistoryOfUpdate(jobs, k, changed[k], a);
    assert Chain(History(changed, a));
    LatestIsLast(changed, a);
  }

  lemma ReportStored(ws: seq<World>, events: seq<Event>, storage: map<Text, Text>, i: nat, next: nat, k: nat, a: Id)
    requires Run(ws, events, storage) && Reports(ws, events, i, k, a) && next == i + 1
    ensures var step := events[i].step;
            && step.outcome.Some? && EvidenceChecked(storage, step.outcome, step.evidence)
            && Stored(ws[i], ws[next], k, step.outcome.value, step.evidence, step.key)
            && (step.evidence.Some? ==> Sha256(step.evidence.value.checksum))
  {
    var step := events[i].step;
    InvAlways(ws, events, storage, i);
    assert Follows(ws, events, storage, i);
    ReportsGoThrough(ws[i], storage, step.reporter, step.job, step.version, step.outcome, step.evidence, step.key);
  }

  lemma StoredProves(w: World, next: World, storage: map<Text, Text>, k: nat, outcome: WipeResult,
                     evidence: Option<Evidence>, key: Text)
    requires Chained(w.jobs) && Chained(next.jobs) && k < |w.jobs| && w.jobs[k].state == JobClaimed
    requires Stored(w, next, k, outcome, evidence, key) && EvidenceChecked(storage, Some(outcome), evidence)
    requires evidence.Some? ==> Sha256(evidence.value.checksum)
    ensures var h := History(next.jobs, w.jobs[k].asset); h != [] && h[|h| - 1] == next.jobs[k]
    ensures WipeProven(next.jobs, w.jobs[k].asset) <==> outcome == Pass
  {
    StoredIsLast(w.jobs, next.jobs, k);
  }

  /** The state right behind a report: its row is the last of the asset, and it is proof of a wipe
      exactly if it passed. */
  lemma ReportConcludes(ws: seq<World>, events: seq<Event>, storage: map<Text, Text>, i: nat, next: nat, k: nat, a: Id)
    requires Run(ws, events, storage) && Reports(ws, events, i, k, a) && next == i + 1
    ensures var h := History(ws[next].jobs, a);
            h != [] && h[|h| - 1].result == events[i].step.outcome
            && (h[|h| - 1].state == JobCompleted <==> events[i].step.outcome != Some(Fail))
    ensures WipeProven(ws[next].jobs, a) <==> events[i].step.outcome == Some(Pass)
  {
    InvAlways(ws, events, storage, i);
    InvAlways(ws, events, storage, next);
    ReportStored(ws, events, storage, i, next, k, a);
    var step := events[i].step;
    StoredProves(ws[i], ws[next], storage, k, step.outcome.value, step.evidence, step.key);
  }

  /** A report other than a failure decides for good: from then on the wipe of the asset is proven if
      it passed, and never if it was NOT_APPLICABLE or PHYSICAL_DESTRUCTION_REQUIRED. */
  lemma ReportDecides(ws: seq<World>, events: seq<Event>, storage: map<Text, Text>, i: nat, j: nat, k: nat, a: Id)
    requires Run(ws, events, storage) && Reports(ws, events, i, k, a) && i < j < |ws|
    requires events[i].step.outcome != Some(Fail)
    ensures WipeProven(ws[j].jobs, a) <==> events[i].step.outcome == Some(Pass)
  {
    var next := i + 1;
    ReportConcludes(ws, events, storage, i, next, k, a);
    CompletedWipeIsLast(ws, events, storage, next, j, a);
    InvAlways(ws, events, storage, next);
    InvAlways(ws, events, storage, j);
    ProvenByHistory(ws[next].jobs, ws[j].jobs, a);
  }

  lemma ReuseNeedsProof(w: World, storage: map<Text, Text>, approvals: ApprovalTable, c: ReactivateCommand)
    requires Inv(w, storage) && Reactivate(w, approvals, c).Ok?
    ensures WipeProven(w.jobs, c.asset)
  {
    var k :| 0 <= k < |w.disposals| && ReuseOf(w.disposals[k], approvals, c.asset);
    assert Documented(w.disposals[k], w.retirements, w.jobs);
  }

  /** Once an agent has reported that a wipe does not apply or that the medium has to be destroyed, no
      disposition but destruction and no reactivation of the asset is ever accepted. */
  lemma ReportBindsDisposal(ws: seq<World>, events: seq<Event>, storage: map<Text, Text>, i: nat, j: nat, k: nat,
                            approvals: ApprovalTable, c: DisposeCommand, licensed: bool, reuse: ReactivateCommand)
    requires Run(ws, events, storage) && Reports(ws, events, i, k, c.asset) && i < j < |ws|
    requires events[i].step.outcome in {Some(NotApplicable), Some(PhysicalDestructionRequired)}
    requires reuse.asset == c.asset
    ensures Dispose(ws[j], approvals, c, licensed).Ok? ==> c.means == Destroy
    ensures Reactivate(ws[j], approvals, reuse).Err?
  {
    ReportDecides(ws, events, storage, i, j, k, c.asset);
    DisposeNeedsProof(ws[j], approvals, c, licensed);
    InvAlways(ws, events, storage, j);
    if Reactivate(ws[j], approvals, reuse).Ok? {
      ReuseNeedsProof(ws[j], storage, approvals, reuse);
    }
  }

  // ----- What an approval has to say -----

  predicate ApprovedByAnother(request: Request) {
    && request.state == Approved && request.approvedBy.Some? && request.approvedBy.value != []
    && request.approvedBy.value != request.requestedBy
  }

  /** A request for this source row, approved by somebody other than who made it. */
  predicate Given(approvals: ApprovalTable, id: Id, source: Source, sourceId: Id) {
    && id in approvals && approvals[id].source == source && approvals[id].sourceId == sourceId
    && ApprovedByAnother(approvals[id].request)
  }

  /** A retirement is approved for the asset and with the clearances that the command gives. */
  lemma RetirementIsApproved(approvals: ApprovalTable, c: RetireCommand)
    ensures Attested(approvals, c.approval, AssetRetirement, c.record, RetireTerms(c))
       <==> && Given(approvals, c.approval, AssetRetirement, c.record)
            && var context := approvals[c.approval].request.context;
               && Records(context, Ascii("asset_id"), String(c.asset))
               && Records(context, Ascii("clearances"), References(c.clearances))
  {
    var terms := RetireTerms(c);
    assert terms[0] == Field(Ascii("asset_id"), String(c.asset));
    assert terms[1] == Field(Ascii("clearances"), References(c.clearances));
  }

  /** A wipe is approved for the asset, the retirement and the method. */
  lemma WipeIsApproved(approvals: ApprovalTable, c: WipeCommand)
    ensures Attested(approvals, c.approval, DataWipe, c.record, WipeTerms(c))
       <==> && Given(approvals, c.approval, DataWipe, c.record)
            && var context := approvals[c.approval].request.context;
               && Records(context, Ascii("asset_id"), String(c.asset))
               && Records(context, Ascii("retirement_record_id"), String(c.record))
               && Records(context, Ascii("method"), WipeName(c.means))
  {
    var terms := WipeTerms(c);
    assert terms[0] == Field(Ascii("asset_id"), String(c.asset));
    assert terms[1] == Field(Ascii("retirement_record_id"), String(c.record));
    assert terms[2] == Field(Ascii("method"), WipeName(c.means));
  }

  /** A disposition is approved for the asset, the retirement, the method and the clearances. */
  lemma DisposalIsApproved(approvals: ApprovalTable, c: DisposeCommand)
    ensures Attested(approvals, c.approval, AssetDisposal, c.record, DisposeTerms(c))
       <==> && Given(approvals, c.approval, AssetDisposal, c.record)
            && var context := approvals[c.approval].request.context;
               && Records(context, Ascii("asset_id"), String(c.asset))
               && Records(context, Ascii("retirement_record_id"), String(c.record))
               && Records(context, Ascii("method"), DisposalName(c.means))
               && Records(context, Ascii("cleanup_clearances"), References(c.clearances))
  {
    var terms := DisposeTerms(c);
    assert terms[0] == Field(Ascii("asset_id"), String(c.asset));
    assert terms[1] == Field(Ascii("retirement_record_id"), String(c.record));
    assert terms[2] == Field(Ascii("method"), DisposalName(c.means));
    assert terms[3] == Field(Ascii("cleanup_clearances"), References(c.clearances));
  }

  /** What a reactivation asks of the decision that it rests on. */
  lemma ReuseIsApproved(request: Request, a: Id)
    ensures AttestedBy(request, ReuseTerms(a))
       <==> && ApprovedByAnother(request) && Records(request.context, Ascii("asset_id"), String(a))
            && Records(request.context, Ascii("method"), DisposalName(ReuseInternal))
  {
    var terms := ReuseTerms(a);
    assert terms[0] == Field(Ascii("asset_id"), String(a));
    assert terms[1] == Field(Ascii("method"), DisposalName(ReuseInternal));
  }

  function DisposalLength(m: DisposalMethod): nat {
    match m
    case ReuseInternal => 14
    case Sell => 4
    case Recycle => 7
    case ReturnVendor => 13
    case Donate => 6
    case Destroy => 7
  }

  lemma DisposalShape(m: DisposalMethod)
    ensures DisposalName(m).String? && |DisposalName(m).s| == DisposalLength(m)
    ensures m == Recycle ==> DisposalName(m).s[0] == 82
    ensures m == Destroy ==> DisposalName(m).s[0] == 68
  {
    assert |"REUSE_INTERNAL"| == 14 && |"SELL"| == 4 && |"RECYCLE"| == 7 && |"RETURN_VENDOR"| == 13;
    assert "RECYCLE"[0] == 'R' && "DESTROY"[0] == 'D';
  }

  function WipeLength(m: WipeMethod): nat {
    match m
    case CryptographicErase => 19
    case NistClear => 10
    case NistPurge => 10
    case PhysicalDestruction => 20
  }

  lemma WipeShape(m: WipeMethod)
    ensures WipeName(m).String? && |WipeName(m).s| == WipeLength(m)
    ensures m == NistClear ==> WipeName(m).s[5] == 67
    ensures m == NistPurge ==> WipeName(m).s[5] == 80
  {
    assert "NIST_CLEAR"[5] == 'C' && "NIST_PURGE"[5] == 'P';
  }

  /** No two methods go by one name, so that an approval of one is none of another. */
  lemma NamesDiffer(wipe: WipeMethod, other: WipeMethod, means: DisposalMethod, another: DisposalMethod)
    ensures Mean(WipeName(wipe)) == Mean(WipeName(other)) ==> wipe == other
    ensures Mean(DisposalName(means)) == Mean(DisposalName(another)) ==> means == another
  {
    WipeShape(wipe);
    WipeShape(other);
    DisposalShape(means);
    DisposalShape(another);
  }

  /** Some character of it is no white space. */
  predicate Speaks(t: Text) {
    exists j | 0 <= j < |t| :: !Whitespace(t[j])
  }

  /** A clearance is given exactly by an object that names something under its key. */
  lemma ClearedExactly(body: Option<Json>, key: string)
    requires body.Some? ==> WellFormed(body.value)
    ensures Cleared(References(body), key)
       <==> && body.Some? && body.value.Object?
            && exists i | 0 <= i < |body.value.fields| ::
                 var f := body.value.fields[i]; f.key == Ascii(key) && f.value.String? && Speaks(f.value.s)
  {
    if body.Some? && body.value.Object? {
      LookupFinds(body.value.fields, Ascii(key));
    }
  }

  // ----- Candidates and retirements -----

  /** A candidate is taken exactly for an asset in use or in stock that has no other pending; it is
      blocked exactly if the asset is assigned or in use. */
  lemma CandidatesExactly(w: World, asset: Id, record: Id)
    ensures var r := CreateCandidate(w, asset, record);
            && (r.Ok? <==> && asset in w.assets
                           && w.assets[asset].state in {Available, Returned, Repair, Assigned, InUse}
                           && record !in w.retirements
                           && forall other | other in w.retirements && w.retirements[other].asset == asset ::
                                w.retirements[other].state == Completed)
            && (r == Err(NotFound) <==> asset !in w.assets)
            && (r == Err(RuleViolation)
                <==> asset in w.assets && w.assets[asset].state !in {Available, Returned, Repair, Assigned, InUse})
            && (r.Ok? ==>
                  var free := w.assets[asset].unassigned && w.assets[asset].state in {Available, Returned, Repair};
                  r.value == w.(retirements := w.retirements[record :=
                                  Retirement(asset, if free then Candidate else Blocked, 1)]))
  {
  }

  /** What a retirement asks for before it looks at what may block it. */
  ghost predicate Presented(w: World, approvals: ApprovalTable, c: RetireCommand) {
    && c.record in w.retirements && w.retirements[c.record].asset == c.asset
    && w.retirements[c.record].state != Completed && c.recordVersion == Some(w.retirements[c.record].version)
    && c.asset in w.assets && w.assets[c.asset].version == c.version
    && Attested(approvals, c.approval, AssetRetirement, c.record, RetireTerms(c))
  }

  predicate Unblocked(w: World, c: RetireCommand, facts: Facts)
    requires c.asset in w.assets
  {
    && w.assets[c.asset].unassigned && !facts.licensed && !facts.inMaintenance && !facts.inIncident
    && Cleared(References(c.clearances), "legal_hold") && Cleared(References(c.clearances), "retention")
    && Cleared(References(c.clearances), "financial") && Cleared(References(c.clearances), "incident")
  }

  /** A retirement that is in order completes, with asset and record one version on, or it is recorded
      as blocked, with the asset untouched; without a blocker it needs an asset in stock. */
  lemma RetirementEnds(w: World, approvals: ApprovalTable, c: RetireCommand, facts: Facts)
    requires forall a | a in approvals :: WellFormed(approvals[a].request.context)
    requires WellFormed(References(c.clearances))
    ensures var r := Retire(w, approvals, c, facts);
            && (r.Ok? <==> Presented(w, approvals, c)
                           && (Unblocked(w, c, facts) ==> w.assets[c.asset].state in {Available, Returned, Repair}))
            && (r.Ok? ==>
                  var record, a := w.retirements[c.record], w.assets[c.asset];
                  r.value == if Unblocked(w, c, facts)
                             then w.(assets := w.assets[c.asset := Asset(Retired, a.unassigned, a.version + 1)],
                                     retirements := w.retirements[c.record :=
                                                      Retirement(c.asset, Completed, record.version + 1)])
                             else w.(retirements := w.retirements[c.record :=
                                                      Retirement(c.asset, Blocked, record.version + 1)]))
  {
    AttestedExactly(approvals, c.approval, AssetRetirement, c.record, RetireTerms(c));
    if c.asset in w.assets {
      UnblockedExactly(w, c, facts);
    }
  }

  lemma UnblockedExactly(w: World, c: RetireCommand, facts: Facts)
    requires c.asset in w.assets
    ensures Unblocked(w, c, facts) <==> !RetirementBlocked(w.assets[c.asset], facts, References(c.clearances))
  {
  }

  /** The state of a new candidate foretells whether a retirement in order, with nothing else in its
      way, completes at once. */
  lemma CandidateForetells(w: World, approvals: ApprovalTable, c: RetireCommand)
    requires forall a | a in approvals :: WellFormed(approvals[a].request.context)
    requires WellFormed(References(c.clearances)) && CreateCandidate(w, c.asset, c.record).Ok?
    requires var next := CreateCandidate(w, c.asset, c.record).value;
             Presented(next, approvals, c) && RetirementCleared(References(c.clearances))
    ensures var next := CreateCandidate(w, c.asset, c.record).value;
            var r := Retire(next, approvals, c, Facts(false, false, false));
            next.retirements[c.record].state == Candidate
            <==> r.Ok? && r.value.assets[c.asset].state == Retired
  {
    CandidatesExactly(w, c.asset, c.record);
    var next := CreateCandidate(w, c.asset, c.record).value;
    RetirementEnds(next, approvals, c, Facts(false, false, false));
  }

  // ----- Wipes, from the command to the proof -----

  /** A wipe that starts queues one job, the next of its asset, and its operation. */
  lemma WipeQueues(w: World, storage: map<Text, Text>, approvals: ApprovalTable, c: WipeCommand,
                   firstRow: Option<Id>, agent: Option<Id>)
    requires Inv(w, storage) && StartWipe(w, approvals, c, firstRow, agent).Ok?
    ensures agent.Some? && c.job !in w.operations
    ensures var generation := |History(w.jobs, c.asset)| + 1;
            var row := WipeJob(c.job, c.asset, c.record, agent.value, JobQueued, c.means, generation, c.approval, 1,
                               None, None, None);
            StartWipe(w, approvals, c, firstRow, agent).value
            == w.(jobs := w.jobs + [row], operations := w.operations[c.job := Operation(OpQueued, 1)])
  {
    WipeDoes(w, approvals, c, firstRow, agent);
    assert Chain(History(w.jobs, c.asset));
    LatestIsLast(w.jobs, c.asset);
  }

  predicate Takes(job: WipeJob, agent: Id, methods: set<WipeMethod>, locked: set<Id>) {
    job.agent == agent && job.state == JobQueued && job.means in methods && job.id !in locked
  }

  /** A claim takes the oldest job that is queued for the agent, within its methods and not locked, and
      sets its operation running; without such a job it changes nothing. */
  lemma ClaimsExactly(w: World, storage: map<Text, Text>, agent: Id, methods: set<WipeMethod>, locked: set<Id>, i: nat)
    requires Inv(w, storage) && i <= |w.jobs|
    requires forall k | 0 <= k < i :: !Takes(w.jobs[k], agent, methods, locked)
    requires i < |w.jobs| ==> Takes(w.jobs[i], agent, methods, locked)
    ensures Claim(w, agent, methods, locked)
         == Ok(if i == |w.jobs| then w
               else w.(jobs := w.jobs[i := w.jobs[i].(state := JobClaimed, version := 2)],
                       operations := w.operations[w.jobs[i].id := Operation(OpRunning, 2)]))
  {
    assert Claimable(w.jobs, agent, methods, locked) == i;
    if i < |w.jobs| {
      assert Paired(w.jobs[i], w.operations[w.jobs[i].id]);
    }
  }

  /** The agent of a wipe that has started can claim it, once no older job of its is left to claim, and
      its report of success with checked evidence is proof of the wipe. */
  lemma WipePasses(w: World, storage: map<Text, Text>, approvals: ApprovalTable, c: WipeCommand,
                   firstRow: Option<Id>, agent: Id, methods: set<WipeMethod>, locked: set<Id>, evidence: Evidence,
                   key: Text)
    requires Inv(w, storage) && FirstCompleted(w.retirements, c.asset, firstRow)
    requires StartWipe(w, approvals, c, firstRow, Some(agent)).Ok?
    requires c.means in methods && c.job !in locked
    requires forall k | 0 <= k < |w.jobs| :: !Takes(w.jobs[k], agent, methods, locked)
    requires forall k | 0 <= k < |w.jobs| && w.jobs[k].agent == agent :: w.jobs[k].reportKey != Some(key)
    requires Verified(storage, evidence) && Sha256(evidence.checksum)
    ensures var claimed := Claim(StartWipe(w, approvals, c, firstRow, Some(agent)).value, agent, methods, locked);
            && claimed.Ok?
            && var r := Report(claimed.value, agent, c.job, Some(2), Some(Pass), Some(evidence), key);
               r.Ok? && WipeProven(r.value.jobs, c.asset) && c.job in r.value.operations
               && r.value.operations[c.job].state == OpSucceeded
  {
    var queued := StartWipe(w, approvals, c, firstRow, Some(agent)).value;
    QueuedIsNext(w, queued, storage, approvals, c, firstRow, agent);
    WipingKeeps(w, approvals, storage, c, firstRow, Some(agent));
    ClaimPasses(queued, storage, agent, methods, locked, evidence, key, |w.jobs|);
  }

  lemma QueuedIsNext(w: World, queued: World, storage: map<Text, Text>, approvals: ApprovalTable, c: WipeCommand,
                     firstRow: Option<Id>, agent: Id)
    requires Inv(w, storage) && StartWipe(w, approvals, c, firstRow, Some(agent)) == Ok(queued)
    ensures |queued.jobs| == |w.jobs| + 1 && forall k | 0 <= k < |w.jobs| :: queued.jobs[k] == w.jobs[k]
    ensures var row := queued.jobs[|w.jobs|];
            && row.id == c.job && row.asset == c.asset && row.means == c.means && row.agent == agent
            && row.state == JobQueued && row.reportKey == None
  {
    WipeQueues(w, storage, approvals, c, firstRow, Some(agent));
  }

  lemma ClaimPasses(w: World, storage: map<Text, Text>, agent: Id, methods: set<WipeMethod>, locked: set<Id>,
                    evidence: Evidence, key: Text, i: nat)
    requires Inv(w, storage) && i < |w.jobs| && Takes(w.jobs[i], agent, methods, locked)
    requires forall k | 0 <= k < i :: !Takes(w.jobs[k], agent, methods, locked)
    requires forall k | 0 <= k < |w.jobs| && w.jobs[k].agent == agent :: w.jobs[k].reportKey != Some(key)
    requires Verified(storage, evidence) && Sha256(evidence.checksum)
    ensures var claimed := Claim(w, agent, methods, locked);
            && claimed.Ok?
            && var r := Report(claimed.value, agent, w.jobs[i].id, Some(2), Some(Pass), Some(evidence), key);
               r.Ok? && WipeProven(r.value.jobs, w.jobs[i].asset) && w.jobs[i].id in r.value.operations
               && r.value.operations[w.jobs[i].id].state == OpSucceeded
  {
    ClaimsExactly(w, storage, agent, methods, locked, i);
    ClaimingKeeps(w, storage, agent, methods, locked);
    var claimed := Claim(w, agent, methods, locked).value;
    PassIsProof(claimed, storage, agent, evidence, key, i);
  }

  lemma PassIsProof(w: World, storage: map<Text, Text>, agent: Id, evidence: Evidence, key: Text, i: nat)
    requires Inv(w, storage) && i < |w.jobs| && ClaimOf(w.jobs[i], agent, w.jobs[i].id) && w.jobs[i].version == 2
    requires forall k | 0 <= k < |w.jobs| && w.jobs[k].agent == agent :: w.jobs[k].reportKey != Some(key)
    requires Verified(storage, evidence) && Sha256(evidence.checksum)
    ensures var r := Report(w, agent, w.jobs[i].id, Some(2), Some(Pass), Some(evidence), key);
            r.Ok? && WipeProven(r.value.jobs, w.jobs[i].asset) && w.jobs[i].id in r.value.operations
            && r.value.operations[w.jobs[i].id].state == OpSucceeded
  {
    ReportsGoThrough(w, storage, agent, w.jobs[i].id, Some(2), Some(Pass), Some(evidence), key);
    ReportingKeeps(w, storage, agent, w.jobs[i].id, Some(2), Some(Pass), Some(evidence), key);
    var next := Report(w, agent, w.jobs[i].id, Some(2), Some(Pass), Some(evidence), key).value;
    StoredProves(w, next, storage, i, Pass, Some(evidence), key);
  }

  /** Evidence is taken exactly if the claim is held, all three parts are given and the object store has
      that object under that checksum, but for the case of letters; the stored checksum is kept. */
  lemma VerifiesExactly(w: World, storage: map<Text, Text>, agent: Id, job: Id, outcome: Option<WipeResult>,
                        document: Option<Text>, storageRef: Option<Text>, checksum: Option<Text>)
    requires outcome != Some(Fail)
    ensures var r := VerifyEvidence(w, storage, agent, job, outcome, document, storageRef, checksum);
            && (r.Ok? <==> && (exists i | 0 <= i < |w.jobs| :: ClaimOf(w.jobs[i], agent, job))
                           && document.Some? && Speaks(document.value)
                           && storageRef.Some? && Speaks(storageRef.value) && storageRef.value in storage
                           && checksum.Some? && Speaks(checksum.value)
                           && SameLetters(storage[storageRef.value], checksum.value))
            && (r.Ok? ==> r.value == Some(Evidence(document.value, storageRef.value, storage[storageRef.value])))
  {
    if storageRef.Some? && storageRef.value in storage && checksum.Some? {
      LowerExactly(storage[storageRef.value], checksum.value);
    }
    assert Bound(w.jobs, agent, job) <==> exists i | 0 <= i < |w.jobs| :: ClaimOf(w.jobs[i], agent, job);
  }

  predicate SameLetter(c: CodeUnit, d: CodeUnit) {
    c == d || (65 <= c <= 90 && d == c + 32) || (65 <= d <= 90 && c == d + 32)
  }

  /** Equal but for the case of ASCII letters. */
  predicate SameLetters(t: Text, u: Text) {
    |t| == |u| && forall i | 0 <= i < |t| :: SameLetter(t[i], u[i])
  }

  lemma LowerExactly(t: Text, u: Text)
    ensures Lower(t) == Lower(u) <==> SameLetters(t, u)
  {
    if Lower(t) == Lower(u) {
      assert |t| == |Lower(t)| && |u| == |Lower(u)|;
      forall i | 0 <= i < |t| ensures SameLetter(t[i], u[i]) {
        assert Lower(t)[i] == Lower(u)[i];
      }
    }
  }

  // ----- Dispositions and reactivation -----

  /** A disposition adds its row, with its approval; the asset is disposed of, one version on, unless it
      is reused. */
  lemma DisposalLeaves(w: World, approvals: ApprovalTable, c: DisposeCommand, licensed: bool)
    requires Dispose(w, approvals, c, licensed).Ok?
    ensures c.asset in w.assets
    ensures var next, a := Dispose(w, approvals, c, licensed).value, w.assets[c.asset];
            && next == w.(disposals := next.disposals, assets := next.assets)
            && next.disposals == w.disposals + [Disposal(c.id, c.asset, c.record, c.means, c.approval)]
            && (c.means == ReuseInternal ==> next.assets == w.assets)
            && (c.means != ReuseInternal ==>
                  next.assets == w.assets[c.asset := Asset(Disposed, a.unassigned, a.version + 1)])
  {
  }

  /** The piece of a text from `i` to `j`, with nothing but white space around it and none at its ends. */
  predicate Trimmed(t: Text, i: nat, j: nat) {
    && i <= j <= |t| && Blank(t[..i]) && Blank(t[j..])
    && (i < j ==> !Whitespace(t[i]) && !Whitespace(t[j - 1]))
  }

  lemma TrimmedFront(t: Text, k: nat, m: nat, i: nat, j: nat)
    requires t != [] && Whitespace(t[0]) && Trimmed(t[1..], k, m) && i == k + 1 && j == m + 1
    ensures Trimmed(t, i, j) && t[i..j] == t[1..][k..m]
  {
    assert t[..i] == [t[0]] + t[1..][..k];
    assert t[j..] == t[1..][m..];
  }

  lemma TrimmedBack(t: Text, n: nat, i: nat, j: nat)
    requires |t| == n + 1 && Whitespace(t[n]) && Trimmed(t[..n], i, j)
    ensures Trimmed(t, i, j) && t[i..j] == t[..n][i..j]
  {
    assert t[..i] == t[..n][..i];
    assert t[j..] == t[..n][j..] + [t[n]];
  }

  lemma {:induction false} TrimExactly(t: Text) returns (i: nat, j: nat)
    ensures Trimmed(t, i, j) && Trim(t) == t[i..j]
  {
    if t == [] {
      i, j := 0, 0;
    } else if Whitespace(t[0]) {
      var k, m := TrimExactly(t[1..]);
      i, j := k + 1, m + 1;
      TrimmedFront(t, k, m, i, j);
    } else if Whitespace(t[|t| - 1]) {
      var n := |t| - 1;
      i, j := TrimExactly(t[..n]);
      TrimmedBack(t, n, i, j);
    } else {
      i, j := 0, |t|;
    }
  }

  /** The checksum that a disposition or a completed wipe is stored with has 64 hexadecimal digits. */
  lemma ChecksumExactly(t: Text)
    ensures Sha256(t) <==> |t| == 64 && forall k | 0 <= k < |t| :: HexUnit(t[k])
  {
  }

  /** A digit or a letter from a to f in either case. */
  predicate HexUnit(c: CodeUnit) {
    || '0' as int <= c <= '9' as int || 'a' as int <= c <= 'f' as int || 'A' as int <= c <= 'F' as int
  }

  lemma NewestIsNew(disposals: seq<Disposal>, approvals: ApprovalTable, d: Disposal)
    requires ReuseOf(d, approvals, d.asset)
    ensures NewestReuse(disposals + [d], approvals, d.asset, |disposals|)
  {
  }

  lemma ReuseTermsAmong(request: Request, c: DisposeCommand)
    requires AttestedBy(request, DisposeTerms(c)) && c.means == ReuseInternal
    ensures AttestedBy(request, ReuseTerms(c.asset))
  {
    var terms, fewer := DisposeTerms(c), ReuseTerms(c.asset);
    assert fewer[0] == terms[0] && fewer[1] == terms[2];
    assert Records(request.context, terms[0].key, terms[0].value);
    assert Records(request.context, terms[2].key, terms[2].value);
  }

  /** A decision for internal reuse that was just accepted reactivates the asset, on the same approval,
      at the same version. */
  lemma ReuseReactivates(w: World, approvals: ApprovalTable, c: DisposeCommand, licensed: bool,
                         reuse: ReactivateCommand)
    requires forall a | a in approvals :: WellFormed(approvals[a].request.context)
    requires WellFormed(References(c.clearances))
    requires Dispose(w, approvals, c, licensed).Ok? && c.means == ReuseInternal
    requires reuse.asset == c.asset && reuse.version == c.version && Speaks(reuse.evidence) && Speaks(reuse.checksum)
    ensures var decided := Dispose(w, approvals, c, licensed).value;
            Reactivate(decided, approvals, reuse)
            == Ok(decided.(assets := w.assets[c.asset := Asset(Available, true, c.version + 1)]))
  {
    var decided := Dispose(w, approvals, c, licensed).value;
    DisposeDoes(w, approvals, c, licensed);
    DisposeTermsFormed(c);
    AttestedExactly(approvals, c.approval, AssetDisposal, c.record, DisposeTerms(c));
    ReuseTermsAmong(approvals[c.approval].request, c);
    ReusedAtOnce(w, decided, approvals, c, reuse);
  }

  lemma ReusedAtOnce(w: World, decided: World, approvals: ApprovalTable, c: DisposeCommand, reuse: ReactivateCommand)
    requires forall a | a in approvals :: WellFormed(approvals[a].request.context)
    requires c.asset in w.assets && w.assets[c.asset].state == Retired && w.assets[c.asset].version == c.version
    requires c.means == ReuseInternal && decided == Deciding(w, c)
    requires c.approval in approvals && approvals[c.approval].source == AssetDisposal
    requires AttestedBy(approvals[c.approval].request, ReuseTerms(c.asset))
    requires reuse.asset == c.asset && reuse.version == c.version && Speaks(reuse.evidence) && Speaks(reuse.checksum)
    ensures Reactivate(decided, approvals, reuse)
            == Ok(decided.(assets := w.assets[c.asset := Asset(Available, true, c.version + 1)]))
  {
    DecidedNow(w, decided, approvals, c);
    Reactivates(decided, approvals, reuse);
    ReactivatedTo(decided, approvals, reuse);
  }

  lemma Reactivates(w: World, approvals: ApprovalTable, c: ReactivateCommand)
    requires forall a | a in approvals :: WellFormed(approvals[a].request.context)
    requires ReuseDecided(w, approvals, c.asset) && Speaks(c.evidence) && Speaks(c.checksum)
    requires c.asset in w.assets && w.assets[c.asset].state == Retired && w.assets[c.asset].version == c.version
    ensures Reactivate(w, approvals, c).Ok?
  {
    NotBlank(c.evidence);
    NotBlank(c.checksum);
    ReactivatesExactly(w, approvals, c);
  }

  lemma NotBlank(t: Text)
    ensures Speaks(t) <==> !Blank(t)
  {
  }

  lemma DecidedNow(w: World, decided: World, approvals: ApprovalTable, c: DisposeCommand)
    requires c.asset in w.assets && c.means == ReuseInternal && decided == Deciding(w, c)
    requires c.approval in approvals && approvals[c.approval].source == AssetDisposal
    requires AttestedBy(approvals[c.approval].request, ReuseTerms(c.asset))
    ensures ReuseDecided(decided, approvals, c.asset) && decided.assets == w.assets
  {
    var d, k := Disposal(c.id, c.asset, c.record, c.means, c.approval), |w.disposals|;
    NewestIsNew(w.disposals, approvals, d);
    assert DecidedAt(decided, approvals, c.asset, k);
  }

  /** A reactivation makes the asset available and unassigned, one version on, and changes nothing else. */
  lemma ReactivatedTo(w: World, approvals: ApprovalTable, c: ReactivateCommand)
    requires Reactivate(w, approvals, c).Ok?
    ensures c.asset in w.assets && w.assets[c.asset].version == c.version
    ensures Reactivate(w, approvals, c)
         == Ok(w.(assets := w.assets[c.asset := Asset(Available, true, w.assets[c.asset].version + 1)]))
  {
  }

  // ----- Errors -----

  /** Stale versions are conflicts: a command on a retired asset answers with a version conflict exactly
      if the asset has moved on. */
  lemma StaleDisposal(w: World, approvals: ApprovalTable, c: DisposeCommand, licensed: bool)
    ensures Dispose(w, approvals, c, licensed) == Err(VersionConflict)
       <==> c.asset in w.assets && w.assets[c.asset].state == Retired && w.assets[c.asset].version != c.version
  {
  }

  lemma StaleReactivation(w: World, approvals: ApprovalTable, c: ReactivateCommand)
    ensures Reactivate(w, approvals, c) == Err(VersionConflict)
       <==> c.asset in w.assets && w.assets[c.asset].state == Retired && w.assets[c.asset].version != c.version
  {
  }

  lemma StaleWipe(w: World, approvals: ApprovalTable, c: WipeCommand, firstRow: Option<Id>, agent: Option<Id>)
    ensures StartWipe(w, approvals, c, firstRow, agent) == Err(VersionConflict)
       <==> c.asset in w.assets && w.assets[c.asset].state == Retired && w.assets[c.asset].version != c.version
  {
  }

  /** So does a report on a claim that the agent holds at another version; job and operation do not
      conflict otherwise. */
  lemma StaleReport(w: World, storage: map<Text, Text>, agent: Id, id: Id, version: Option<int>,
                    outcome: Option<WipeResult>, evidence: Option<Evidence>, key: Text)
    requires Inv(w, storage)
    ensures Report(w, agent, id, version, outcome, evidence, key) == Err(VersionConflict)
       <==> version.Some? && exists i | 0 <= i < |w.jobs| ::
              ClaimOf(w.jobs[i], agent, id) && w.jobs[i].version != version.value
  {
    var i := JobIndex(w.jobs, agent, id);
    JobIndexFinds(w.jobs, agent, id);
    if i < |w.jobs| {
      assert Paired(w.jobs[i], w.operations[id]);
    }
  }

  /** A report on a job that is not the agent's is not found; one that the tables refuse, for a used key or a
      checksum that is none, is a conflict of its own. */
  lemma ReportAnswers(w: World, storage: map<Text, Text>, agent: Id, id: Id, version: Option<int>,
                      outcome: Option<WipeResult>, evidence: Option<Evidence>, key: Text)
    requires Inv(w, storage) && EvidenceChecked(storage, outcome, evidence)
    ensures Report(w, agent, id, version, outcome, evidence, key) == Err(NotFound)
       <==> forall i | 0 <= i < |w.jobs| :: !(w.jobs[i].id == id && w.jobs[i].agent == agent)
    ensures Report(w, agent, id, version, outcome, evidence, key) == Err(DatabaseConflict)
       <==> && outcome.Some? && ClaimHeld(w.jobs, agent, id, version)
            && !(&& (forall k | 0 <= k < |w.jobs| && w.jobs[k].agent == agent :: w.jobs[k].reportKey != Some(key))
                 && (evidence.Some? ==> Sha256(evidence.value.checksum)))
  {
    var i := JobIndex(w.jobs, agent, id);
    JobIndexFinds(w.jobs, agent, id);
    if i < |w.jobs| {
      assert Paired(w.jobs[i], w.operations[id]) && Concluded(w.jobs[i], storage);
    }
  }

  /** Everything that a wipe asks for before it looks for an agent. */
  ghost predicate WipeInOrder(w: World, approvals: ApprovalTable, c: WipeCommand, firstRow: Option<Id>) {
    && c.asset in w.assets && w.assets[c.asset].state == Retired && w.assets[c.asset].version == c.version
    && firstRow == Some(c.record) && Attested(approvals, c.approval, DataWipe, c.record, WipeTerms(c))
  }

  lemma WipeRefused(w: World, approvals: ApprovalTable, c: WipeCommand, firstRow: Option<Id>, agent: Option<Id>)
    requires forall a | a in approvals :: WellFormed(approvals[a].request.context)
    ensures var refusal := WipeRefusal(w, approvals, c, firstRow, agent);
            && (refusal == Some(Unavailable) <==> WipeInOrder(w, approvals, c, firstRow) && agent == None)
            && (refusal == None <==> WipeInOrder(w, approvals, c, firstRow) && agent.Some?)
            && refusal != Some(InProgress)
  {
    AttestedExactly(approvals, c.approval, DataWipe, c.record, WipeTerms(c));
  }

  predicate UnderWay(h: seq<WipeJob>) {
    h != [] && h[|h| - 1].state in {JobQueued, JobClaimed}
  }

  lemma RepeatIsUnderWay(jobs: seq<WipeJob>, a: Id, means: WipeMethod, approval: Id)
    requires Chained(jobs)
    ensures RepeatRefusal(Latest(jobs, a), means, approval) == Some(InProgress) <==> UnderWay(History(jobs, a))
    ensures RepeatRefusal(Latest(jobs, a), means, approval) != Some(Unavailable)
  {
    assert Chain(History(jobs, a));
    LatestIsLast(jobs, a);
  }

  /** A wipe in order finds no agent, or an earlier one still under way. */
  lemma WipeAnswers(w: World, approvals: ApprovalTable, c: WipeCommand, firstRow: Option<Id>, agent: Option<Id>)
    requires Chained(w.jobs) && forall a | a in approvals :: WellFormed(approvals[a].request.context)
    ensures var r := StartWipe(w, approvals, c, firstRow, agent);
            && (r == Err(Unavailable) <==> WipeInOrder(w, approvals, c, firstRow) && agent == None)
            && (r == Err(InProgress)
                <==> WipeInOrder(w, approvals, c, firstRow) && agent.Some? && UnderWay(History(w.jobs, c.asset)))
  {
    WipeRefused(w, approvals, c, firstRow, agent);
    RepeatIsUnderWay(w.jobs, c.asset, c.means, c.approval);
  }

  /** An operation ends for good as succeeded, failed or cancelled; it succeeds only while it runs, and
      every step raises its version by one. */
  lemma OperationsMove(operations: map<Id, Operation>, id: Id, version: int, from: OperationState, to: OperationState)
    ensures var r := Transition(operations, id, version, from, to);
            && (r.Some? <==> && id in operations && operations[id] == Operation(from, version)
                             && from in {OpQueued, OpRunning, OpWaiting} && to != OpQueued
                             && (to == OpRunning ==> from != OpRunning)
                             && (to in {OpSucceeded, OpWaiting} ==> from == OpRunning)
                             && (to == OpFailed ==> from != OpQueued))
            && (r.Some? ==> r.value == operations[id := Operation(to, version + 1)])
  {
  }
}
