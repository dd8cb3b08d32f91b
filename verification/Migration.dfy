/** The migration runner, failing at any point of any run, and the gate that reads what it left. */
module Migration {
  import opened Wrappers
  import opened Sequences

  type Name = string

  type Checksum = string

  datatype Entry = Entry(name: Name, checksum: Checksum)

  /** Committed state: the table of applied migrations and the scripts that made the schema, in
      the order in which they took effect. */
  datatype Store = Store(applied: map<Name, Checksum>, ran: seq<Entry>)

  datatype Failure = InvalidSteps | Broken | Changed(name: Name)

  /** Where the step for one file breaks; a lost COMMIT may or may not have landed. */
  datatype Fault = Unreadable | SelectFails | BeginFails | ScriptFails | InsertFails | CommitLost(landed: bool)

  datatype StepLimit = Unset | Malformed | Steps(count: nat)

  function Limit(manifest: seq<Entry>, limit: StepLimit): Result<seq<Entry>, Failure> {
    match limit
    case Unset => Ok(manifest)
    case Malformed => Err(InvalidSteps)
    case Steps(n) => if 1 <= n <= |manifest| then Ok(manifest[..n]) else Err(InvalidSteps)
  }

  function Apply(s: Store, e: Entry): Store {
    Store(s.applied[e.name := e.checksum], s.ran + [e])
  }

  datatype Ended = Ended(store: Store, failure: Option<Failure>)

  function Attempt(s: Store, e: Entry, fault: Option<Fault>): Ended {
    if fault == Some(Unreadable) || fault == Some(SelectFails) then Ended(s, Some(Broken))
    else if e.name in s.applied then Ended(s, if s.applied[e.name] == e.checksum then None else Some(Changed(e.name)))
    else
      match fault
      case None => Ended(Apply(s, e), None)
      case Some(CommitLost(landed)) => Ended(if landed then Apply(s, e) else s, Some(Broken))
      case _ => Ended(s, Some(Broken))
  }

  /** The loop from the `i`-th file on. */
  function RunFrom(s: Store, manifest: seq<Entry>, faults: nat -> Option<Fault>, i: nat): Ended
    requires i <= |manifest|
    decreases |manifest| - i
  {
    if i == |manifest| then Ended(s, None)
    else
      var step := Attempt(s, manifest[i], faults(i));
      if step.failure.Some? then step else RunFrom(step.store, manifest, faults, i + 1)
  }

  function Migrated(s: Store, manifest: seq<Entry>, limit: StepLimit, connected: bool,
                    faults: nat -> Option<Fault>): Ended
  {
    match Limit(manifest, limit)
    case Err(e) => Ended(s, Some(e))
    case Ok(limited) => if connected then RunFrom(s, limited, faults, 0) else Ended(s, Some(Broken))
  }

  /** The database: what is committed, and the work of an open transaction. */
  class Database {
    var committed: Store
    var open: Option<Store>

    constructor ()
      ensures committed == Store(map[], []) && open == None
    {
      committed := Store(map[], []);
      open := None;
    }

    method Migrate(manifest: seq<Entry>, limit: StepLimit, connected: bool, faults: nat -> Option<Fault>)
      returns (failure: Option<Failure>)
      requires open == None
      modifies this
      ensures Ended(committed, failure) == Migrated(old(committed), manifest, limit, connected, faults)
      ensures open == None
    {
      var limited := manifest;
      match Limit(manifest, limit) {
        case Err(e) => return Some(e);
        case Ok(m) => limited := m;
      }
      if !connected {
        return Some(Broken);
      }
      for i := 0 to |limited|
        invariant open == None
        invariant RunFrom(committed, limited, faults, i) == RunFrom(old(committed), limited, faults, 0)
      {
        var e, fault := limited[i], faults(i);
        if fault == Some(Unreadable) || fault == Some(SelectFails) {
          return Some(Broken);
        }
        if e.name in committed.applied {
          if committed.applied[e.name] != e.checksum {
            return Some(Changed(e.name));
          }
          continue;
        }
        if fault == Some(BeginFails) {
          return Some(Broken);
        }
        open := Some(committed);
        failure := Transact(e, fault);
        if failure.Some? {
          open := None;
          return;
        }
      }
      return None;
    }

    /** The statements between BEGIN and COMMIT. */
    method Transact(e: Entry, fault: Option<Fault>) returns (failure: Option<Failure>)
      requires open == Some(committed) && e.name !in committed.applied
      requires fault != Some(Unreadable) && fault != Some(SelectFails) && fault != Some(BeginFails)
      modifies this
      ensures Ended(committed, failure) == Attempt(old(committed), e, fault)
      ensures failure == None ==> open == None
    {
      if fault == Some(ScriptFails) {
        return Some(Broken);
      }
      open := Some(open.value.(ran := open.value.ran + [e]));
      if fault == Some(InsertFails) {
        return Some(Broken);
      }
      open := Some(open.value.(applied := open.value.applied[e.name := e.checksum]));
      if fault.Some? && !fault.value.landed {
        return Some(Broken);
      }
      committed, open := open.value, None;
      return if fault == None then None else Some(Broken);
    }
  }

  // ----- Prefixes -----

  /** `new Map(rows)`: the last row of a name wins. */
  function Table(rows: seq<Entry>): map<Name, Checksum> {
    if rows == [] then map[]
    else
      var n := |rows| - 1;
      Table(rows[..n])[rows[n].name := rows[n].checksum]
  }

  ghost predicate Distinct(rows: seq<Entry>) {
    forall i, j | 0 <= i < j < |rows| :: rows[i].name != rows[j].name
  }

  /** The first so many scripts of the manifest ran, in order, once each, and the table says so. */
  ghost predicate IsPrefixOf(s: Store, manifest: seq<Entry>) {
    s.ran <= manifest && s.applied == Table(s.ran)
  }

  lemma {:induction false} TableRows(rows: seq<Entry>, e: Entry)
    requires Distinct(rows)
    ensures e in rows <==> e.name in Table(rows) && Table(rows)[e.name] == e.checksum
    ensures e.name in Table(rows) <==> exists i | 0 <= i < |rows| :: rows[i].name == e.name
  {
    if rows != [] {
      var n := |rows| - 1;
      TableRows(rows[..n], e);
      assert rows == rows[..n] + [rows[n]];
      if e.name == rows[n].name {
        assert forall i | 0 <= i < n :: rows[..n][i].name != rows[n].name;
      } else if exists i | 0 <= i < |rows| :: rows[i].name == e.name {
        var i :| 0 <= i < |rows| && rows[i].name == e.name;
        assert rows[..n][i].name == e.name;
      }
    }
  }

  lemma TableOneMore(before: seq<Entry>, last: Entry)
    ensures Table(before + [last]) == Table(before)[last.name := last.checksum]
    ensures |Table(before + [last])| == |Table(before)| + if last.name in Table(before) then 0 else 1
  {
    assert (before + [last])[..|before|] == before;
    var keys := Table(before).Keys;
    assert Table(before)[last.name := last.checksum].Keys == keys + {last.name};
    assert |keys + {last.name}| == |keys| + if last.name in keys then 0 else 1;
  }

  lemma DistinctOneMore(before: seq<Entry>, last: Entry)
    ensures Distinct(before + [last])
       <==> Distinct(before) && forall i | 0 <= i < |before| :: before[i].name != last.name
  {
    var rows := before + [last];
    assert forall i | 0 <= i < |before| :: rows[i] == before[i];
    assert rows[|before|] == last;
  }

  lemma {:induction false} TableSize(rows: seq<Entry>)
    ensures |Table(rows)| <= |rows|
    ensures |Table(rows)| == |rows| <==> Distinct(rows)
  {
    if rows != [] {
      var before, last := rows[..|rows| - 1], rows[|rows| - 1];
      assert rows == before + [last];
      TableSize(before);
      TableOneMore(before, last);
      DistinctOneMore(before, last);
      if Distinct(before) {
        TableRows(before, last);
      }
    }
  }

  /** What is committed is a prefix at least as long as before and no longer than `n` files need, and
      without a failure those are all applied; a change of a file is never reported. */
  ghost predicate Progress(s: Store, end: Ended, manifest: seq<Entry>, n: nat) {
    && IsPrefixOf(end.store, manifest) && s.ran <= end.store.ran
    && |end.store.ran| <= (if |s.ran| < n then n else |s.ran|)
    && (end.failure == None ==> n <= |end.store.ran|)
    && (end.failure == None || end.failure == Some(Broken))
  }

  lemma ProgressGoesOn(s: Store, mid: Store, end: Ended, manifest: seq<Entry>, i: nat, n: nat)
    requires i < n && Progress(s, Ended(mid, None), manifest, i + 1) && Progress(mid, end, manifest, n)
    ensures Progress(s, end, manifest, n)
  {
  }

  lemma RunUnfolds(s: Store, manifest: seq<Entry>, n: nat, faults: nat -> Option<Fault>, i: nat)
    requires i < n <= |manifest|
    ensures var step := Attempt(s, manifest[i], faults(i));
            RunFrom(s, manifest[..n], faults, i)
            == if step.failure == None then RunFrom(step.store, manifest[..n], faults, i + 1) else step
  {
    assert manifest[..n][i] == manifest[i];
  }

  /** The loop moves along the manifest: wherever it breaks off, what is committed is a prefix at
      least as long as before, and a run that does not fail has applied all its files. */
  lemma {:induction false} RunKeepsPrefix(s: Store, manifest: seq<Entry>, n: nat, faults: nat -> Option<Fault>, i: nat)
    requires Distinct(manifest) && i <= n <= |manifest| && IsPrefixOf(s, manifest) && i <= |s.ran|
    ensures Progress(s, RunFrom(s, manifest[..n], faults, i), manifest, n)
    decreases n - i
  {
    if i < n {
      RunUnfolds(s, manifest, n, faults, i);
      AttemptKeepsPrefix(s, manifest, faults(i), i);
      var step := Attempt(s, manifest[i], faults(i));
      if step.failure == None {
        RunKeepsPrefix(step.store, manifest, n, faults, i + 1);
        ProgressGoesOn(s, step.store, RunFrom(s, manifest[..n], faults, i), manifest, i, n);
      }
    }
  }

  lemma PrefixExtends(s: Store, manifest: seq<Entry>)
    requires IsPrefixOf(s, manifest) && |s.ran| < |manifest|
    ensures IsPrefixOf(Apply(s, manifest[|s.ran|]), manifest) && s.ran <= Apply(s, manifest[|s.ran|]).ran
  {
    var n := |s.ran|;
    assert s.ran + [manifest[n]] == manifest[..n + 1];
    assert (s.ran + [manifest[n]])[..n] == s.ran;
  }

  /** A file of the manifest is on record exactly if it is one of those that ran. */
  lemma OnRecord(s: Store, manifest: seq<Entry>, i: nat)
    requires Distinct(manifest) && i < |manifest| && IsPrefixOf(s, manifest)
    ensures manifest[i].name in s.applied <==> i < |s.ran|
    ensures i < |s.ran| ==> s.applied[manifest[i].name] == manifest[i].checksum
  {
    assert forall j | 0 <= j < |s.ran| :: s.ran[j] == manifest[j];
    TableRows(s.ran, manifest[i]);
    if i < |s.ran| {
      assert s.ran[i] == manifest[i];
    }
  }

  lemma AttemptKeepsPrefix(s: Store, manifest: seq<Entry>, fault: Option<Fault>, i: nat)
    requires Distinct(manifest) && i < |manifest| && IsPrefixOf(s, manifest) && i <= |s.ran|
    ensures Progress(s, Attempt(s, manifest[i], fault), manifest, i + 1)
  {
    OnRecord(s, manifest, i);
    if i == |s.ran| {
      PrefixExtends(s, manifest);
    }
  }

  // ----- Any sequence of runs -----

  datatype Deployment = Deployment(limit: StepLimit, connected: bool, faults: nat -> Option<Fault>)

  function Deployed(s: Store, manifest: seq<Entry>, runs: seq<Deployment>): Store
    decreases |runs|
  {
    if runs == [] then s
    else Deployed(Migrated(s, manifest, runs[0].limit, runs[0].connected, runs[0].faults).store, manifest, runs[1..])
  }

  /** How many files of the manifest a limit covers, and whether it is one at all. */
  ghost predicate Covers(manifest: seq<Entry>, limit: StepLimit, n: nat) {
    (limit == Unset && n == |manifest|) || (limit == Steps(n) && 1 <= n <= |manifest|)
  }

  /** A run stops at its limit: from a prefix, wherever it breaks off, it leaves a prefix at least as
      long as before that ends at the limit unless it ended behind it already. */
  lemma MigrationKeepsPrefix(s: Store, manifest: seq<Entry>, limit: StepLimit, connected: bool,
                             faults: nat -> Option<Fault>)
    requires Distinct(manifest) && IsPrefixOf(s, manifest)
    ensures var end := Migrated(s, manifest, limit, connected, faults);
            && IsPrefixOf(end.store, manifest) && s.ran <= end.store.ran
            && (end.failure == None ==>
                  limit != Malformed && (if limit == Unset then |manifest| else limit.count) <= |end.store.ran|)
            && (limit.Steps? ==> |end.store.ran| <= |s.ran| || |end.store.ran| <= limit.count)
            && (forall name :: end.failure != Some(Changed(name)))
  {
    var n := if limit.Steps? && limit.count <= |manifest| then limit.count else |manifest|;
    assert manifest[..|manifest|] == manifest;
    RunKeepsPrefix(s, manifest, n, faults, 0);
  }

  /** A run is refused, with nothing done, exactly if its limit covers no part of the manifest. With a
      connection and no fault every other run succeeds and leaves the files that the limit covers,
      unless more of them had run before. */
  lemma LimitedRunExactly(s: Store, manifest: seq<Entry>, limit: StepLimit, connected: bool,
                          faults: nat -> Option<Fault>, n: nat)
    requires Distinct(manifest) && IsPrefixOf(s, manifest)
    ensures var end := Migrated(s, manifest, limit, connected, faults);
            && (end.failure == Some(InvalidSteps) <==> forall m :: !Covers(manifest, limit, m))
            && (end.failure == Some(InvalidSteps) || !connected ==> end.store == s && end.failure.Some?)
            && (Covers(manifest, limit, n) && connected && (forall i | 0 <= i < n :: faults(i) == None) ==>
                  && end.failure == None
                  && end.store.ran == if n <= |s.ran| then s.ran else manifest[..n])
  {
    var end := Migrated(s, manifest, limit, connected, faults);
    assert manifest[..|manifest|] == manifest;
    if limit == Unset {
      assert Covers(manifest, limit, |manifest|);
      RunKeepsPrefix(s, manifest, |manifest|, faults, 0);
    } else if limit.Steps? && 1 <= limit.count <= |manifest| {
      assert Covers(manifest, limit, limit.count);
      RunKeepsPrefix(s, manifest, limit.count, faults, 0);
    }
    if Covers(manifest, limit, n) && connected && forall i | 0 <= i < n :: faults(i) == None {
      FaultlessSucceeds(s, manifest, n, faults, 0);
      assert end.store.ran == manifest[..|end.store.ran|];
    }
  }

  lemma {:induction false} FaultlessSucceeds(s: Store, manifest: seq<Entry>, n: nat, faults: nat -> Option<Fault>,
                                             i: nat)
    requires Distinct(manifest) && i <= n <= |manifest| && IsPrefixOf(s, manifest) && i <= |s.ran|
    requires forall j | i <= j < n :: faults(j) == None
    ensures RunFrom(s, manifest[..n], faults, i).failure == None
    decreases n - i
  {
    if i < n {
      RunUnfolds(s, manifest, n, faults, i);
      AttemptKeepsPrefix(s, manifest, faults(i), i);
      OnRecord(s, manifest, i);
      FaultlessSucceeds(Attempt(s, manifest[i], faults(i)).store, manifest, n, faults, i + 1);
    }
  }

  /** However often runs fail, with whatever limits, what is committed stays a growing prefix. */
  lemma {:induction false} DeploymentsKeepPrefix(s: Store, manifest: seq<Entry>, runs: seq<Deployment>)
    requires Distinct(manifest) && IsPrefixOf(s, manifest)
    ensures IsPrefixOf(Deployed(s, manifest, runs), manifest) && s.ran <= Deployed(s, manifest, runs).ran
    decreases |runs|
  {
    if runs != [] {
      MigrationKeepsPrefix(s, manifest, runs[0].limit, runs[0].connected, runs[0].faults);
      DeploymentsKeepPrefix(Migrated(s, manifest, runs[0].limit, runs[0].connected, runs[0].faults).store, manifest,
                            runs[1..]);
    }
  }

  /** A schema built by folding scripts over an empty database. */
  function Fold<S>(empty: S, script: (S, Entry) -> S, ran: seq<Entry>): S {
    if ran == [] then empty else script(Fold(empty, script, ran[..|ran| - 1]), ran[|ran| - 1])
  }

  /** Two databases with equal tables have equal schemas, whatever happened on the way. */
  lemma TableDeterminesSchema<S>(empty: S, script: (S, Entry) -> S, manifest: seq<Entry>, one: seq<Deployment>,
                                 other: seq<Deployment>)
    requires Distinct(manifest)
    ensures var a, b := Deployed(Store(map[], []), manifest, one), Deployed(Store(map[], []), manifest, other);
            a.applied == b.applied ==> Fold(empty, script, a.ran) == Fold(empty, script, b.ran)
  {
    DeploymentsKeepPrefix(Store(map[], []), manifest, one);
    DeploymentsKeepPrefix(Store(map[], []), manifest, other);
    var a, b := Deployed(Store(map[], []), manifest, one), Deployed(Store(map[], []), manifest, other);
    TableSize(a.ran);
    TableSize(b.ran);
    if a.applied == b.applied {
      assert a.ran == manifest[..|a.ran|] && b.ran == manifest[..|b.ran|];
    }
  }

  // ----- Completed runs, from any state -----

  /** The files that a run has to execute, in manifest order. */
  function Missing(manifest: seq<Entry>, applied: map<Name, Checksum>): seq<Entry> {
    if manifest == [] then []
    else
      var n := |manifest| - 1;
      Missing(manifest[..n], applied) + if manifest[n].name in applied then [] else [manifest[n]]
  }

  /** A run that completes has executed what was missing and nothing else, also from a state that
      is no prefix. */
  lemma {:induction false} CompletedRunsMissing(s: Store, manifest: seq<Entry>, faults: nat -> Option<Fault>,
                                                now: Store, i: nat)
    requires Distinct(manifest) && i <= |manifest|
    requires now.ran == s.ran + Missing(manifest[..i], s.applied)
    requires forall j | i <= j < |manifest| :: manifest[j].name in now.applied <==> manifest[j].name in s.applied
    requires RunFrom(now, manifest, faults, i).failure == None
    ensures RunFrom(now, manifest, faults, i).store.ran == s.ran + Missing(manifest, s.applied)
    decreases |manifest| - i
  {
    if i == |manifest| {
      assert manifest[..i] == manifest;
    } else {
      var next := Attempt(now, manifest[i], faults(i)).store;
      assert manifest[..i + 1][..i] == manifest[..i];
      CompletedRunsMissing(s, manifest, faults, next, i + 1);
    }
  }

  lemma {:induction false} CompletedIsApplied(s: Store, manifest: seq<Entry>, faults: nat -> Option<Fault>, i: nat,
                                              name: Name, j: nat)
    requires i <= |manifest| && RunFrom(s, manifest, faults, i).failure == None
    ensures name in s.applied ==> name in RunFrom(s, manifest, faults, i).store.applied
                                  && RunFrom(s, manifest, faults, i).store.applied[name] == s.applied[name]
    ensures i <= j < |manifest| ==> manifest[j].name in RunFrom(s, manifest, faults, i).store.applied
                                    && RunFrom(s, manifest, faults, i).store.applied[manifest[j].name]
                                       == manifest[j].checksum
    decreases |manifest| - i
  {
    if i < |manifest| {
      var next := Attempt(s, manifest[i], faults(i)).store;
      CompletedIsApplied(next, manifest, faults, i + 1, name, j);
      CompletedIsApplied(next, manifest, faults, i + 1, manifest[i].name, j);
    }
  }

  /** The step for a file goes by: it is on record as it is, or nothing hinders it. */
  predicate Passes(applied: map<Name, Checksum>, e: Entry, fault: Option<Fault>) {
    if e.name in applied then applied[e.name] == e.checksum && fault != Some(Unreadable) && fault != Some(SelectFails)
    else fault == None
  }

  /** Why a run stops at a file, and whether that file took effect all the same. */
  ghost predicate Stopped(applied: map<Name, Checksum>, e: Entry, fault: Option<Fault>, failure: Option<Failure>,
                          last: seq<Entry>)
  {
    && (failure == Some(Changed(e.name)) <==>
          e.name in applied && applied[e.name] != e.checksum && fault != Some(Unreadable)
          && fault != Some(SelectFails))
    && (failure == Some(Changed(e.name)) || failure == Some(Broken))
    && last == (if e.name !in applied && fault == Some(CommitLost(true)) then [e] else [])
  }

  /** From any state a run ends at the first file that does not pass. It has executed what was missing
      before that file, and the file itself only if its commit landed unseen; it reports a change of
      the file exactly if the file is on record otherwise and could be compared. */
  lemma {:induction false} RunStopsExactly(s: Store, manifest: seq<Entry>, faults: nat -> Option<Fault>, now: Store,
                                           i: nat, k: nat) returns (last: seq<Entry>)
    requires Distinct(manifest) && i <= k <= |manifest|
    requires now.ran == s.ran + Missing(manifest[..i], s.applied)
    requires forall j | i <= j < |manifest| ::
               && (manifest[j].name in now.applied <==> manifest[j].name in s.applied)
               && (manifest[j].name in s.applied ==> now.applied[manifest[j].name] == s.applied[manifest[j].name])
    requires forall j | i <= j < k :: Passes(s.applied, manifest[j], faults(j))
    requires k < |manifest| ==> !Passes(s.applied, manifest[k], faults(k))
    ensures var end := RunFrom(now, manifest, faults, i);
            && end.store.ran == s.ran + Missing(manifest[..k], s.applied) + last
            && (if k == |manifest| then end.failure == None && last == []
                else Stopped(s.applied, manifest[k], faults(k), end.failure, last))
    decreases |manifest| - i
  {
    if i < k {
      var next := Attempt(now, manifest[i], faults(i)).store;
      assert manifest[..i + 1][..i] == manifest[..i];
      last := RunStopsExactly(s, manifest, faults, next, i + 1, k);
    } else if k < |manifest| && manifest[k].name !in s.applied && faults(k) == Some(CommitLost(true)) {
      last := [manifest[k]];
    } else {
      last := [];
    }
  }

  /** The table goes with what ran, whatever happens in a run. */
  lemma {:induction false} TableGoesAlong(s: Store, manifest: seq<Entry>, faults: nat -> Option<Fault>, i: nat)
    requires i <= |manifest| && s.applied == Table(s.ran)
    ensures var end := RunFrom(s, manifest, faults, i).store; end.applied == Table(end.ran)
    decreases |manifest| - i
  {
    if i < |manifest| {
      var step := Attempt(s, manifest[i], faults(i));
      TableOneMore(s.ran, manifest[i]);
      if step.failure == None {
        TableGoesAlong(step.store, manifest, faults, i + 1);
      }
    }
  }

  /** Once a run has completed, no later run of the same manifest executes anything. */
  lemma CompletedRunIsFinal(s: Store, manifest: seq<Entry>, faults: nat -> Option<Fault>, again: nat -> Option<Fault>)
    requires RunFrom(s, manifest, faults, 0).failure == None
    ensures RunFrom(RunFrom(s, manifest, faults, 0).store, manifest, again, 0).store
            == RunFrom(s, manifest, faults, 0).store
  {
    forall j | 0 <= j < |manifest| ensures Has(RunFrom(s, manifest, faults, 0).store, manifest[j]) {
      CompletedIsApplied(s, manifest, faults, 0, manifest[j].name, j);
    }
    NothingLeft(RunFrom(s, manifest, faults, 0).store, manifest, again, 0);
  }

  predicate Has(s: Store, e: Entry) {
    e.name in s.applied && s.applied[e.name] == e.checksum
  }

  lemma {:induction false} NothingLeft(s: Store, manifest: seq<Entry>, faults: nat -> Option<Fault>, i: nat)
    requires i <= |manifest| && forall j | i <= j < |manifest| :: Has(s, manifest[j])
    ensures RunFrom(s, manifest, faults, i).store == s
    decreases |manifest| - i
  {
    if i < |manifest| {
      NothingLeft(s, manifest, faults, i + 1);
    }
  }

  // ----- The gate -----

  /** `isPrefix` over the rows of the applied table. */
  predicate Gate(expected: seq<Entry>, rows: seq<Entry>) {
    var count, applied := |rows|, Table(rows);
    && count <= |expected|
    && (forall i | 0 <= i < count :: expected[i].name in applied && applied[expected[i].name] == expected[i].checksum)
    && |applied| == count
  }

  /** The gate accepts exactly the tables that hold a prefix of the manifest and nothing else. */
  lemma GateExactly(expected: seq<Entry>, rows: seq<Entry>)
    requires Distinct(expected)
    ensures Gate(expected, rows)
       <==> Distinct(rows) && exists k | 0 <= k <= |expected| :: Table(rows) == Table(expected[..k])
  {
    TableSize(rows);
    if Gate(expected, rows) {
      GateFindsPrefix(expected, rows);
    }
    if Distinct(rows) && exists k | 0 <= k <= |expected| :: Table(rows) == Table(expected[..k]) {
      var k :| 0 <= k <= |expected| && Table(rows) == Table(expected[..k]);
      TableSize(expected[..k]);
      forall i | 0 <= i < k
        ensures expected[i].name in Table(rows) && Table(rows)[expected[i].name] == expected[i].checksum
      {
        assert expected[..k][i] == expected[i];
        TableRows(expected[..k], expected[i]);
      }
    }
  }

  /** So the gate accepts whatever any sequence of runs leaves behind. */
  lemma DeploymentsPassGate(manifest: seq<Entry>, runs: seq<Deployment>, rows: seq<Entry>)
    requires Distinct(manifest) && Distinct(rows) && Table(rows) == Deployed(Store(map[], []), manifest, runs).applied
    ensures Gate(manifest, rows)
  {
    DeploymentsKeepPrefix(Store(map[], []), manifest, runs);
    var ran := Deployed(Store(map[], []), manifest, runs).ran;
    assert ran == manifest[..|ran|];
    GateExactly(manifest, rows);
  }

  lemma GateFindsPrefix(expected: seq<Entry>, rows: seq<Entry>)
    requires Distinct(expected) && Gate(expected, rows)
    ensures Table(rows) == Table(expected[..|rows|])
  {
    var applied, prefix := Table(rows), expected[..|rows|];
    TableSize(prefix);
    forall name | name in Table(prefix) ensures name in applied && applied[name] == Table(prefix)[name] {
      var e := Entry(name, Table(prefix)[name]);
      TableRows(prefix, e);
      var i :| 0 <= i < |prefix| && prefix[i] == e;
      assert expected[i] == e;
    }
    assert Table(prefix).Keys <= applied.Keys;
    assert |Table(prefix).Keys| == |Table(prefix)| && |applied.Keys| == |applied|;
    SubsetSize(Table(prefix).Keys, applied.Keys);
    assert Table(prefix) == applied;
  }

  /** After a completed run of a new manifest the scripts ran in its order exactly when what had
      run before is a prefix of it; the gate sees only the table. */
  lemma InOrderExactly(s: Store, manifest: seq<Entry>, faults: nat -> Option<Fault>)
    requires Distinct(manifest) && Distinct(s.ran) && s.applied == Table(s.ran)
    requires RunFrom(s, manifest, faults, 0).failure == None
    ensures RunFrom(s, manifest, faults, 0).store.ran == manifest <==> s.ran <= manifest
  {
    CompletedRunsMissing(s, manifest, faults, s, 0);
    if s.ran <= manifest {
      MissingAfterPrefix(s.ran, manifest, |manifest|);
      assert manifest[..|manifest|] == manifest;
    }
  }

  lemma {:induction false} MissingAfterPrefix(ran: seq<Entry>, manifest: seq<Entry>, n: nat)
    requires Distinct(manifest) && ran <= manifest && |ran| <= n <= |manifest|
    ensures ran + Missing(manifest[..n], Table(ran)) == manifest[..n]
    decreases n
  {
    assert forall i | 0 <= i < |ran| :: ran[i] == manifest[i];
    if n == |ran| {
      NoneMissing(ran, n);
      assert manifest[..n] == ran;
      assert ran[..n] == ran;
    } else {
      MissingAfterPrefix(ran, manifest, n - 1);
      TableRows(ran, manifest[n - 1]);
      assert manifest[..n][..n - 1] == manifest[..n - 1];
      assert manifest[..n] == manifest[..n - 1] + [manifest[n - 1]];
    }
  }

  lemma {:induction false} NoneMissing(ran: seq<Entry>, n: nat)
    requires Distinct(ran) && n <= |ran|
    ensures Missing(ran[..n], Table(ran)) == []
  {
    if n > 0 {
      NoneMissing(ran, n - 1);
      TableRows(ran, ran[n - 1]);
      assert ran[..n][..n - 1] == ran[..n - 1];
    }
  }

  lemma TableOfThree(a: Entry, b: Entry, c: Entry)
    ensures Table([a, b]) == map[a.name := a.checksum][b.name := b.checksum]
    ensures Table([a, b, c]) == map[a.name := a.checksum][b.name := b.checksum][c.name := c.checksum]
  {
    TableOneMore([], a);
    TableOneMore([a], b);
    TableOneMore([a, b], c);
    assert [] + [a] == [a] && [a] + [b] == [a, b] && [a, b] + [c] == [a, b, c];
  }

  lemma GateTakes(a: Entry, b: Entry, c: Entry)
    requires a.name != b.name && b.name != c.name && a.name != c.name
    ensures Table([a, c, b]) == Table([a, b, c]) == Table([a, c])[b.name := b.checksum] && Gate([a, b, c], [a, c, b])
  {
    TableOfThree(a, b, c);
    TableOfThree(a, c, b);
    TableSize([a, c, b]);
  }

  /** A file added in the middle of the manifest runs last, and the gate accepts the result. */
  lemma GateIgnoresOrder()
    ensures var a, b, c := Entry("a", "1"), Entry("b", "2"), Entry("c", "3");
            var end := RunFrom(Store(Table([a, c]), [a, c]), [a, b, c], _ => None, 0);
            && end.failure == None && end.store.ran == [a, c, b]
            && end.store.applied == Table([a, b, c]) && Gate([a, b, c], end.store.ran)
  {
    var a, b, c := Entry("a", "1"), Entry("b", "2"), Entry("c", "3");
    var none: nat -> Option<Fault> := _ => None;
    var s := Store(Table([a, c]), [a, c]);
    assert [a, c][..1] == [a] && [a][..0] == [];
    assert Table([a]) == map["a" := "1"];
    assert s.applied == map["a" := "1", "c" := "3"];
    var t := Apply(s, b);
    assert RunFrom(s, [a, b, c], none, 0) == RunFrom(s, [a, b, c], none, 1) == RunFrom(t, [a, b, c], none, 2)
      == RunFrom(t, [a, b, c], none, 3);
    GateTakes(a, b, c);
  }
}
