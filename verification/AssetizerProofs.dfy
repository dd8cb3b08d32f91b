/** One asset and one ASSET.CREATED event per unit over every interleaving of deliveries, failures
    and redeliveries by any number of workers; and how retries end. */
module AssetizerProofs {
  import opened Wrappers
  import opened Assetizer

  /** Each step is one transaction. A worker's check that a unit is due, its delivery, the inbox
      marker and the failure record are separate steps, so other workers may come in between. */
  datatype Step =
    | Posting(posted: Id, at: int)
    | Delivering(d: Delivery, luck: Luck)
    | Marking(marked: Delivery)
    | Failing(unit: Id, code: Code, now: int)
    | Foreign(asset: Id, identity: Identity)

  predicate Allowed(s: Store, step: Step) {
    match step
    case Delivering(d, _) => d.unit in s.units
    case Failing(unit, _, _) => unit in s.units
    case Foreign(asset, _) => asset !in s.assets
    case _ => true
  }

  function After(s: Store, step: Step): Store {
    if !Allowed(s, step) then s
    else
      match step
      case Posting(unit, at) => if unit in s.units then s else s.(units := s.units[unit := Unit(Pending, 0, at, None)])
      case Delivering(d, luck) =>
        (match Attempt(s, d, luck.identity, luck.drawn, luck.fault) case Ok(done) => done case Err(_) => s)
      case Marking(d) => MarkFailed(s, d)
      case Failing(unit, code, now) => RecordFailure(s, unit, code, now)
      case Foreign(asset, identity) => s.(assets := s.assets[asset := identity])
  }

  function AfterAll(s: Store, steps: seq<Step>): Store {
    if steps == [] then s else After(AfterAll(s, steps[..|steps| - 1]), steps[|steps| - 1])
  }

  // ----- The invariant -----

  ghost predicate UnitInv(s: Store, id: Id)
    requires id in s.units
  {
    var u := s.units[id];
    && (u.status == Registered <==> id in s.registrations)
    && u.asset == (if id in s.registrations then Some(s.registrations[id]) else None)
    && u.attempts <= MAX_ATTEMPTS
    && (u.status == Pending ==> u.attempts < MAX_ATTEMPTS)
    && (u.status == Failed ==> u.attempts > 0 && id in s.work)
  }

  ghost predicate EventsInv(s: Store) {
    && (forall i, j | 0 <= i < j < |s.created| ::
          s.created[i].unit != s.created[j].unit && s.created[i].asset != s.created[j].asset)
    && (forall i | 0 <= i < |s.created| ::
          && s.created[i].unit in s.registrations && s.registrations[s.created[i].unit] == s.created[i].asset
          && s.created[i].asset in s.assets)
    && (forall id | id in s.registrations :: exists i | 0 <= i < |s.created| :: s.created[i].unit == id)
  }

  ghost predicate Inv(s: Store) {
    && (forall id | id in s.units :: UnitInv(s, id))
    && (forall id | id in s.registrations :: id in s.units)
    && EventsInv(s)
    && (forall d | d in s.inbox && s.inbox[d] == Processed :: d.unit in s.registrations)
  }

  ghost predicate Initial(s: Store) {
    s.units == map[] && s.registrations == map[] && s.created == [] && s.inbox == map[]
  }

  lemma CreatingKeepsEvents(s: Store, unit: Id, asset: Id, identity: Identity)
    requires EventsInv(s) && unit !in s.registrations && asset !in s.assets
    ensures EventsInv(s.(registrations := s.registrations[unit := asset], assets := s.assets[asset := identity],
                         created := s.created + [Created(unit, asset)]))
  {
    var n := |s.created|;
    var created := s.created + [Created(unit, asset)];
    assert created[n].unit == unit;
    forall id | id in s.registrations ensures exists i | 0 <= i < |created| :: created[i].unit == id {
      var i :| 0 <= i < n && s.created[i].unit == id;
      assert created[i].unit == id;
    }
  }

  lemma RegisterKeeps(s: Store, d: Delivery)
    requires Inv(s) && d.unit in s.units && d.unit in s.registrations
    ensures Inv(Register(s, d, s.registrations[d.unit]))
  {
    var next := Register(s, d, s.registrations[d.unit]);
    assert UnitInv(s, d.unit);
    forall id | id in next.units ensures UnitInv(next, id) {
      assert UnitInv(s, id);
    }
  }

  lemma CreateKeeps(s: Store, d: Delivery, asset: Id, identity: Identity)
    requires Inv(s) && d.unit in s.units && d.unit !in s.registrations && asset !in s.assets
    ensures Inv(Create(s, d, asset, identity))
  {
    var next := Create(s, d, asset, identity);
    assert UnitInv(s, d.unit);
    CreatingKeepsEvents(s, d.unit, asset, identity);
    forall id | id in next.units ensures UnitInv(next, id) {
      assert UnitInv(s, id);
    }
  }

  lemma DeliveringKeeps(s: Store, d: Delivery, luck: Luck)
    requires Inv(s) && d.unit in s.units && Attempt(s, d, luck.identity, luck.drawn, luck.fault).Ok?
    ensures Inv(Attempt(s, d, luck.identity, luck.drawn, luck.fault).value)
  {
    if IsProcessed(s, d) {
    } else if d.unit in s.registrations {
      RegisterKeeps(s, d);
    } else {
      CreateKeeps(s, d, luck.drawn, luck.identity.value);
    }
  }

  /** A change of one unit that leaves it sound keeps the invariant. */
  lemma OneUnitKeeps(s: Store, unit: Id, u: Unit, work: set<Id>)
    requires Inv(s) && unit in s.units && s.work <= work
    requires UnitInv(s.(units := s.units[unit := u], work := work), unit)
    ensures Inv(s.(units := s.units[unit := u], work := work))
  {
    var next := s.(units := s.units[unit := u], work := work);
    forall id | id in next.units ensures UnitInv(next, id) {
      assert UnitInv(s, id);
    }
  }

  lemma FailureDoes(s: Store, unit: Id, code: Code, now: int) returns (u: Unit, work: set<Id>)
    requires unit in s.units && UnitInv(s, unit)
    ensures s.work <= work && RecordFailure(s, unit, code, now) == s.(units := s.units[unit := u], work := work)
    ensures UnitInv(s.(units := s.units[unit := u], work := work), unit)
  {
    var next := RecordFailure(s, unit, code, now);
    u, work := next.units[unit], next.work;
    assert next.units == s.units[unit := u];
  }

  lemma FailingKeeps(s: Store, unit: Id, code: Code, now: int)
    requires Inv(s) && unit in s.units
    ensures Inv(RecordFailure(s, unit, code, now))
  {
    assert UnitInv(s, unit);
    var u, work := FailureDoes(s, unit, code, now);
    OneUnitKeeps(s, unit, u, work);
  }

  lemma PostingKeeps(s: Store, unit: Id, at: int)
    requires Inv(s)
    ensures Inv(After(s, Posting(unit, at)))
  {
    var next := After(s, Posting(unit, at));
    forall id | id in next.units ensures UnitInv(next, id) {
      assert id in s.units ==> UnitInv(s, id);
    }
  }

  lemma MarkingKeeps(s: Store, d: Delivery)
    requires Inv(s)
    ensures Inv(MarkFailed(s, d))
  {
    forall id | id in s.units ensures UnitInv(MarkFailed(s, d), id) {
      assert UnitInv(s, id);
    }
  }

  lemma ForeignKeeps(s: Store, asset: Id, identity: Identity)
    requires Inv(s) && asset !in s.assets
    ensures Inv(s.(assets := s.assets[asset := identity]))
  {
    forall id | id in s.units ensures UnitInv(s.(assets := s.assets[asset := identity]), id) {
      assert UnitInv(s, id);
    }
  }

  lemma StepKeeps(s: Store, step: Step)
    requires Inv(s)
    ensures Inv(After(s, step))
  {
    if Allowed(s, step) {
      match step
      case Delivering(d, luck) =>
        if Attempt(s, d, luck.identity, luck.drawn, luck.fault).Ok? {
          DeliveringKeeps(s, d, luck);
        }
      case Failing(unit, code, now) => FailingKeeps(s, unit, code, now);
      case Posting(unit, at) => PostingKeeps(s, unit, at);
      case Marking(d) => MarkingKeeps(s, d);
      case Foreign(asset, identity) => ForeignKeeps(s, asset, identity);
    }
  }

  /** Every interleaving keeps the invariant. */
  lemma {:induction false} InvAlways(s: Store, steps: seq<Step>)
    requires Initial(s)
    ensures Inv(AfterAll(s, steps))
  {
    if steps != [] {
      InvAlways(s, steps[..|steps| - 1]);
      StepKeeps(AfterAll(s, steps[..|steps| - 1]), steps[|steps| - 1]);
    }
  }

  // ----- Exactly once -----

  function EventsOf(created: seq<Created>, unit: Id): nat {
    if created == [] then 0
    else EventsOf(created[..|created| - 1], unit) + if created[|created| - 1].unit == unit then 1 else 0
  }

  lemma {:induction false} CountEvents(created: seq<Created>, unit: Id)
    requires forall i, j | 0 <= i < j < |created| :: created[i].unit != created[j].unit
    ensures EventsOf(created, unit) == if exists i | 0 <= i < |created| :: created[i].unit == unit then 1 else 0
  {
    if created != [] {
      var n := |created| - 1;
      CountEvents(created[..n], unit);
      assert forall i | 0 <= i < n :: created[..n][i] == created[i];
    }
  }

  ghost predicate Once(s: Store, unit: Id, event: Id)
    requires unit in s.units
  {
    var u := s.units[unit];
    && EventsOf(s.created, unit) == (if u.status == Registered then 1 else 0)
    && (IsProcessed(s, Delivery(unit, event)) ==> u.status == Registered)
    && (u.status == Registered ==> u.asset.Some? && u.asset.value in s.assets)
  }

  lemma UnitOnce(s: Store, unit: Id, event: Id)
    requires Inv(s) && unit in s.units
    ensures Once(s, unit, event)
  {
    assert UnitInv(s, unit);
    CountEvents(s.created, unit);
  }

  lemma AssetsApart(s: Store, unit: Id, other: Id)
    requires Inv(s) && unit in s.units && other in s.units && unit != other && s.units[unit].asset.Some?
    ensures s.units[other].asset != s.units[unit].asset
  {
    assert UnitInv(s, unit) && UnitInv(s, other);
    var i :| 0 <= i < |s.created| && s.created[i].unit == unit;
    if other in s.registrations {
      var j :| 0 <= j < |s.created| && s.created[j].unit == other;
      assert s.created[i].asset != s.created[j].asset;
    }
  }

  /** A unit has exactly one ASSET.CREATED event once it is registered and none before, its inbox
      marker says the same, and no two units share an asset. */
  lemma ExactlyOnce(s: Store, steps: seq<Step>, unit: Id, other: Id, event: Id)
    requires Initial(s) && unit in AfterAll(s, steps).units
    ensures var now := AfterAll(s, steps);
            && Once(now, unit, event)
            && (other in now.units && other != unit && now.units[unit].asset.Some?
                ==> now.units[other].asset != now.units[unit].asset)
  {
    InvAlways(s, steps);
    var now := AfterAll(s, steps);
    UnitOnce(now, unit, event);
    if other in now.units && other != unit && now.units[unit].asset.Some? {
      AssetsApart(now, unit, other);
    }
  }

  lemma DeliveredAgain(s: Store, d: Delivery, luck: Luck, unit: Id)
    requires d.unit in s.units && unit in s.units && UnitInv(s, unit) && s.units[unit].status == Registered
    ensures var r := Attempt(s, d, luck.identity, luck.drawn, luck.fault);
            r.Ok? ==> unit in r.value.units && r.value.units[unit] == s.units[unit]
  {
  }

  lemma RegisteredStays(s: Store, step: Step, unit: Id)
    requires Inv(s) && unit in s.units && s.units[unit].status == Registered
    ensures unit in After(s, step).units && After(s, step).units[unit] == s.units[unit]
  {
    assert UnitInv(s, unit);
    if step.Delivering? && Allowed(s, step) {
      DeliveredAgain(s, step.d, step.luck, unit);
    }
  }

  /** A registered unit keeps its row, asset included, through whatever follows. */
  lemma {:induction false} RegisteredForever(s: Store, steps: seq<Step>, unit: Id)
    requires Inv(s) && unit in s.units && s.units[unit].status == Registered
    ensures Inv(AfterAll(s, steps))
    ensures unit in AfterAll(s, steps).units && AfterAll(s, steps).units[unit] == s.units[unit]
  {
    if steps != [] {
      var before := AfterAll(s, steps[..|steps| - 1]);
      RegisteredForever(s, steps[..|steps| - 1], unit);
      StepKeeps(before, steps[|steps| - 1]);
      RegisteredStays(before, steps[|steps| - 1], unit);
    }
  }

  /** A delivery that got through is known as processed from then on, and delivered again does nothing. */
  lemma {:induction false} ProcessedForever(s: Store, steps: seq<Step>, d: Delivery, luck: Luck)
    requires IsProcessed(s, d)
    ensures IsProcessed(AfterAll(s, steps), d)
    ensures After(AfterAll(s, steps), Delivering(d, luck)) == AfterAll(s, steps)
  {
    if steps != [] {
      ProcessedForever(s, steps[..|steps| - 1], d, luck);
    }
  }

  // ----- What a delivery does -----

  /** Nothing fails, procurement knows the unit, no asset has its model and serial number yet, and the
      id drawn for the asset is not in use. */
  ghost predicate Good(s: Store, luck: Luck) {
    && luck.fault == None && luck.identity.Some? && luck.drawn !in s.assets
    && forall a | a in s.assets :: s.assets[a] != luck.identity.value
  }

  /** The unit is registered with a new asset of its identity, and one event says so. */
  ghost predicate Registers(s: Store, next: Store, d: Delivery, luck: Luck)
    requires d.unit in s.units && luck.identity.Some?
  {
    var asset := luck.drawn;
    && next.units == s.units[d.unit := s.units[d.unit].(status := Registered, asset := Some(asset))]
    && next.registrations == s.registrations[d.unit := asset]
    && next.assets == s.assets[asset := luck.identity.value]
    && next.created == s.created + [Created(d.unit, asset)]
    && next.inbox == s.inbox[d := Processed] && next.work == s.work
  }

  /** Why a delivery fails that does, of a unit without an asset. */
  function Reason(luck: Luck): Code {
    if luck.fault.Some? then luck.fault.value else if luck.identity == None then NotFound else RuleViolation
  }

  /** A delivery of a unit that is not registered, pending or given up, goes through exactly if all is
      good. A registered one is only marked, again exactly if the delivery got through before or nothing
      fails. What is refused names its first reason. */
  lemma RegistersExactly(s: Store, d: Delivery, luck: Luck)
    requires Inv(s) && d.unit in s.units
    ensures var r := Attempt(s, d, luck.identity, luck.drawn, luck.fault);
            if s.units[d.unit].status != Registered then
              && (r.Ok? <==> Good(s, luck))
              && (r.Ok? ==> Registers(s, r.value, d, luck))
              && (r.Err? ==> r.error == Reason(luck))
            else
              && (r.Ok? <==> IsProcessed(s, d) || (luck.fault == None && luck.identity.Some?))
              && (r.Ok? ==> r.value == s.(inbox := s.inbox[d := Processed]))
              && (r.Err? ==> r.error == if luck.fault.Some? then luck.fault.value else NotFound)
  {
    assert UnitInv(s, d.unit);
    var u := s.units[d.unit];
    if u.status == Registered {
      assert u == u.(status := Registered, asset := Some(s.registrations[d.unit]));
      assert s.units == s.units[d.unit := u];
      if IsProcessed(s, d) {
        assert s.inbox == s.inbox[d := Processed];
      }
    }
  }

  /** A failure counted against a pending unit: it is given up at once unless a dependency failed, and
      at the fifth attempt; nothing but its row and the work items changes. */
  lemma FailureCountsExactly(s: Store, unit: Id, code: Code, now: int)
    requires unit in s.units
    ensures var next, u := RecordFailure(s, unit, code, now), s.units[unit];
            && next == s.(units := next.units, work := next.work)
            && (u.status != Pending ==> next.units == s.units && next.work == s.work + {unit})
            && (u.status == Pending ==>
                  var spent := code != DependencyFailed || u.attempts >= 4;
                  && next.work == (if spent then s.work + {unit} else s.work)
                  && next.units
                     == s.units[unit := Unit(if spent then Failed else Pending, u.attempts + 1,
                                             if spent then now else now + Backoff(u.attempts + 1), u.asset)])
  {
  }

  /** One worker's turn at a unit: nothing unless the unit is due; then it is registered if all is good,
      and otherwise its failure is marked, and counted unless that fails too, which ends the round. */
  lemma WorkExactly(s: Store, d: Delivery, luck: Luck, now: int)
    requires Inv(s) && d.unit in s.units
    ensures var next, due := Work(s, d, luck, now), s.units[d.unit].status == Pending && s.units[d.unit].next <= now;
            && (!due ==> next == s)
            && (due && Good(s, luck) ==> Registers(s, next, d, luck))
            && (due && !Good(s, luck) ==>
                  var marked := s.(inbox := s.inbox[d := InboxFailed]);
                  next == if luck.unrecorded then marked else RecordFailure(marked, d.unit, Reason(luck), now))
            && (BreaksOff(s, d, luck, now) <==> due && !Good(s, luck) && luck.unrecorded)
  {
    assert UnitInv(s, d.unit);
    if Due(s, d.unit, now) {
      RegistersExactly(s, d, luck);
    }
  }

  lemma TurnRegisters(s: Store, d: Delivery, luck: Luck, now: int)
    requires Inv(s) && Due(s, d.unit, now) && Good(s, luck)
    ensures Registers(s, Work(s, d, luck, now), d, luck)
  {
    WorkExactly(s, d, luck, now);
  }

  lemma TurnRests(s: Store, d: Delivery, luck: Luck, now: int)
    requires d.unit in s.units && s.units[d.unit].status != Pending
    ensures Work(s, d, luck, now) == s
  {
  }

  lemma WorkLeaves(s: Store, d: Delivery, luck: Luck, now: int, unit: Id)
    requires unit in s.units
    ensures var next := Work(s, d, luck, now);
            unit in next.units && (s.units[unit].status != Pending ==> next.units[unit] == s.units[unit])
  {
    if Due(s, d.unit, now) {
      match Attempt(s, d, luck.identity, luck.drawn, luck.fault)
      case Ok(_) =>
      case Err(code) => FailureCountsExactly(MarkFailed(s, d), d.unit, code, now);
    }
  }

  lemma {:induction false} WorkAllLeaves(s: Store, event: Id, units: seq<Id>, luck: nat -> Luck, now: int, m: nat,
                                         unit: Id)
    requires m <= |units|
    requires var mid := WorkAll(s, event, units[..m], luck, now).0;
             unit in mid.units && mid.units[unit].status != Pending
    ensures var mid, end := WorkAll(s, event, units[..m], luck, now).0, WorkAll(s, event, units, luck, now).0;
            unit in end.units && end.units[unit] == mid.units[unit]
    decreases |units|
  {
    if m == |units| {
      assert units[..m] == units;
    } else {
      var last := |units| - 1;
      assert units[..last][..m] == units[..m];
      WorkAllLeaves(s, event, units[..last], luck, now, m, unit);
      WorkLeaves(WorkAll(s, event, units[..last], luck, now).0, Delivery(units[last], event), luck(last), now, unit);
    }
  }

  /** A due unit is registered by the round in which all is good, with the asset drawn there, and stays so
      whatever becomes of the units behind it. */
  lemma EventRegisters(s: Store, event: Id, units: seq<Id>, luck: nat -> Luck, now: int, n: nat)
    requires Inv(s) && n < |units|
    requires var (before, broken) := WorkAll(s, event, units[..n], luck, now);
             !broken && Due(before, units[n], now) && Good(before, luck(n))
    ensures var end := WorkAll(s, event, units, luck, now).0;
            && units[n] in end.units && end.units[units[n]].status == Registered
            && end.units[units[n]].asset == Some(luck(n).drawn)
  {
    var before, m := WorkAll(s, event, units[..n], luck, now).0, n + 1;
    WorkAllKeeps(s, event, units[..n], luck, now);
    TurnRegisters(before, Delivery(units[n], event), luck(n), now);
    assert units[..m][..n] == units[..n];
    WorkAllLeaves(s, event, units, luck, now, m, units[n]);
  }

  lemma {:induction false} WorkAllKeeps(s: Store, event: Id, units: seq<Id>, luck: nat -> Luck, now: int)
    requires Inv(s)
    ensures Inv(WorkAll(s, event, units, luck, now).0)
  {
    if units != [] {
      var n := |units| - 1;
      WorkAllKeeps(s, event, units[..n], luck, now);
      WorkKeeps(WorkAll(s, event, units[..n], luck, now).0, Delivery(units[n], event), luck(n), now);
    }
  }

  // ----- Failed units -----

  /** A failed unit leaves that status exactly if a delivery, begun on an earlier check, still
      goes through. */
  lemma FailedIsLeftExactly(s: Store, step: Step, unit: Id)
    requires Inv(s) && unit in s.units && s.units[unit].status == Failed
    ensures After(s, step).units[unit].status != Failed
       <==> step.Delivering? && step.d.unit == unit && step.luck.fault == None && step.luck.identity.Some?
            && !Taken(s.assets, step.luck.identity.value) && step.luck.drawn !in s.assets
  {
    assert UnitInv(s, unit);
  }

  /** Two workers: the slower one registers the unit that the faster one has given up. */
  lemma FailedCanBeLeft()
    ensures var s := Store(map[], map[], map[], [], map[], {});
            var d := Delivery("u", "e");
            var good := Luck(Some(Identity("m", "1")), "a", None, false);
            var given := AfterAll(s, [Posting("u", 0), Failing("u", NotFound, 1)]);
            && given.units["u"].status == Failed
            && After(given, Delivering(d, good)).units["u"].status == Registered
            && "u" in After(given, Delivering(d, good)).work
  {
    var s := Store(map[], map[], map[], [], map[], {});
    var steps := [Posting("u", 0), Failing("u", NotFound, 1)];
    assert steps[..1] == [Posting("u", 0)] && steps[..1][..0] == [];
    assert AfterAll(s, []) == s;
    assert AfterAll(s, steps[..1]) == After(s, Posting("u", 0));
  }

  /** A failure recorded late asks for a review of a unit that is registered. */
  lemma LateFailureAsksForReview(s: Store, unit: Id, code: Code, now: int)
    requires Inv(s) && unit in s.units
    ensures unit in RecordFailure(s, unit, code, now).work
       <==> unit in s.work || s.units[unit].status != Pending || Permanent(code)
            || s.units[unit].attempts + 1 == MAX_ATTEMPTS
  {
    assert UnitInv(s, unit);
  }

  // ----- One worker at a time -----

  lemma WorkKeeps(s: Store, d: Delivery, luck: Luck, now: int)
    requires Inv(s)
    ensures Inv(Work(s, d, luck, now))
  {
    if Due(s, d.unit, now) {
      match Attempt(s, d, luck.identity, luck.drawn, luck.fault)
      case Ok(_) => DeliveringKeeps(s, d, luck);
      case Err(code) =>
        MarkingKeeps(s, d);
        FailingKeeps(MarkFailed(s, d), d.unit, code, now);
    }
  }

  /** With the check fresh, as one worker makes it, both ends are absorbing. */
  lemma {:induction false} SettledStays(s: Store, event: Id, units: seq<Id>, luck: nat -> Luck, now: int, unit: Id)
    requires unit in s.units && s.units[unit].status != Pending
    ensures var end := WorkAll(s, event, units, luck, now).0; unit in end.units && end.units[unit] == s.units[unit]
  {
    if units != [] {
      SettledStays(s, event, units[..|units| - 1], luck, now, unit);
    }
  }

  /** Pending retries wait 2, 4, 8 and 16 seconds; the cap of 300 is never reached. */
  lemma BackoffIsShort(s: Store, unit: Id, code: Code, now: int)
    requires Inv(s) && unit in s.units && s.units[unit].status == Pending
    ensures var u := RecordFailure(s, unit, code, now).units[unit];
            && u.attempts == s.units[unit].attempts + 1
            && (u.status == Pending ==> u.next == now + Power(u.attempts) && Power(u.attempts) <= 16)
  {
    assert UnitInv(s, unit);
    assert Power(1) == 2 && Power(2) == 4 && Power(3) == 8 && Power(4) == 16;
  }

  datatype Round = Round(event: Id, luck: Luck, now: int)

  /** The rounds in which a worker takes up one unit. */
  function Rounds(s: Store, unit: Id, rounds: seq<Round>): Store {
    if rounds == [] then s
    else
      var r := rounds[|rounds| - 1];
      Work(Rounds(s, unit, rounds[..|rounds| - 1]), Delivery(unit, r.event), r.luck, r.now)
  }

  lemma {:induction false} RoundsKeep(s: Store, unit: Id, rounds: seq<Round>)
    requires Inv(s) && unit in s.units
    ensures Inv(Rounds(s, unit, rounds)) && unit in Rounds(s, unit, rounds).units
  {
    if rounds != [] {
      var n := |rounds| - 1;
      var before := Rounds(s, unit, rounds[..n]);
      RoundsKeep(s, unit, rounds[..n]);
      WorkKeeps(before, Delivery(unit, rounds[n].event), rounds[n].luck, rounds[n].now);
      WorkLeaves(before, Delivery(unit, rounds[n].event), rounds[n].luck, rounds[n].now, unit);
    }
  }

  lemma {:induction false} RoundsRest(s: Store, unit: Id, rounds: seq<Round>, m: nat)
    requires m <= |rounds|
    requires var mid := Rounds(s, unit, rounds[..m]); unit in mid.units && mid.units[unit].status != Pending
    ensures Rounds(s, unit, rounds) == Rounds(s, unit, rounds[..m])
    decreases |rounds|
  {
    if m == |rounds| {
      assert rounds[..m] == rounds;
    } else {
      var last := |rounds| - 1;
      assert rounds[..last][..m] == rounds[..m];
      RoundsRest(s, unit, rounds[..last], m);
      var r := rounds[last];
      TurnRests(Rounds(s, unit, rounds[..last]), Delivery(unit, r.event), r.luck, r.now);
    }
  }

  /** The first round that takes up a due unit with all good registers it; all later rounds leave
      everything as it is. */
  lemma GoodRoundSettles(s: Store, unit: Id, rounds: seq<Round>, k: nat)
    requires Inv(s) && unit in s.units && k < |rounds|
    requires var before := Rounds(s, unit, rounds[..k]);
             Due(before, unit, rounds[k].now) && Good(before, rounds[k].luck)
    ensures var before, end := Rounds(s, unit, rounds[..k]), Rounds(s, unit, rounds);
            Registers(before, end, Delivery(unit, rounds[k].event), rounds[k].luck)
  {
    var before, r, m := Rounds(s, unit, rounds[..k]), rounds[k], k + 1;
    RoundsKeep(s, unit, rounds[..k]);
    TurnRegisters(before, Delivery(unit, r.event), r.luck, r.now);
    assert rounds[..m][..k] == rounds[..k];
    RoundsRest(s, unit, rounds, m);
  }

  /** How many rounds had their failure recorded, if they failed. */
  function Recorded(rounds: seq<Round>): nat {
    if rounds == [] then 0
    else Recorded(rounds[..|rounds| - 1]) + if rounds[|rounds| - 1].luck.unrecorded then 0 else 1
  }

  lemma RoundCounts(s: Store, unit: Id, r: Round)
    requires Inv(s) && unit in s.units && s.units[unit].next <= r.now
    ensures var next := Work(s, Delivery(unit, r.event), r.luck, r.now);
            && unit in next.units
            && (next.units[unit].status == Pending ==>
                  && s.units[unit].status == Pending
                  && (if r.luck.unrecorded then next.units[unit] == s.units[unit]
                      else && next.units[unit].attempts == s.units[unit].attempts + 1
                           && next.units[unit].next <= r.now + 16))
  {
    assert UnitInv(s, unit);
    var d := Delivery(unit, r.event);
    match Attempt(s, d, r.luck.identity, r.luck.drawn, r.luck.fault)
    case Ok(_) =>
    case Err(code) =>
      MarkingKeeps(s, d);
      if s.units[unit].status == Pending {
        BackoffIsShort(MarkFailed(s, d), unit, code, r.now);
      }
  }

  /** Rounds at least 16 seconds apart count a unit that stays pending once for each recorded one,
      so that five recorded rounds settle it, whatever happens in them and between them. */
  lemma {:induction false} FiveRoundsSettle(s: Store, unit: Id, rounds: seq<Round>)
    requires Inv(s) && unit in s.units
    requires forall i | 0 <= i < |rounds| :: s.units[unit].next <= rounds[i].now
    requires forall i, j | 0 <= i < j < |rounds| :: rounds[i].now + 16 <= rounds[j].now
    ensures var end := Rounds(s, unit, rounds);
            && Inv(end) && unit in end.units
            && (end.units[unit].status == Pending ==>
                  && s.units[unit].status == Pending
                     && end.units[unit].attempts == s.units[unit].attempts + Recorded(rounds)
                  && (rounds != [] && end.units[unit].next != s.units[unit].next
                      ==> end.units[unit].next <= rounds[|rounds| - 1].now + 16))
            && (Recorded(rounds) >= MAX_ATTEMPTS ==>
                  end.units[unit].status == Registered || (end.units[unit].status == Failed && unit in end.work))
  {
    if rounds != [] {
      var n := |rounds| - 1;
      var before := Rounds(s, unit, rounds[..n]);
      FiveRoundsSettle(s, unit, rounds[..n]);
      WorkKeeps(before, Delivery(unit, rounds[n].event), rounds[n].luck, rounds[n].now);
      if before.units[unit].status == Pending {
        assert before.units[unit].next <= rounds[n].now;
        RoundCounts(before, unit, rounds[n]);
      }
    }
    assert UnitInv(Rounds(s, unit, rounds), unit);
  }
}
