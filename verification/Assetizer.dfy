/** Registration of received units as assets: delivery attempts, bounded retries and what any
    interleaving of workers leaves behind. */
module Assetizer {
  import opened Wrappers

  type Id = string

  datatype Status = Pending | Registered | Failed

  datatype Unit = Unit(status: Status, attempts: nat, next: int, asset: Option<Id>)

  /** Model and serial number, the latter in lower case. */
  datatype Identity = Identity(model: Id, serial: string)

  datatype Created = Created(unit: Id, asset: Id)

  datatype InboxState = InboxFailed | Processed

  datatype Delivery = Delivery(unit: Id, event: Id)

  /** The tables. `created` lists the ASSET.CREATED events; an inbox row is kept per unit and event. */
  datatype Store = Store(
    units: map<Id, Unit>, registrations: map<Id, Id>, assets: map<Id, Identity>,
    created: seq<Created>, inbox: map<Delivery, InboxState>, work: set<Id>)

  datatype Code = NotFound | RuleViolation | ValidationError | DependencyFailed

  const MAX_ATTEMPTS: nat := 5

  predicate IsProcessed(s: Store, d: Delivery) {
    d in s.inbox && s.inbox[d] == Processed
  }

  predicate Taken(assets: map<Id, Identity>, identity: Identity) {
    exists a | a in assets :: assets[a] == identity
  }

  /** The effects of a delivery that goes through, with its inbox marker. */
  function Register(s: Store, d: Delivery, asset: Id): Store
    requires d.unit in s.units
  {
    s.(units := s.units[d.unit := s.units[d.unit].(status := Registered, asset := Some(asset))],
       inbox := s.inbox[d := Processed])
  }

  function Create(s: Store, d: Delivery, asset: Id, identity: Identity): Store
    requires d.unit in s.units
  {
    Register(s, d, asset).(registrations := s.registrations[d.unit := asset], assets := s.assets[asset := identity],
                           created := s.created + [Created(d.unit, asset)])
  }

  /** One delivery in one transaction. `identity` is what procurement knows of the unit, `fault`
      an error of any statement; either way nothing remains of a delivery that fails. */
  function Attempt(s: Store, d: Delivery, identity: Option<Identity>, drawn: Id,
                   fault: Option<Code>): Result<Store, Code>
    requires d.unit in s.units
  {
    if IsProcessed(s, d) then Ok(s)
    else if fault.Some? then Err(fault.value)
    else if identity == None then Err(NotFound)
    else if d.unit in s.registrations then Ok(Register(s, d, s.registrations[d.unit]))
    else if Taken(s.assets, identity.value) || drawn in s.assets then Err(RuleViolation)
    else Ok(Create(s, d, drawn, identity.value))
  }

  /** After a rollback the delivery is marked failed, unless another one got through. */
  function MarkFailed(s: Store, d: Delivery): Store {
    if IsProcessed(s, d) then s else s.(inbox := s.inbox[d := InboxFailed])
  }

  predicate Permanent(code: Code) {
    code == NotFound || code == RuleViolation || code == ValidationError
  }

  function Power(n: nat): nat {
    if n == 0 then 1 else 2 * Power(n - 1)
  }

  function Backoff(attempts: nat): nat {
    var p := Power(if attempts < 8 then attempts else 8);
    if p < 300 then p else 300
  }

  /** Counts a failure against a pending unit; a unit that is not pending counts as exhausted. */
  function RecordFailure(s: Store, unit: Id, code: Code, now: int): Store
    requires unit in s.units
  {
    var u := s.units[unit];
    if u.status != Pending then s.(work := s.work + {unit})
    else
      var counted := u.(attempts := u.attempts + 1);
      if Permanent(code) || counted.attempts >= MAX_ATTEMPTS then
        s.(units := s.units[unit := counted.(status := Failed, next := now)], work := s.work + {unit})
      else
        s.(units := s.units[unit := counted.(next := now + Backoff(counted.attempts))])
  }

  // ----- One worker -----

  predicate Due(s: Store, unit: Id, now: int) {
    unit in s.units && s.units[unit].status == Pending && s.units[unit].next <= now
  }

  /** What a delivery meets: the unit's identity, the id drawn for an asset, an error if any, and
      whether the record of that error fails in turn. */
  datatype Luck = Luck(identity: Option<Identity>, drawn: Id, fault: Option<Code>, unrecorded: bool)

  function Work(s: Store, d: Delivery, luck: Luck, now: int): Store {
    if !Due(s, d.unit, now) then s
    else
      match Attempt(s, d, luck.identity, luck.drawn, luck.fault)
      case Ok(done) => done
      case Err(code) =>
        if luck.unrecorded then MarkFailed(s, d) else RecordFailure(MarkFailed(s, d), d.unit, code, now)
  }

  /** A failure that could not be recorded ends the round for all units behind it. */
  predicate BreaksOff(s: Store, d: Delivery, luck: Luck, now: int) {
    Due(s, d.unit, now) && Attempt(s, d, luck.identity, luck.drawn, luck.fault).Err? && luck.unrecorded
  }

  /** What a round leaves, and whether it was broken off. */
  function WorkAll(s: Store, event: Id, units: seq<Id>, luck: nat -> Luck, now: int): (Store, bool) {
    if units == [] then (s, false)
    else
      var n := |units| - 1;
      var (before, broken) := WorkAll(s, event, units[..n], luck, now);
      var d := Delivery(units[n], event);
      if broken then (before, true) else (Work(before, d, luck(n), now), BreaksOff(before, d, luck(n), now))
  }

  lemma UpdatedTwice<K, V>(m: map<K, V>, k: K, v: V, w: V)
    ensures m[k := v][k := w] == m[k := w]
  {
  }

  class Worker {
    var units: map<Id, Unit>
    var registrations: map<Id, Id>
    var assets: map<Id, Identity>
    var created: seq<Created>
    var inbox: map<Delivery, InboxState>
    var work: set<Id>

    function Snapshot(): Store
      reads this
    {
      Store(units, registrations, assets, created, inbox, work)
    }

    /** `processGoodsReceiptAssetizationUnit`, all of it or nothing. */
    method Deliver(d: Delivery, luck: Luck) returns (failure: Option<Code>)
      requires d.unit in units
      modifies this
      ensures match Attempt(old(Snapshot()), d, luck.identity, luck.drawn, luck.fault)
              case Ok(done) => failure == None && Snapshot() == done
              case Err(code) => failure == Some(code) && Snapshot() == MarkFailed(old(Snapshot()), d)
    {
      if d in inbox && inbox[d] == Processed {
        return None;
      }
      if luck.fault.Some? {
        inbox := inbox[d := InboxFailed];
        return luck.fault;
      }
      if luck.identity == None {
        inbox := inbox[d := InboxFailed];
        return Some(NotFound);
      }
      var asset;
      if d.unit in registrations {
        asset := registrations[d.unit];
      } else {
        if Taken(assets, luck.identity.value) || luck.drawn in assets {
          inbox := inbox[d := InboxFailed];
          return Some(RuleViolation);
        }
        asset := luck.drawn;
        assets := assets[asset := luck.identity.value];
        registrations := registrations[d.unit := asset];
        created := created + [Created(d.unit, asset)];
      }
      units := units[d.unit := units[d.unit].(status := Registered, asset := Some(asset))];
      inbox := inbox[d := Processed];
      return None;
    }

    /** The failure record, in its own transaction; with `fault` its last statement fails. */
    method Fail(unit: Id, code: Code, now: int, fault: bool) returns (recorded: bool)
      requires unit in units
      modifies `units, `work
      ensures recorded == !fault
      ensures Snapshot() == if recorded then RecordFailure(old(Snapshot()), unit, code, now) else old(Snapshot())
    {
      var before, asked, u := units, work, units[unit];
      var attempt := MAX_ATTEMPTS;
      var pending := u.status == Pending;
      if pending {
        u := u.(attempts := u.attempts + 1);
        units := units[unit := u];
        attempt := u.attempts;
      }
      var exhausted := Permanent(code) || attempt >= MAX_ATTEMPTS;
      if pending {
        u := u.(status := if exhausted then Failed else Pending,
                next := if exhausted then now else now + Backoff(attempt));
        UpdatedTwice(before, unit, units[unit], u);
        units := units[unit := u];
      }
      if exhausted {
        work := work + {unit};
      }
      if fault {
        units, work := before, asked;
      }
      return !fault;
    }

    /** One event: every unit of it that is pending and due, until a failure cannot be recorded. */
    method ProcessEvent(event: Id, ids: seq<Id>, luck: nat -> Luck, now: int) returns (broken: bool)
      modifies this
      ensures (Snapshot(), broken) == WorkAll(old(Snapshot()), event, ids, luck, now)
    {
      for n := 0 to |ids|
        invariant (Snapshot(), false) == WorkAll(old(Snapshot()), event, ids[..n], luck, now)
      {
        assert ids[..n + 1][..n] == ids[..n];
        var unit := ids[n];
        if unit in units && units[unit].status == Pending && units[unit].next <= now {
          var failure := Deliver(Delivery(unit, event), luck(n));
          if failure.Some? {
            var recorded := Fail(unit, failure.value, now, luck(n).unrecorded);
            if !recorded {
              BrokenStays(old(Snapshot()), event, ids, luck, now, n + 1);
              return true;
            }
          }
        }
      }
      assert ids[..|ids|] == ids;
      return false;
    }
  }

  lemma {:induction false} BrokenStays(s: Store, event: Id, units: seq<Id>, luck: nat -> Luck, now: int, n: nat)
    requires n <= |units| && WorkAll(s, event, units[..n], luck, now).1
    ensures WorkAll(s, event, units, luck, now) == WorkAll(s, event, units[..n], luck, now)
  {
    if n < |units| {
      assert units[..|units| - 1][..n] == units[..n];
      BrokenStays(s, event, units[..|units| - 1], luck, now, n);
    } else {
      assert units[..n] == units;
    }
  }
}
