/** What an event records against commercial source lines: for each of its assets it walks all lines,
    records what a line gives the asset, and fails as a whole if a line would be exceeded. */
module Claims {
  import opened Wrappers
  import opened Sequences
  import opened CostSlices

  /** An order line, an invoice line by its allocation to the receipt line, or a credit note line. */
  datatype Source = Ordered | Invoiced(allocation: string) | Credited(line: string)

  /** What a record is kept under: the source line and the unit whose asset bears the cost. */
  datatype Identity = Identity(source: Source, unit: UnitId)

  /** The recorded amounts, in the smallest unit that their source line is split into. */
  type Records = map<Identity, nat>

  /** A source line as a walk sees it: its own quantity and amount, and what it gives to which units. */
  datatype Claim = Claim(source: Source, quantity: real, amount: nat, gives: map<Unit, nat>)

  ghost predicate ValidClaims(units: seq<Unit>, claims: seq<Claim>) {
    && DistinctUnits(units)
    && (forall i, j | 0 <= i < j < |claims| :: claims[i].source != claims[j].source)
    && (forall c | c in claims :: GivesOnly(units, c))
  }

  ghost predicate GivesOnly(units: seq<Unit>, c: Claim) {
    forall u | u in c.gives :: u in units
  }

  // ----- One event -----

  /** How many units are recorded for a source, or what they add up to, leaving one unit out. */
  function Weigh(units: seq<Unit>, records: Records, source: Source, except: Option<UnitId>, counting: bool): nat {
    if units == [] then 0
    else
      var n := |units| - 1;
      Weigh(units[..n], records, source, except, counting) + Weight(records, source, units[n].id, except, counting)
  }

  function Weight(records: Records, source: Source, unit: UnitId, except: Option<UnitId>, counting: bool): nat {
    if except == Some(unit) || Identity(source, unit) !in records then 0
    else if counting then 1 else records[Identity(source, unit)]
  }

  /** One asset and one source line: nothing if the line gives the unit nothing; an error if the line
      would be exceeded or the same identity has another amount. */
  function Record(units: seq<Unit>, records: Records, c: Claim, u: Unit): Option<Records> {
    if u !in c.gives then Some(records)
    else
      var id := Identity(c.source, u.id);
      if Weigh(units, records, c.source, Some(u.id), false) + c.gives[u] > c.amount
         || (Weigh(units, records, c.source, Some(u.id), true) + 1) as real > c.quantity then None
      else if id in records then if records[id] == c.gives[u] then Some(records) else None
      else Some(records[id := c.gives[u]])
  }

  function ClaimStep(units: seq<Unit>, u: Unit): (Records, Claim) -> Option<Records> {
    (records, c) => Record(units, records, c, u)
  }

  /** All source lines for one asset. */
  function RecordUnit(units: seq<Unit>, claims: seq<Claim>, records: Records, u: Unit): Option<Records> {
    Fold(ClaimStep(units, u), records, claims)
  }

  function UnitStep(units: seq<Unit>, claims: seq<Claim>): (Records, Unit) -> Option<Records> {
    (records, u) => RecordUnit(units, claims, records, u)
  }

  /** One event, for all its assets. */
  function RecordUnits(units: seq<Unit>, claims: seq<Claim>, records: Records, us: seq<Unit>): Option<Records> {
    Fold(UnitStep(units, claims), records, us)
  }

  // ----- Nothing is ever exceeded -----

  ghost predicate WithinLimits(units: seq<Unit>, claims: seq<Claim>, records: Records) {
    forall c | c in claims :: Within(units, records, c)
  }

  ghost predicate Within(units: seq<Unit>, records: Records, c: Claim) {
    && Weigh(units, records, c.source, None, false) <= c.amount
    && Weigh(units, records, c.source, None, true) as real <= c.quantity
  }

  predicate HasId(units: seq<Unit>, id: UnitId) {
    exists v | v in units :: v.id == id
  }

  lemma LastUnit(us: seq<Unit>)
    requires us != [] && DistinctUnits(us)
    ensures DistinctUnits(us[..|us| - 1]) && !HasId(us[..|us| - 1], us[|us| - 1].id)
    ensures forall x :: x in us <==> x in us[..|us| - 1] || x == us[|us| - 1]
  {
    var n := |us| - 1;
    assert us == us[..n] + [us[n]];
    forall v | v in us[..n] ensures v.id != us[n].id {
      var i :| 0 <= i < n && us[i] == v;
    }
  }

  /** Leaving a unit out takes away what is recorded for it. */
  lemma {:induction false} WeighBut(units: seq<Unit>, records: Records, source: Source, id: UnitId, counting: bool)
    requires DistinctUnits(units)
    ensures Weigh(units, records, source, None, counting)
         == Weigh(units, records, source, Some(id), counting)
            + if HasId(units, id) then Weight(records, source, id, None, counting) else 0
  {
    if units != [] {
      LastUnit(units);
      assert HasId(units, id) <==> HasId(units[..|units| - 1], id) || units[|units| - 1].id == id;
      WeighBut(units[..|units| - 1], records, source, id, counting);
    }
  }

  lemma {:induction false} WeighElsewhere(units: seq<Unit>, records: Records, source: Source, except: Option<UnitId>,
                                          counting: bool, id: Identity, share: nat)
    requires id.source != source || except == Some(id.unit)
    ensures Weigh(units, records[id := share], source, except, counting)
         == Weigh(units, records, source, except, counting)
  {
    if units != [] {
      WeighElsewhere(units[..|units| - 1], records, source, except, counting, id, share);
    }
  }

  lemma NewRecordWeighs(units: seq<Unit>, records: Records, source: Source, u: Unit, share: nat, counting: bool)
    requires DistinctUnits(units) && u in units
    ensures Weigh(units, records[Identity(source, u.id) := share], source, None, counting)
         == Weigh(units, records, source, Some(u.id), counting) + if counting then 1 else share
  {
    var id := Identity(source, u.id);
    assert HasId(units, u.id);
    WeighBut(units, records[id := share], source, u.id, counting);
    WeighElsewhere(units, records, source, Some(u.id), counting, id, share);
  }

  lemma NewRecordWithin(units: seq<Unit>, records: Records, c: Claim, u: Unit, share: nat, d: Claim)
    requires DistinctUnits(units) && u in units && Within(units, records, d)
    requires d.source == c.source ==> d == c
    requires Weigh(units, records, c.source, Some(u.id), false) + share <= c.amount
    requires (Weigh(units, records, c.source, Some(u.id), true) + 1) as real <= c.quantity
    ensures Within(units, records[Identity(c.source, u.id) := share], d)
  {
    if d.source == c.source {
      NewRecordWeighs(units, records, c.source, u, share, true);
      NewRecordWeighs(units, records, c.source, u, share, false);
    } else {
      WeighElsewhere(units, records, d.source, None, true, Identity(c.source, u.id), share);
      WeighElsewhere(units, records, d.source, None, false, Identity(c.source, u.id), share);
    }
  }

  lemma SameClaim(units: seq<Unit>, claims: seq<Claim>, c: Claim, d: Claim)
    requires ValidClaims(units, claims) && c in claims && d in claims && c.source == d.source
    ensures c == d
  {
  }

  lemma RecordWithin(units: seq<Unit>, claims: seq<Claim>, records: Records, c: Claim, u: Unit)
    requires ValidClaims(units, claims) && WithinLimits(units, claims, records) && c in claims && u in units
    requires Record(units, records, c, u).Some?
    ensures WithinLimits(units, claims, Record(units, records, c, u).value)
  {
    var so := Record(units, records, c, u).value;
    if so != records {
      forall d | d in claims ensures Within(units, so, d) {
        if d.source == c.source {
          SameClaim(units, claims, c, d);
        }
        NewRecordWithin(units, records, c, u, c.gives[u], d);
      }
    }
  }

  lemma UnitWithin(units: seq<Unit>, claims: seq<Claim>, records: Records, u: Unit)
    requires ValidClaims(units, claims) && WithinLimits(units, claims, records) && u in units
    requires RecordUnit(units, claims, records, u).Some?
    ensures WithinLimits(units, claims, RecordUnit(units, claims, records, u).value)
  {
    var inv, step := (so: Records) => WithinLimits(units, claims, so), ClaimStep(units, u);
    forall so, c | c in claims && inv(so) && step(so, c).Some? ensures inv(step(so, c).value) {
      RecordWithin(units, claims, so, c, u);
    }
    FoldKeeps(inv, step, records, claims);
  }

  /** An event that goes through leaves no source line over its quantity or amount. */
  lemma UnitsWithin(units: seq<Unit>, claims: seq<Claim>, records: Records, us: seq<Unit>)
    requires ValidClaims(units, claims) && WithinLimits(units, claims, records) && forall u | u in us :: u in units
    requires RecordUnits(units, claims, records, us).Some?
    ensures WithinLimits(units, claims, RecordUnits(units, claims, records, us).value)
  {
    var inv, step := (so: Records) => WithinLimits(units, claims, so), UnitStep(units, claims);
    forall so, u | u in us && inv(so) && step(so, u).Some? ensures inv(step(so, u).value) {
      UnitWithin(units, claims, so, u);
    }
    FoldKeeps(inv, step, records, us);
  }

  // ----- What an event adds -----

  ghost predicate Extends(records: Records, so: Records) {
    forall id | id in records :: id in so && so[id] == records[id]
  }

  /** One of the lines gives one of the units something. */
  ghost predicate Due(claims: seq<Claim>, us: seq<Unit>, id: Identity) {
    exists c, u | c in claims && u in us :: u in c.gives && Identity(c.source, u.id) == id
  }

  ghost predicate OnlyDue(claims: seq<Claim>, records: Records, us: seq<Unit>, so: Records) {
    Extends(records, so) && forall id | id in so :: id in records || Due(claims, us, id)
  }

  ghost predicate Has(so: Records, c: Claim, u: Unit)
    requires u in c.gives
  {
    Identity(c.source, u.id) in so && so[Identity(c.source, u.id)] == c.gives[u]
  }

  ghost predicate HasAll(claims: seq<Claim>, us: seq<Unit>, so: Records) {
    forall c, u | c in claims && u in us && u in c.gives :: Has(so, c, u)
  }

  /** The records together with all that the lines give these units, contradicting neither. */
  ghost predicate Union(claims: seq<Claim>, records: Records, us: seq<Unit>, so: Records) {
    OnlyDue(claims, records, us, so) && HasAll(claims, us, so)
  }

  lemma RecordShape(units: seq<Unit>, so: Records, c: Claim, u: Unit)
    requires Record(units, so, c, u).Some?
    ensures var to := Record(units, so, c, u).value;
            && (to == so || (u in c.gives && Identity(c.source, u.id) !in so
                             && to == so[Identity(c.source, u.id) := c.gives[u]]))
            && Extends(so, to) && (u in c.gives ==> Has(to, c, u))
  {
  }

  lemma RecordAddsDue(units: seq<Unit>, claims: seq<Claim>, records: Records, us: seq<Unit>, so: Records, c: Claim,
                      u: Unit)
    requires c in claims && u in us && OnlyDue(claims, records, us, so) && Record(units, so, c, u).Some?
    ensures OnlyDue(claims, records, us, Record(units, so, c, u).value)
  {
    RecordShape(units, so, c, u);
    if u in c.gives {
      assert Due(claims, us, Identity(c.source, u.id));
    }
  }

  lemma UnitAddsDue(units: seq<Unit>, claims: seq<Claim>, records: Records, us: seq<Unit>, so: Records, u: Unit)
    requires u in us && OnlyDue(claims, records, us, so) && RecordUnit(units, claims, so, u).Some?
    ensures OnlyDue(claims, records, us, RecordUnit(units, claims, so, u).value)
  {
    var inv, step := (to: Records) => OnlyDue(claims, records, us, to), ClaimStep(units, u);
    forall to, c | c in claims && inv(to) && step(to, c).Some? ensures inv(step(to, c).value) {
      RecordAddsDue(units, claims, records, us, to, c, u);
    }
    FoldKeeps(inv, step, so, claims);
  }

  /** An event adds to the records, and only what the lines give. */
  lemma AddsOnlyDue(units: seq<Unit>, claims: seq<Claim>, records: Records, us: seq<Unit>)
    requires RecordUnits(units, claims, records, us).Some?
    ensures OnlyDue(claims, records, us, RecordUnits(units, claims, records, us).value)
  {
    var inv, step := (so: Records) => OnlyDue(claims, records, us, so), UnitStep(units, claims);
    forall so, u | u in us && inv(so) && step(so, u).Some? ensures inv(step(so, u).value) {
      UnitAddsDue(units, claims, records, us, so, u);
    }
    FoldKeeps(inv, step, records, us);
  }

  lemma UnitCovers(units: seq<Unit>, claims: seq<Claim>, records: Records, u: Unit, c: Claim)
    requires RecordUnit(units, claims, records, u).Some? && c in claims && u in c.gives
    ensures Has(RecordUnit(units, claims, records, u).value, c, u)
  {
    var goal, step := (so: Records) => Has(so, c, u), ClaimStep(units, u);
    forall so | step(so, c).Some? ensures goal(step(so, c).value) {
      RecordShape(units, so, c, u);
    }
    forall so, d | d in claims && goal(so) && step(so, d).Some? ensures goal(step(so, d).value) {
      RecordShape(units, so, d, u);
    }
    FoldReaches(goal, step, records, claims, c);
  }

  lemma UnitExtends(units: seq<Unit>, claims: seq<Claim>, records: Records, u: Unit)
    requires RecordUnit(units, claims, records, u).Some?
    ensures Extends(records, RecordUnit(units, claims, records, u).value)
  {
    var inv, step := (so: Records) => Extends(records, so), ClaimStep(units, u);
    forall so, c | c in claims && inv(so) && step(so, c).Some? ensures inv(step(so, c).value) {
      RecordShape(units, so, c, u);
    }
    FoldKeeps(inv, step, records, claims);
  }

  /** An event that goes through records everything that the lines give its assets, as given. */
  lemma AddsAllDue(units: seq<Unit>, claims: seq<Claim>, records: Records, us: seq<Unit>, c: Claim, u: Unit)
    requires RecordUnits(units, claims, records, us).Some? && u in us && c in claims && u in c.gives
    ensures Has(RecordUnits(units, claims, records, us).value, c, u)
  {
    var goal, step := (so: Records) => Has(so, c, u), UnitStep(units, claims);
    forall so | step(so, u).Some? ensures goal(step(so, u).value) {
      UnitCovers(units, claims, so, u, c);
    }
    forall so, x | x in us && goal(so) && step(so, x).Some? ensures goal(step(so, x).value) {
      UnitExtends(units, claims, so, x);
    }
    FoldReaches(goal, step, records, us, u);
  }

  lemma EventIsUnion(units: seq<Unit>, claims: seq<Claim>, records: Records, us: seq<Unit>)
    requires RecordUnits(units, claims, records, us).Some?
    ensures Union(claims, records, us, RecordUnits(units, claims, records, us).value)
  {
    AddsOnlyDue(units, claims, records, us);
    forall c, u | c in claims && u in us && u in c.gives
      ensures Has(RecordUnits(units, claims, records, us).value, c, u)
    {
      AddsAllDue(units, claims, records, us, c, u);
    }
  }

  // ----- Exactly when an event goes through -----

  lemma {:induction false} WeighLess(units: seq<Unit>, records: Records, so: Records, source: Source,
                                     except: Option<UnitId>, counting: bool)
    requires Extends(records, so)
    ensures Weigh(units, records, source, except, counting) <= Weigh(units, so, source, except, counting)
  {
    if units != [] {
      WeighLess(units[..|units| - 1], records, so, source, except, counting);
    }
  }

  lemma WeighsUnder(units: seq<Unit>, so: Records, goal: Records, source: Source, u: Unit, counting: bool)
    requires DistinctUnits(units) && u in units && Extends(so, goal) && Identity(source, u.id) in goal
    ensures Weigh(units, so, source, Some(u.id), counting) + (if counting then 1 else goal[Identity(source, u.id)])
         <= Weigh(units, goal, source, None, counting)
  {
    assert HasId(units, u.id);
    WeighBut(units, goal, source, u.id, counting);
    WeighLess(units, so, goal, source, Some(u.id), counting);
  }

  lemma FitsUnder(units: seq<Unit>, so: Records, goal: Records, c: Claim, u: Unit)
    requires DistinctUnits(units) && u in units && Extends(so, goal) && Within(units, goal, c)
    requires u in c.gives ==> Has(goal, c, u)
    ensures Record(units, so, c, u).Some? && Extends(Record(units, so, c, u).value, goal)
  {
    if u in c.gives {
      WeighsUnder(units, so, goal, c.source, u, false);
      WeighsUnder(units, so, goal, c.source, u, true);
    }
  }

  lemma UnitFitsUnder(units: seq<Unit>, claims: seq<Claim>, so: Records, goal: Records, us: seq<Unit>, u: Unit)
    requires DistinctUnits(units) && u in units && u in us && Extends(so, goal) && WithinLimits(units, claims, goal)
    requires HasAll(claims, us, goal)
    ensures RecordUnit(units, claims, so, u).Some? && Extends(RecordUnit(units, claims, so, u).value, goal)
  {
    var inv, step := (to: Records) => Extends(to, goal), ClaimStep(units, u);
    forall to, c | c in claims && inv(to) ensures step(to, c).Some? && inv(step(to, c).value) {
      assert Within(units, goal, c);
      FitsUnder(units, to, goal, c, u);
    }
    FoldSucceeds(inv, step, so, claims);
  }

  lemma UnionIsReached(units: seq<Unit>, claims: seq<Claim>, records: Records, us: seq<Unit>, goal: Records)
    requires DistinctUnits(units) && forall u | u in us :: u in units
    requires Union(claims, records, us, goal) && WithinLimits(units, claims, goal)
    ensures RecordUnits(units, claims, records, us) == Some(goal)
  {
    var inv, step := (so: Records) => Extends(so, goal), UnitStep(units, claims);
    forall so, u | u in us && inv(so) ensures step(so, u).Some? && inv(step(so, u).value) {
      UnitFitsUnder(units, claims, so, goal, us, u);
    }
    FoldSucceeds(inv, step, records, us);
    EventIsUnion(units, claims, records, us);
    SameUnion(claims, records, us, goal, RecordUnits(units, claims, records, us).value);
  }

  lemma SameUnion(claims: seq<Claim>, records: Records, us: seq<Unit>, goal: Records, so: Records)
    requires Union(claims, records, us, goal) && Union(claims, records, us, so) && Extends(so, goal)
    ensures so == goal
  {
    forall id | id in goal ensures id in so {
      if id !in records {
        var c, u :| c in claims && u in us && u in c.gives && Identity(c.source, u.id) == id;
        assert Has(so, c, u);
      }
    }
  }

  /** An event goes through exactly if the records and what the lines give its assets agree where they
      meet and together exceed no line; then just that is recorded, in whatever order assets and lines
      are walked. */
  lemma EventExactly(units: seq<Unit>, claims: seq<Claim>, records: Records, us: seq<Unit>, so: Records)
    requires ValidClaims(units, claims) && WithinLimits(units, claims, records) && forall u | u in us :: u in units
    ensures RecordUnits(units, claims, records, us) == Some(so)
       <==> Union(claims, records, us, so) && WithinLimits(units, claims, so)
  {
    if RecordUnits(units, claims, records, us) == Some(so) {
      UnitsWithin(units, claims, records, us);
      EventIsUnion(units, claims, records, us);
    }
    if Union(claims, records, us, so) && WithinLimits(units, claims, so) {
      UnionIsReached(units, claims, records, us, so);
    }
  }

  // ----- The condition, line by line -----

  predicate Recorded(records: Records, c: Claim, v: Unit) {
    Identity(c.source, v.id) in records
  }

  function Worth(c: Claim, v: Unit, counting: bool): nat
    requires v in c.gives
  {
    if counting then 1 else c.gives[v]
  }

  /** What the line gives, over these units. */
  function Sum(units: seq<Unit>, c: Claim, counting: bool): nat {
    if units == [] then 0
    else
      var n := |units| - 1;
      Sum(units[..n], c, counting) + if units[n] in c.gives then Worth(c, units[n], counting) else 0
  }

  /** What the event would newly record for the line. */
  function Asked(units: seq<Unit>, records: Records, c: Claim, us: seq<Unit>, counting: bool): nat {
    if units == [] then 0
    else
      var n := |units| - 1;
      Asked(units[..n], records, c, us, counting)
      + if units[n] in us && units[n] in c.gives && !Recorded(records, c, units[n])
        then Worth(c, units[n], counting) else 0
  }

  /** What the line gives to units that are neither recorded nor asked for. */
  function Open(units: seq<Unit>, records: Records, c: Claim, us: seq<Unit>, counting: bool): nat {
    if units == [] then 0
    else
      var n := |units| - 1;
      Open(units[..n], records, c, us, counting)
      + if units[n] !in us && units[n] in c.gives && !Recorded(records, c, units[n])
        then Worth(c, units[n], counting) else 0
  }

  /** What is recorded for units that the line no longer gives anything. */
  function Lost(units: seq<Unit>, records: Records, c: Claim, counting: bool): nat {
    if units == [] then 0
    else
      var n := |units| - 1;
      Lost(units[..n], records, c, counting)
      + if units[n] in c.gives then 0 else Weight(records, c.source, units[n].id, None, counting)
  }

  /** What is asked for and recorded already has the amount that the line gives now. */
  ghost predicate Consistent(records: Records, c: Claim, us: seq<Unit>) {
    forall u | u in us && u in c.gives && Recorded(records, c, u) :: records[Identity(c.source, u.id)] == c.gives[u]
  }

  ghost predicate Goes(units: seq<Unit>, records: Records, c: Claim, us: seq<Unit>) {
    && Consistent(records, c, us)
    && (Weigh(units, records, c.source, None, true) + Asked(units, records, c, us, true)) as real <= c.quantity
    && Weigh(units, records, c.source, None, false) + Asked(units, records, c, us, false) <= c.amount
  }

  /** After the event a line weighs what it weighed and what was newly asked. */
  lemma {:induction false} WeighUnion(part: seq<Unit>, records: Records, so: Records, c: Claim, us: seq<Unit>,
                                      counting: bool)
    requires forall v | v in part :: UnitUnion(records, so, c, us, v)
    ensures Weigh(part, so, c.source, None, counting)
         == Weigh(part, records, c.source, None, counting) + Asked(part, records, c, us, counting)
  {
    if part != [] {
      var n := |part| - 1;
      assert part[n] in part && forall v | v in part[..n] :: v in part;
      WeighUnion(part[..n], records, so, c, us, counting);
      assert UnitUnion(records, so, c, us, part[n]);
    }
  }

  ghost predicate UnitUnion(records: Records, so: Records, c: Claim, us: seq<Unit>, v: Unit) {
    var id := Identity(c.source, v.id);
    if id in records then id in so && so[id] == records[id]
    else if v in us && v in c.gives then id in so && so[id] == c.gives[v]
    else id !in so
  }

  lemma UnionOfUnit(units: seq<Unit>, claims: seq<Claim>, records: Records, us: seq<Unit>, so: Records, c: Claim,
                    v: Unit)
    requires ValidClaims(units, claims) && (forall u | u in us :: u in units) && Union(claims, records, us, so)
    requires c in claims && v in units
    ensures UnitUnion(records, so, c, us, v)
  {
    var id := Identity(c.source, v.id);
    if id in so && id !in records {
      var d, u :| d in claims && u in us && u in d.gives && Identity(d.source, u.id) == id;
      SameClaim(units, claims, c, d);
      SameUnit(units, u, v);
    }
    if v in us && v in c.gives {
      assert Has(so, c, v);
    }
  }

  lemma LineWeighs(units: seq<Unit>, claims: seq<Claim>, records: Records, us: seq<Unit>, so: Records, c: Claim,
                   counting: bool)
    requires ValidClaims(units, claims) && (forall u | u in us :: u in units) && Union(claims, records, us, so)
             && c in claims
    ensures Weigh(units, so, c.source, None, counting)
         == Weigh(units, records, c.source, None, counting) + Asked(units, records, c, us, counting)
  {
    forall v | v in units ensures UnitUnion(records, so, c, us, v) {
      UnionOfUnit(units, claims, records, us, so, c, v);
    }
    WeighUnion(units, records, so, c, us, counting);
  }

  lemma UnionIsConsistent(claims: seq<Claim>, records: Records, us: seq<Unit>, so: Records, c: Claim)
    requires Union(claims, records, us, so) && c in claims
    ensures Consistent(records, c, us)
  {
    forall u | u in us && u in c.gives && Recorded(records, c, u)
      ensures records[Identity(c.source, u.id)] == c.gives[u]
    {
      assert Has(so, c, u);
    }
  }

  ghost function Dues(claims: seq<Claim>, us: seq<Unit>): set<Identity> {
    set c, u | c in claims && u in us && u in c.gives :: Identity(c.source, u.id)
  }

  ghost function DueValue(claims: seq<Claim>, us: seq<Unit>, id: Identity): nat
    requires id in Dues(claims, us)
  {
    var c, u :| c in claims && u in us && u in c.gives && Identity(c.source, u.id) == id;
    c.gives[u]
  }

  ghost function Merged(claims: seq<Claim>, records: Records, us: seq<Unit>): Records {
    records + map id | id in Dues(claims, us) - records.Keys :: DueValue(claims, us, id)
  }

  lemma DueValueIs(units: seq<Unit>, claims: seq<Claim>, us: seq<Unit>, c: Claim, u: Unit)
    requires ValidClaims(units, claims) && (forall x | x in us :: x in units) && c in claims && u in us && u in c.gives
    ensures Identity(c.source, u.id) in Dues(claims, us) && DueValue(claims, us, Identity(c.source, u.id)) == c.gives[u]
  {
    var id := Identity(c.source, u.id);
    assert id in Dues(claims, us);
    forall d, v | d in claims && v in us && v in d.gives && Identity(d.source, v.id) == id
      ensures d.gives[v] == c.gives[u]
    {
      SameClaim(units, claims, c, d);
      SameUnit(units, v, u);
    }
  }

  lemma MergedIsUnion(units: seq<Unit>, claims: seq<Claim>, records: Records, us: seq<Unit>)
    requires ValidClaims(units, claims) && (forall u | u in us :: u in units)
    requires forall c | c in claims :: Consistent(records, c, us)
    ensures Union(claims, records, us, Merged(claims, records, us))
  {
    var so := Merged(claims, records, us);
    forall id | id in so && id !in records ensures Due(claims, us, id) {
      var c, u :| c in claims && u in us && u in c.gives && Identity(c.source, u.id) == id;
    }
    forall c, u | c in claims && u in us && u in c.gives ensures Has(so, c, u) {
      assert Consistent(records, c, us);
      DueValueIs(units, claims, us, c, u);
    }
  }

  /** An event goes through exactly if each line can bear it: what is asked agrees with what is recorded,
      and what is recorded and newly asked exceeds neither its quantity nor its amount. */
  lemma GoesThroughExactly(units: seq<Unit>, claims: seq<Claim>, records: Records, us: seq<Unit>)
    requires ValidClaims(units, claims) && WithinLimits(units, claims, records) && forall u | u in us :: u in units
    ensures RecordUnits(units, claims, records, us).Some? <==> forall c | c in claims :: Goes(units, records, c, us)
  {
    if RecordUnits(units, claims, records, us).Some? {
      var so := RecordUnits(units, claims, records, us).value;
      EventExactly(units, claims, records, us, so);
      forall c | c in claims ensures Goes(units, records, c, us) {
        UnionIsConsistent(claims, records, us, so, c);
        LineGoes(units, claims, records, us, so, c);
      }
    }
    if forall c | c in claims :: Goes(units, records, c, us) {
      var so := Merged(claims, records, us);
      MergedIsUnion(units, claims, records, us);
      forall c | c in claims ensures Within(units, so, c) {
        assert Goes(units, records, c, us);
        LineGoes(units, claims, records, us, so, c);
      }
      EventExactly(units, claims, records, us, so);
    }
  }

  lemma LineGoes(units: seq<Unit>, claims: seq<Claim>, records: Records, us: seq<Unit>, so: Records, c: Claim)
    requires ValidClaims(units, claims) && (forall u | u in us :: u in units) && Union(claims, records, us, so)
             && c in claims
    requires Consistent(records, c, us)
    ensures Goes(units, records, c, us) <==> Within(units, so, c)
  {
    LineWeighs(units, claims, records, us, so, c, true);
    LineWeighs(units, claims, records, us, so, c, false);
  }

  // ----- Lines that are given out in full -----

  /** All that is recorded for the line is given now, with that amount. */
  ghost predicate Agrees(units: seq<Unit>, records: Records, c: Claim) {
    forall v | v in units && Recorded(records, c, v) :: v in c.gives && c.gives[v] == records[Identity(c.source, v.id)]
  }

  /** The line can bear all that it gives. */
  ghost predicate Fits(units: seq<Unit>, c: Claim) {
    Sum(units, c, true) as real <= c.quantity && Sum(units, c, false) <= c.amount
  }

  /** The line gives its whole quantity, or nothing at all. */
  ghost predicate Exhausted(units: seq<Unit>, c: Claim) {
    |c.gives| == 0 || Sum(units, c, true) as real == c.quantity
  }

  /** Whatever is given is recorded, asked for or open; whatever is recorded is given or lost. */
  lemma {:induction false} LostAndOpen(units: seq<Unit>, records: Records, c: Claim, us: seq<Unit>, counting: bool)
    requires counting || forall v | v in units && v in c.gives && Recorded(records, c, v) ::
                           records[Identity(c.source, v.id)] == c.gives[v]
    ensures Weigh(units, records, c.source, None, counting) + Asked(units, records, c, us, counting)
            + Open(units, records, c, us, counting)
         == Sum(units, c, counting) + Lost(units, records, c, counting)
  {
    if units != [] {
      var n := |units| - 1;
      assert units[n] in units && forall v | v in units[..n] :: v in units;
      LostAndOpen(units[..n], records, c, us, counting);
    }
  }

  /** A line that is given out in full can bear another event only as far as it has open units for those
      that it has lost. */
  lemma LostNeedOpen(units: seq<Unit>, records: Records, c: Claim, us: seq<Unit>)
    requires Exhausted(units, c) && |c.gives| > 0
    ensures (Weigh(units, records, c.source, None, true) + Asked(units, records, c, us, true)) as real <= c.quantity
       <==> Lost(units, records, c, true) <= Open(units, records, c, us, true)
  {
    LostAndOpen(units, records, c, us, true);
  }

  lemma {:induction false} NothingLost(part: seq<Unit>, records: Records, c: Claim, counting: bool)
    requires forall v | v in part && Recorded(records, c, v) :: v in c.gives
    ensures Lost(part, records, c, counting) == 0
  {
    if part != [] {
      var n := |part| - 1;
      assert part[n] in part && forall v | v in part[..n] :: v in part;
      NothingLost(part[..n], records, c, counting);
    }
  }

  lemma {:induction false} SomethingLost(part: seq<Unit>, records: Records, c: Claim, v: Unit)
    requires v in part && Recorded(records, c, v) && v !in c.gives
    ensures Lost(part, records, c, true) > 0
  {
    var n := |part| - 1;
    if part[n] != v {
      assert part == part[..n] + [part[n]];
      SomethingLost(part[..n], records, c, v);
    }
  }

  lemma {:induction false} NothingOpen(part: seq<Unit>, records: Records, c: Claim, us: seq<Unit>, counting: bool)
    requires forall v | v in part :: v in us
    ensures Open(part, records, c, us, counting) == 0
  {
    if part != [] {
      var n := |part| - 1;
      assert part[n] in part && forall v | v in part[..n] :: v in part;
      NothingOpen(part[..n], records, c, us, counting);
    }
  }

  /** Records that agree let every event through that the line can bear. */
  lemma AgreeingGoes(units: seq<Unit>, records: Records, c: Claim, us: seq<Unit>)
    requires Agrees(units, records, c) && Fits(units, c) && forall u | u in us :: u in units
    ensures Goes(units, records, c, us)
  {
    NothingLost(units, records, c, true);
    NothingLost(units, records, c, false);
    LostAndOpen(units, records, c, us, true);
    LostAndOpen(units, records, c, us, false);
  }

  /** An event about all units needs the line to bear all that it gives. */
  lemma CompleteNeedsFit(units: seq<Unit>, records: Records, c: Claim, us: seq<Unit>)
    requires Goes(units, records, c, us) && (forall v | v in units :: v in us)
    ensures Fits(units, c)
  {
    NothingOpen(units, records, c, us, true);
    NothingOpen(units, records, c, us, false);
    LostAndOpen(units, records, c, us, true);
    LostAndOpen(units, records, c, us, false);
  }

  /** If the line is given out in full, such an event also needs all that is recorded to agree. */
  lemma CompleteNeedsAgreement(units: seq<Unit>, records: Records, c: Claim, us: seq<Unit>)
    requires Goes(units, records, c, us) && (forall v | v in units :: v in us) && Exhausted(units, c) && |c.gives| > 0
    ensures Agrees(units, records, c)
  {
    NothingOpen(units, records, c, us, true);
    LostNeedOpen(units, records, c, us);
    forall v | v in units && Recorded(records, c, v) ensures v in c.gives {
      if v !in c.gives {
        SomethingLost(units, records, c, v);
      }
    }
  }
}
