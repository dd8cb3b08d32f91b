/** Which received units an invoice allocation pays for and which of them a credit note gives back.

    The charging walk and the crediting walk are written separately; both slice the units of a
    receipt line, ordered by id, among the allocations of that line, ordered by creation. */
module CostSlices {
  import opened Wrappers
  import opened Sequences
  import opened MinorUnits

  type UnitId = string
  type LineId = string

  datatype Unit = Unit(id: UnitId, asset: Option<string>)

  /** What a commercial line costs per unit, and its own quantity and total; amounts in millionths. */
  datatype Priced = Priced(price: nat, quantity: real, total: nat)

  /** A receipt-matched allocation has a receipt line, an approved exception has none. `bill` is the
      invoice line that it allocates. */
  datatype Allocation = Allocation(id: string, invoice: string, line: Option<LineId>, quantity: real, bill: Priced)

  const MAX_SAFE: int := 9007199254740991

  predicate SafeInteger(q: real) {
    q == q.Floor as real && -MAX_SAFE <= q.Floor <= MAX_SAFE
  }

  /** A quantity that either walk is prepared to slice by. */
  predicate Countable(q: real) {
    SafeInteger(q) && q > 0.0
  }

  function Count(q: real): nat
    requires Countable(q)
  {
    q.Floor
  }

  ghost predicate DistinctUnits(units: seq<Unit>) {
    forall i, j | 0 <= i < j < |units| :: units[i].id != units[j].id
  }

  ghost predicate DistinctAllocations(rows: seq<Allocation>) {
    forall i, j | 0 <= i < j < |rows| :: rows[i].id != rows[j].id
  }

  /** The allocations of one receipt line, in order. */
  function OfLine(rows: seq<Allocation>, line: LineId): seq<Allocation> {
    if rows == [] then []
    else if rows[0].line == Some(line) then [rows[0]] + OfLine(rows[1..], line)
    else OfLine(rows[1..], line)
  }

  /** How many units the countable allocations of a line take together. */
  function Taken(rows: seq<Allocation>, line: LineId): nat {
    if rows == [] then 0
    else
      var n := |rows| - 1;
      Taken(rows[..n], line)
      + if rows[n].line == Some(line) && Countable(rows[n].quantity) then Count(rows[n].quantity) else 0
  }

  datatype Slice = Slice(start: nat, count: nat)

  /** What row `i` is charged with: the units after all those taken by the rows before it. */
  function ChargeSlice(rows: seq<Allocation>, i: nat, units: seq<Unit>): Option<Slice>
    requires i < |rows|
  {
    if rows[i].line.Some? && Countable(rows[i].quantity)
       && Taken(rows[..i], rows[i].line.value) + Count(rows[i].quantity) <= |units|
    then Some(Slice(Taken(rows[..i], rows[i].line.value), Count(rows[i].quantity)))
    else None
  }

  function Cut(units: seq<Unit>, s: Slice): seq<Unit>
    requires s.start + s.count <= |units|
  {
    units[s.start..s.start + s.count]
  }

  /** The unit is one of those in the slice. */
  predicate Covers(units: seq<Unit>, s: Slice, unit: Unit)
    requires s.start + s.count <= |units|
  {
    exists k | s.start <= k < s.start + s.count :: units[k] == unit
  }

  // ----- The charging walk -----

  datatype Charge = Ambiguous(invoice: string) | Charged(allocation: string, asset: string)

  /** What the walk records for row `i`, if anything. */
  function ChargeOf(rows: seq<Allocation>, i: nat, units: seq<Unit>, unit: Unit): seq<Charge>
    requires i < |rows|
  {
    match ChargeSlice(rows, i, units)
    case None => [Ambiguous(rows[i].invoice)]
    case Some(s) =>
      if Covers(units, s, unit) && unit.asset.Some? then [Charged(rows[i].id, unit.asset.value)] else []
  }

  function Charges(rows: seq<Allocation>, n: nat, units: seq<Unit>, unit: Unit): seq<Charge>
    requires n <= |rows|
  {
    if n == 0 then [] else Charges(rows, n - 1, units, unit) + ChargeOf(rows, n - 1, units, unit)
  }

  method Find(units: seq<Unit>, id: UnitId) returns (r: Option<Unit>)
    ensures r.Some? ==> r.value in units && r.value.id == id
    ensures r == None ==> forall u | u in units :: u.id != id
  {
    for i := 0 to |units|
      invariant forall j | 0 <= j < i :: units[j].id != id
    {
      if units[i].id == id {
        return Some(units[i]);
      }
    }
    return None;
  }

  /** The part of the walk that looks a unit up among the units allocated to one row. */
  method RecordRow(row: Allocation, units: seq<Unit>, start: nat, quantity: nat, unit: Unit) returns (log: seq<Charge>)
    requires DistinctUnits(units) && unit in units
    ensures log == if start + quantity > |units| then [Ambiguous(row.invoice)]
                   else if Covers(units, Slice(start, quantity), unit) && unit.asset.Some?
                   then [Charged(row.id, unit.asset.value)] else []
  {
    if start + quantity > |units| {
      return [Ambiguous(row.invoice)];
    }
    var target := Find(units[start..start + quantity], unit.id);
    if target == None || target.value.asset == None {
      if target.Some? { SameUnit(units, target.value, unit); }
      return [];
    }
    SameUnit(units, target.value, unit);
    return [Charged(row.id, target.value.asset.value)];
  }

  /** What the query for allocations returns: rows of one receipt line and approved exceptions. */
  ghost predicate OnLine(rows: seq<Allocation>, line: LineId) {
    forall i | 0 <= i < |rows| && rows[i].line.Some? :: rows[i].line == Some(line)
  }

  function Relevant(line: LineId): Allocation -> bool {
    (a: Allocation) => a.line == None || a.line == Some(line)
  }

  function Selected(allocations: seq<Allocation>, line: LineId): (rows: seq<Allocation>)
    ensures OnLine(rows, line)
  {
    SelectedOnLine(allocations, line);
    Filter(Relevant(line), allocations)
  }

  /** The query for allocations keeps every row of the receipt line and every approved exception, no
      other row, and the order of the table. */
  lemma SelectedKeepsRows(allocations: seq<Allocation>, line: LineId, a: Allocation)
    ensures Embedded(Selected(allocations, line), allocations)
    ensures multiset(Selected(allocations, line))[a]
         == if a.line == None || a.line == Some(line) then multiset(allocations)[a] else 0
  {
    FilterEmbeds(Relevant(line), allocations);
    FilterCounts(Relevant(line), allocations, a);
  }

  lemma SelectedOnLine(allocations: seq<Allocation>, line: LineId)
    ensures OnLine(Filter(Relevant(line), allocations), line)
  {
    var rows := Filter(Relevant(line), allocations);
    FilterMembers(Relevant(line), allocations);
    forall i | 0 <= i < |rows| && rows[i].line.Some? ensures rows[i].line == Some(line) {
      assert rows[i] in rows;
    }
  }

  lemma NextTaken(rows: seq<Allocation>, i: nat, line: LineId)
    requires i < |rows|
    ensures Taken(rows[..i + 1], line)
         == Taken(rows[..i], line)
            + if rows[i].line == Some(line) && Countable(rows[i].quantity) then Count(rows[i].quantity) else 0
  {
    assert rows[..i + 1][..i] == rows[..i];
  }

  /** Charges one unit: `allocations` are those of its order line, `units` the accepted units of its
      receipt line. */
  method RecordActual(unit: Unit, allocations: seq<Allocation>, units: seq<Unit>, line: LineId)
    returns (log: seq<Charge>)
    requires unit in units && DistinctUnits(units)
    ensures log == Charges(Selected(allocations, line), |Selected(allocations, line)|, units, unit)
  {
    var rows := Selected(allocations, line);
    log := [];
    var offsets: map<LineId, nat> := map[];
    for i := 0 to |rows|
      invariant offsets.Keys <= {line}
      invariant (if line in offsets then offsets[line] else 0) == Taken(rows[..i], line)
      invariant log == Charges(rows, i, units, unit)
    {
      var row := rows[i];
      NextTaken(rows, i, line);
      var recorded: seq<Charge>;
      if row.line == None || !Countable(row.quantity) {
        recorded := [Ambiguous(row.invoice)];
      } else {
        var key, quantity := row.line.value, Count(row.quantity);
        var start := if key in offsets then offsets[key] else 0;
        offsets := offsets[key := start + quantity];
        recorded := RecordRow(row, units, start, quantity, unit);
      }
      log := log + recorded;
    }
  }

  lemma SameUnit(units: seq<Unit>, a: Unit, b: Unit)
    requires DistinctUnits(units) && a in units && b in units && a.id == b.id
    ensures a == b
  {}

  // ----- The crediting walk -----

  /** The row of an allocation among the rows of its line. */
  function IndexOf(rows: seq<Allocation>, id: string): (i: nat)
    ensures i <= |rows|
    ensures i < |rows| ==> rows[i].id == id
    ensures forall j | 0 <= j < i :: rows[j].id != id
  {
    if rows == [] || rows[0].id == id then 0 else 1 + IndexOf(rows[1..], id)
  }

  /** The units that a credit note may still release from an allocation when the other applied
      notes have released `prior` of it. */
  function CreditSlice(rows: seq<Allocation>, id: string, units: seq<Unit>, prior: real): Option<Slice> {
    var i := IndexOf(rows, id);
    if i == |rows| then None
    else if exists j | 0 <= j <= i :: !Countable(rows[j].quantity) then None
    else if !SafeInteger(prior) || prior < 0.0 || prior >= rows[i].quantity then None
    else
      var start := SumCounts(rows, i);
      if start + Count(rows[i].quantity) > |units| then None
      else Some(Slice(start + prior.Floor, Count(rows[i].quantity) - prior.Floor))
  }

  function SumCounts(rows: seq<Allocation>, n: nat): nat
    requires n <= |rows|
  {
    if n == 0 then 0
    else SumCounts(rows, n - 1) + if Countable(rows[n - 1].quantity) then Count(rows[n - 1].quantity) else 0
  }

  method UnitsForAllocation(rows: seq<Allocation>, id: string, units: seq<Unit>, prior: real)
    returns (r: Option<seq<Unit>>)
    ensures match CreditSlice(rows, id, units, prior)
            case None => r == None
            case Some(s) => s.start + s.count <= |units| && r == Some(Cut(units, s))
  {
    var offset := 0;
    for i := 0 to |rows|
      invariant offset == SumCounts(rows, i)
      invariant forall j | 0 <= j < i :: Countable(rows[j].quantity) && rows[j].id != id
    {
      var quantity := rows[i].quantity;
      if !Countable(quantity) {
        return None;
      }
      if rows[i].id == id {
        if !SafeInteger(prior) || prior < 0.0 || prior >= quantity {
          return None;
        }
        var from, to := offset + prior.Floor, offset + quantity.Floor;
        if to > |units| {
          return None;
        }
        return Some(units[from..to]);
      }
      offset := offset + quantity.Floor;
    }
    return None;
  }

  // ----- One line of a credit note -----

  datatype Release = Release(allocation: string, line: Option<LineId>, quantity: real)

  datatype Credit = Skipped | Ambiguity | Released(units: seq<Unit>)

  /** What the database holds around a credit note: per receipt line its approved allocations and
      its accepted units, per allocation what the other applied notes released. */
  datatype Ledger = Ledger(
    rowsOf: map<LineId, seq<Allocation>>, unitsOf: map<LineId, seq<Unit>>, prior: string -> real)

  function RowsOf(db: Ledger, line: LineId): seq<Allocation> {
    if line in db.rowsOf then db.rowsOf[line] else []
  }

  function UnitsOf(db: Ledger, line: LineId): seq<Unit> {
    if line in db.unitsOf then db.unitsOf[line] else []
  }

  function PriorOf(db: Ledger, id: string): real {
    db.prior(id)
  }

  /** The units that one release gives back. */
  function ReleaseSlice(db: Ledger, r: Release): Option<Slice> {
    match r.line
    case None => None
    case Some(line) =>
      match CreditSlice(RowsOf(db, line), r.allocation, UnitsOf(db, line), PriorOf(db, r.allocation))
      case None => None
      case Some(s) =>
        if Countable(r.quantity) && Count(r.quantity) <= s.count then Some(Slice(s.start, Count(r.quantity))) else None
  }

  lemma ReleaseSliceFits(db: Ledger, r: Release)
    requires ReleaseSlice(db, r).Some?
    ensures r.line.Some?
    ensures ReleaseSlice(db, r).value.start + ReleaseSlice(db, r).value.count <= |UnitsOf(db, r.line.value)|
  {}

  function ReleaseUnits(db: Ledger, r: Release): seq<Unit>
    requires ReleaseSlice(db, r).Some?
  {
    ReleaseSliceFits(db, r);
    Cut(UnitsOf(db, r.line.value), ReleaseSlice(db, r).value)
  }

  /** The same, with no units for a release that is unclear. */
  function GivenBack(db: Ledger): Release -> seq<Unit> {
    (r: Release) => if ReleaseSlice(db, r).Some? then ReleaseUnits(db, r) else []
  }

  /** All units that the releases give back, or nothing if one of them is unclear. */
  function AllReleased(db: Ledger, releases: seq<Release>): Option<seq<Unit>> {
    if forall r | r in releases :: ReleaseSlice(db, r).Some? then Some(Flatten(GivenBack(db), releases)) else None
  }

  function ReleasedQuantity(releases: seq<Release>): real {
    if releases == [] then 0.0
    else ReleasedQuantity(releases[..|releases| - 1]) + releases[|releases| - 1].quantity
  }

  /** `amount` counts ten-thousandths. */
  function CreditLine(db: Ledger, releases: seq<Release>, quantity: real, amount: nat): Credit {
    if quantity <= 0.0 || amount == 0 then Skipped
    else if ReleasedQuantity(releases) != quantity || !SafeInteger(quantity) then Ambiguity
    else
      match AllReleased(db, releases)
      case None => Ambiguity
      case Some(units) => if |units| as real == quantity then Released(units) else Ambiguity
  }

  method SumReleased(releases: seq<Release>) returns (sum: real)
    ensures sum == ReleasedQuantity(releases)
  {
    sum := 0.0;
    for i := 0 to |releases|
      invariant sum == ReleasedQuantity(releases[..i])
    {
      assert releases[..i + 1][..i] == releases[..i];
      sum := sum + releases[i].quantity;
    }
    assert releases[..|releases|] == releases;
  }

  /** The units that one release gives back, or nothing if that is unclear. */
  method UnitsReleased(db: Ledger, row: Release) returns (r: Option<seq<Unit>>)
    ensures r == if ReleaseSlice(db, row).Some? then Some(ReleaseUnits(db, row)) else None
  {
    if row.line == None {
      return None;
    }
    var line := row.line.value;
    var found := UnitsForAllocation(RowsOf(db, line), row.allocation, UnitsOf(db, line), PriorOf(db, row.allocation));
    if found == None || !Countable(row.quantity) || row.quantity.Floor > |found.value| {
      return None;
    }
    assert found.value[..row.quantity.Floor] == ReleaseUnits(db, row);
    return Some(found.value[..row.quantity.Floor]);
  }

  /** These releases are clear and give back these units. */
  ghost predicate Collected(db: Ledger, releases: seq<Release>, units: seq<Unit>) {
    AllReleased(db, releases) == Some(units)
  }

  lemma CollectedNext(db: Ledger, before: seq<Release>, next: Release, units: seq<Unit>)
    requires Collected(db, before, units) && ReleaseSlice(db, next).Some?
    ensures Collected(db, before + [next], units + ReleaseUnits(db, next))
  {
    FlattenOneMore(GivenBack(db), before, next);
  }

  lemma CollectedUpTo(db: Ledger, releases: seq<Release>, i: nat, units: seq<Unit>)
    requires i < |releases| && Collected(db, releases[..i], units) && ReleaseSlice(db, releases[i]).Some?
    ensures Collected(db, releases[..i + 1], units + ReleaseUnits(db, releases[i]))
  {
    CollectedNext(db, releases[..i], releases[i], units);
    PrefixNext(releases, i);
  }

  lemma Unclear(db: Ledger, releases: seq<Release>, i: nat)
    requires i < |releases| && ReleaseSlice(db, releases[i]) == None
    ensures AllReleased(db, releases) == None
  {
    assert releases[i] in releases;
  }

  method CollectReleased(db: Ledger, releases: seq<Release>) returns (r: Option<seq<Unit>>)
    ensures r == AllReleased(db, releases)
  {
    var units: seq<Unit> := [];
    for i := 0 to |releases|
      invariant Collected(db, releases[..i], units)
    {
      var found := UnitsReleased(db, releases[i]);
      if found == None {
        Unclear(db, releases, i);
        return None;
      }
      CollectedUpTo(db, releases, i, units);
      units := units + found.value;
    }
    assert releases[..|releases|] == releases;
    return Some(units);
  }

  method RecordCreditLine(db: Ledger, releases: seq<Release>, quantity: real, amount: nat) returns (r: Credit)
    ensures r == CreditLine(db, releases, quantity, amount)
  {
    if quantity <= 0.0 || amount == 0 {
      return Skipped;
    }
    var sum := SumReleased(releases);
    if sum != quantity || !SafeInteger(sum) {
      return Ambiguity;
    }
    var units := CollectReleased(db, releases);
    if units == None || |units.value| as real != quantity {
      return Ambiguity;
    }
    return Released(units.value);
  }
}
