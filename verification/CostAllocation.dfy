/** The two walks agree, one walk charges no unit twice, releases of a line are disjoint, and a
    credit is shared among the released units without loss. */
module CostAllocation {
  import opened Wrappers
  import opened Sequences
  import opened CostSlices
  import opened MinorUnits

  // ----- Agreement of the two walks -----

  /** Where row `i` stands among the rows of its line. */
  function Position(rows: seq<Allocation>, line: LineId, i: nat): nat
    requires i <= |rows|
  {
    |OfLine(rows[..i], line)|
  }

  lemma {:induction false} OfLineConcat(a: seq<Allocation>, b: seq<Allocation>, line: LineId)
    ensures OfLine(a + b, line) == OfLine(a, line) + OfLine(b, line)
  {
    if a == [] {
      assert a + b == b;
    } else {
      OfLineConcat(a[1..], b, line);
      assert (a + b)[1..] == a[1..] + b;
    }
  }

  lemma PositionFinds(rows: seq<Allocation>, line: LineId, i: nat)
    requires i < |rows| && rows[i].line == Some(line)
    ensures Position(rows, line, i) < |OfLine(rows, line)|
    ensures OfLine(rows, line)[Position(rows, line, i)] == rows[i]
    ensures OfLine(rows, line)[..Position(rows, line, i)] == OfLine(rows[..i], line)
  {
    assert rows == rows[..i] + ([rows[i]] + rows[i + 1..]);
    OfLineConcat(rows[..i], [rows[i]] + rows[i + 1..], line);
    assert ([rows[i]] + rows[i + 1..])[0] == rows[i];
  }

  lemma {:induction false} OfLineMembers(rows: seq<Allocation>, line: LineId)
    ensures forall a :: a in OfLine(rows, line) <==> a in rows && a.line == Some(line)
  {
    if rows != [] {
      OfLineMembers(rows[1..], line);
    }
  }

  lemma {:induction false} TakenIsSum(rows: seq<Allocation>, line: LineId)
    ensures Taken(rows, line) == SumCounts(OfLine(rows, line), |OfLine(rows, line)|)
  {
    if rows != [] {
      var n := |rows| - 1;
      TakenIsSum(rows[..n], line);
      OfLineConcat(rows[..n], [rows[n]], line);
      assert rows == rows[..n] + [rows[n]];
      assert OfLine([rows[n]], line) == if rows[n].line == Some(line) then [rows[n]] else [];
      SumCountsPrefix(OfLine(rows, line), OfLine(rows[..n], line), |OfLine(rows[..n], line)|);
    }
  }

  lemma {:induction false} SumCountsPrefix(a: seq<Allocation>, b: seq<Allocation>, n: nat)
    requires n <= |a| && n <= |b| && a[..n] == b[..n]
    ensures SumCounts(a, n) == SumCounts(b, n)
  {
    if n > 0 {
      assert a[n - 1] == a[..n][n - 1] && b[n - 1] == b[..n][n - 1];
      assert a[..n - 1] == a[..n][..n - 1] && b[..n - 1] == b[..n][..n - 1];
      SumCountsPrefix(a, b, n - 1);
    }
  }

  /** Every quantity on the line up to row `i` can be sliced by. */
  ghost predicate CountableUpTo(rows: seq<Allocation>, line: LineId, i: nat)
    requires i < |rows|
  {
    forall j | 0 <= j <= i && rows[j].line == Some(line) :: Countable(rows[j].quantity)
  }

  lemma PositionIsIndex(rows: seq<Allocation>, line: LineId, i: nat)
    requires i < |rows| && rows[i].line == Some(line) && DistinctAllocations(rows)
    ensures IndexOf(OfLine(rows, line), rows[i].id) == Position(rows, line, i)
  {
    var here := OfLine(rows, line);
    var k := Position(rows, line, i);
    PositionFinds(rows, line, i);
    OfLineMembers(rows[..i], line);
    forall j | 0 <= j < k ensures here[j].id != rows[i].id {
      assert here[j] == here[..k][j];
      assert here[j] in OfLine(rows[..i], line);
    }
  }

  lemma CountablePrefix(rows: seq<Allocation>, line: LineId, i: nat)
    requires i < |rows| && rows[i].line == Some(line)
    ensures Position(rows, line, i) < |OfLine(rows, line)|
    ensures CountableUpTo(rows, line, i)
       <==> forall j | 0 <= j <= Position(rows, line, i) :: Countable(OfLine(rows, line)[j].quantity)
  {
    var here := OfLine(rows, line);
    var k := Position(rows, line, i);
    PositionFinds(rows, line, i);
    OfLineMembers(rows[..i], line);
    if CountableUpTo(rows, line, i) {
      forall j | 0 <= j <= k ensures Countable(here[j].quantity) {
        if j < k {
          assert here[j] == here[..k][j];
          assert here[j] in rows[..i];
        }
      }
    }
    if forall j | 0 <= j <= k :: Countable(here[j].quantity) {
      forall j | 0 <= j <= i && rows[j].line == Some(line) ensures Countable(rows[j].quantity) {
        if j < i {
          assert rows[j] in rows[..i];
          var m :| 0 <= m < |OfLine(rows[..i], line)| && OfLine(rows[..i], line)[m] == rows[j];
          assert here[..k][m] == here[m];
        } else {
          assert here[k] == rows[i];
        }
      }
    }
  }

  /** The crediting walk finds units exactly when the charging walk does, every quantity so far
      can be sliced by, and something is left to release; what it finds is then the charged
      slice without the part released before. */
  lemma WalksAgree(rows: seq<Allocation>, line: LineId, i: nat, units: seq<Unit>, prior: real)
    requires i < |rows| && rows[i].line == Some(line) && DistinctAllocations(rows)
    ensures var charged := ChargeSlice(rows, i, units);
            var credited := CreditSlice(OfLine(rows, line), rows[i].id, units, prior);
            && (credited.Some?
                <==> charged.Some? && CountableUpTo(rows, line, i)
                     && SafeInteger(prior) && 0.0 <= prior < rows[i].quantity)
            && (credited.Some? ==>
                  credited.value == Slice(charged.value.start + prior.Floor, charged.value.count - prior.Floor))
  {
    PositionFinds(rows, line, i);
    PositionIsIndex(rows, line, i);
    CountablePrefix(rows, line, i);
    TakenIsSum(rows[..i], line);
    SumCountsPrefix(OfLine(rows, line), OfLine(rows[..i], line), Position(rows, line, i));
  }

  // ----- No unit is charged twice -----

  /** Half a unit before a whole one: charging skips the first row and serves the second, crediting
      gives up. */
  lemma WalksDisagree(line: LineId, unit: Unit, bill: Priced)
    ensures var rows := [Allocation("a", "i", Some(line), 0.5, bill), Allocation("b", "i", Some(line), 1.0, bill)];
            && ChargeSlice(rows, 1, [unit]) == Some(Slice(0, 1))
            && CreditSlice(OfLine(rows, line), "b", [unit], 0.0) == None
  {
    var rows := [Allocation("a", "i", Some(line), 0.5, bill), Allocation("b", "i", Some(line), 1.0, bill)];
    assert rows[..1][..0] == [] && !Countable(rows[0].quantity) && Countable(rows[1].quantity);
    assert Count(1.0) == 1 && Taken(rows[..1], line) == 0;
    assert rows[1..] == [rows[1]] && rows[1..][1..] == [];
    assert OfLine(rows[1..], line) == [rows[1]];
    assert OfLine(rows, line) == rows;
    assert IndexOf(rows[1..], "b") == 0 && IndexOf(rows, "b") == 1;
  }

  lemma {:induction false} TakenGrows(rows: seq<Allocation>, line: LineId, i: nat, j: nat)
    requires i < j <= |rows| && rows[i].line == Some(line) && Countable(rows[i].quantity)
    ensures Taken(rows[..i], line) + Count(rows[i].quantity) <= Taken(rows[..j], line)
    decreases j
  {
    assert rows[..j][..j - 1] == rows[..j - 1] && rows[..j][j - 1] == rows[j - 1];
    if i < j - 1 {
      TakenGrows(rows, line, i, j - 1);
    }
  }

  /** Slices of different allocations of a line do not meet, and they follow the row order. */
  lemma SlicesAreDisjoint(rows: seq<Allocation>, i: nat, j: nat, units: seq<Unit>)
    requires i < j < |rows| && rows[i].line == rows[j].line
    requires ChargeSlice(rows, i, units).Some? && ChargeSlice(rows, j, units).Some?
    ensures ChargeSlice(rows, i, units).value.start + ChargeSlice(rows, i, units).value.count
         <= ChargeSlice(rows, j, units).value.start
  {
    TakenGrows(rows, rows[i].line.value, i, j);
  }

  function ChargedCount(log: seq<Charge>): nat {
    |set k | 0 <= k < |log| && log[k].Charged?|
  }

  ghost predicate ChargedBy(rows: seq<Allocation>, i: nat, units: seq<Unit>, unit: Unit)
    requires i < |rows|
  {
    ChargeSlice(rows, i, units).Some? && Covers(units, ChargeSlice(rows, i, units).value, unit)
  }

  lemma ChargedCountConcat(log: seq<Charge>, more: seq<Charge>)
    requires |more| <= 1
    ensures ChargedCount(log + more) == ChargedCount(log) + if more != [] && more[0].Charged? then 1 else 0
  {
    var all, n := log + more, |log|;
    var charged := set k | 0 <= k < n && log[k].Charged?;
    assert (set k | 0 <= k < |all| && all[k].Charged?) == charged + if more != [] && more[0].Charged? then {n} else {};
  }

  /** However many invoices cover a receipt line, one walk charges a unit with an asset at most once,
      and it does so exactly when some allocation's slice holds it. */
  lemma ChargedOnce(rows: seq<Allocation>, n: nat, units: seq<Unit>, unit: Unit, line: LineId)
    requires n <= |rows| && DistinctUnits(units) && unit.asset.Some? && OnLine(rows, line)
    ensures ChargedCount(Charges(rows, n, units, unit))
         == if exists i | 0 <= i < n :: ChargedBy(rows, i, units, unit) then 1 else 0
  {
    ChargesCount(rows, n, units, unit);
    HoldersAreOne(rows, n, units, unit, line);
  }

  /** How many of the first `n` rows have a slice with the unit. */
  ghost function Holders(rows: seq<Allocation>, n: nat, units: seq<Unit>, unit: Unit): nat
    requires n <= |rows|
  {
    if n == 0 then 0 else Holders(rows, n - 1, units, unit) + if ChargedBy(rows, n - 1, units, unit) then 1 else 0
  }

  /** One row charges the unit once if its slice has it, and not otherwise. */
  lemma RowCounts(rows: seq<Allocation>, n: nat, units: seq<Unit>, unit: Unit)
    requires n < |rows| && unit.asset.Some?
    ensures ChargedCount(Charges(rows, n + 1, units, unit))
         == ChargedCount(Charges(rows, n, units, unit)) + if ChargedBy(rows, n, units, unit) then 1 else 0
  {
    ChargedCountConcat(Charges(rows, n, units, unit), ChargeOf(rows, n, units, unit));
  }

  lemma {:induction false} ChargesCount(rows: seq<Allocation>, n: nat, units: seq<Unit>, unit: Unit)
    requires n <= |rows| && unit.asset.Some?
    ensures ChargedCount(Charges(rows, n, units, unit)) == Holders(rows, n, units, unit)
  {
    if n > 0 {
      ChargesCount(rows, n - 1, units, unit);
      RowCounts(rows, n - 1, units, unit);
    }
  }

  lemma {:induction false} NoHolders(rows: seq<Allocation>, n: nat, units: seq<Unit>, unit: Unit)
    requires n <= |rows| && forall i | 0 <= i < n :: !ChargedBy(rows, i, units, unit)
    ensures Holders(rows, n, units, unit) == 0
  {
    if n > 0 {
      NoHolders(rows, n - 1, units, unit);
    }
  }

  lemma {:induction false} HoldersAreOne(rows: seq<Allocation>, n: nat, units: seq<Unit>, unit: Unit, line: LineId)
    requires n <= |rows| && DistinctUnits(units) && unit.asset.Some? && OnLine(rows, line)
    ensures Holders(rows, n, units, unit) == if exists i | 0 <= i < n :: ChargedBy(rows, i, units, unit) then 1 else 0
  {
    if n > 0 {
      if ChargedBy(rows, n - 1, units, unit) {
        NotBefore(rows, n - 1, units, unit, line);
        NoHolders(rows, n - 1, units, unit);
      } else {
        HoldersAreOne(rows, n - 1, units, unit, line);
      }
    }
  }

  lemma NotBefore(rows: seq<Allocation>, n: nat, units: seq<Unit>, unit: Unit, line: LineId)
    requires n < |rows| && DistinctUnits(units) && unit.asset.Some? && OnLine(rows, line)
    requires ChargedBy(rows, n, units, unit)
    ensures forall i | 0 <= i < n :: !ChargedBy(rows, i, units, unit)
  {
    forall i | 0 <= i < n ensures !ChargedBy(rows, i, units, unit) {
      if ChargedBy(rows, i, units, unit) {
        SlicesAreDisjoint(rows, i, n, units);
      }
    }
  }

  // ----- Releases of one allocation -----

  /** What a note releasing `quantity` gets from an allocation charged with `slice`, when the
      other applied notes have released `prior`; nothing means ambiguity work. */
  function NoteSlice(slice: Slice, prior: nat, quantity: nat): Option<Slice> {
    if prior < slice.count && 0 < quantity <= slice.count - prior
    then Some(Slice(slice.start + prior, quantity)) else None
  }

  ghost predicate Overlap(a: Slice, b: Slice) {
    a.start < b.start + b.count && b.start < a.start + a.count
  }

  /** A release is served as the note slices above say. */
  lemma ReleaseIsNoteSlice(db: Ledger, rows: seq<Allocation>, line: LineId, i: nat, r: Release)
    requires i < |rows| && rows[i].line == Some(line) && DistinctAllocations(rows) && CountableUpTo(rows, line, i)
    requires RowsOf(db, line) == OfLine(rows, line) && r.allocation == rows[i].id && r.line == Some(line)
    requires Countable(r.quantity) && SafeInteger(PriorOf(db, r.allocation)) && PriorOf(db, r.allocation) >= 0.0
    requires ChargeSlice(rows, i, UnitsOf(db, line)).Some?
    ensures ReleaseSlice(db, r)
         == NoteSlice(ChargeSlice(rows, i, UnitsOf(db, line)).value, PriorOf(db, r.allocation).Floor, Count(r.quantity))
  {
    WalksAgree(rows, line, i, UnitsOf(db, line), PriorOf(db, r.allocation));
    var prior := PriorOf(db, r.allocation);
    assert prior < rows[i].quantity <==> prior.Floor < Count(rows[i].quantity);
  }

  // ----- Distinct released units -----

  lemma {:induction false} CreditOrder(rows: seq<Allocation>, i: nat, j: nat)
    requires i < j <= |rows| && Countable(rows[i].quantity)
    ensures SumCounts(rows, i) + Count(rows[i].quantity) <= SumCounts(rows, j)
    decreases j
  {
    if i < j - 1 {
      CreditOrder(rows, i, j - 1);
    }
  }

  /** Releases from two different allocations of a line give back different units. */
  lemma ReleasesAreDisjoint(db: Ledger, a: Release, b: Release)
    requires a.line == b.line && a.allocation != b.allocation
    requires ReleaseSlice(db, a).Some? && ReleaseSlice(db, b).Some?
    ensures !Overlap(ReleaseSlice(db, a).value, ReleaseSlice(db, b).value)
  {
    var rows := RowsOf(db, a.line.value);
    var i, j := IndexOf(rows, a.allocation), IndexOf(rows, b.allocation);
    if i < j {
      CreditOrder(rows, i, j);
    } else {
      CreditOrder(rows, j, i);
    }
  }

  ghost predicate OneLine(releases: seq<Release>, line: LineId) {
    && (forall i | 0 <= i < |releases| :: releases[i].line == Some(line))
    && (forall i, j | 0 <= i < j < |releases| :: releases[i].allocation != releases[j].allocation)
  }

  lemma ReleasedMember(db: Ledger, releases: seq<Release>, line: LineId, u: Unit)
    requires OneLine(releases, line) && AllReleased(db, releases).Some? && u in AllReleased(db, releases).value
    ensures u in UnitsOf(db, line)
  {
    FlattenHas(GivenBack(db), releases, u);
    var r :| r in releases && u in GivenBack(db)(r);
    var i :| 0 <= i < |releases| && releases[i] == r;
  }

  ghost predicate ApartLists(a: seq<Unit>, b: seq<Unit>) {
    forall u, v | u in a && v in b :: u.id != v.id
  }

  lemma ApartUnits(units: seq<Unit>, a: Slice, b: Slice)
    requires DistinctUnits(units) && a.start + a.count <= |units| && b.start + b.count <= |units| && !Overlap(a, b)
    ensures ApartLists(Cut(units, a), Cut(units, b))
  {
    forall u, v | u in Cut(units, a) && v in Cut(units, b) ensures u.id != v.id {
      var i :| 0 <= i < a.count && Cut(units, a)[i] == u;
      var j :| 0 <= j < b.count && Cut(units, b)[j] == v;
      assert units[a.start + i] == u && units[b.start + j] == v;
    }
  }

  lemma ReleasedByTwo(db: Ledger, a: Release, b: Release, line: LineId)
    requires a.line == Some(line) && b.line == Some(line) && a.allocation != b.allocation
    requires ReleaseSlice(db, a).Some? && ReleaseSlice(db, b).Some? && DistinctUnits(UnitsOf(db, line))
    ensures ApartLists(ReleaseUnits(db, a), ReleaseUnits(db, b))
  {
    ReleasesAreDisjoint(db, a, b);
    ApartUnits(UnitsOf(db, line), ReleaseSlice(db, a).value, ReleaseSlice(db, b).value);
  }

  lemma CutIsDistinct(units: seq<Unit>, s: Slice)
    requires DistinctUnits(units) && s.start + s.count <= |units|
    ensures DistinctUnits(Cut(units, s))
  {
    assert forall j | 0 <= j < s.count :: Cut(units, s)[j] == units[s.start + j];
  }

  lemma DistinctJoin(a: seq<Unit>, b: seq<Unit>)
    requires DistinctUnits(a) && DistinctUnits(b) && ApartLists(a, b)
    ensures DistinctUnits(a + b)
  {
    forall i, j | 0 <= i < j < |a + b| ensures (a + b)[i].id != (a + b)[j].id {
      assert i < |a| ==> (a + b)[i] in a;
      assert j >= |a| ==> (a + b)[j] in b;
    }
  }

  lemma {:induction false} FlattenApart(f: Release -> seq<Unit>, releases: seq<Release>, last: seq<Unit>)
    requires forall r | r in releases :: ApartLists(f(r), last)
    ensures ApartLists(Flatten(f, releases), last)
  {
    forall u | u in Flatten(f, releases) ensures ApartLists([u], last) {
      FlattenHas(f, releases, u);
      var r :| r in releases && u in f(r);
      assert ApartLists(f(r), last);
    }
    assert forall u | u in Flatten(f, releases) :: u in [u];
  }

  lemma {:induction false} FlattenDistinct(f: Release -> seq<Unit>, releases: seq<Release>)
    requires forall r | r in releases :: DistinctUnits(f(r))
    requires forall i, j | 0 <= i < j < |releases| :: ApartLists(f(releases[i]), f(releases[j]))
    ensures DistinctUnits(Flatten(f, releases))
  {
    if releases != [] {
      var n := |releases| - 1;
      FlattenDistinct(f, releases[..n]);
      FlattenApart(f, releases[..n], f(releases[n]));
      DistinctJoin(Flatten(f, releases[..n]), f(releases[n]));
    }
  }

  /** A credit line releases every unit at most once. */
  lemma ReleasedAreDistinct(db: Ledger, releases: seq<Release>, line: LineId)
    requires OneLine(releases, line) && DistinctUnits(UnitsOf(db, line)) && AllReleased(db, releases).Some?
    ensures DistinctUnits(AllReleased(db, releases).value)
  {
    var f := GivenBack(db);
    forall i | 0 <= i < |releases| ensures DistinctUnits(f(releases[i])) {
      assert releases[i] in releases;
      CutIsDistinct(UnitsOf(db, line), ReleaseSlice(db, releases[i]).value);
    }
    forall i, j | 0 <= i < j < |releases| ensures ApartLists(f(releases[i]), f(releases[j])) {
      assert releases[i] in releases && releases[j] in releases;
      ReleasedByTwo(db, releases[i], releases[j], line);
    }
    FlattenDistinct(f, releases);
  }

  // ----- Sharing the credit -----

  type UnitOrder = (UnitId, UnitId) -> bool

  function InsertUnit(le: UnitOrder, u: Unit, us: seq<Unit>): seq<Unit> {
    if us == [] || le(u.id, us[0].id) then [u] + us else [us[0]] + InsertUnit(le, u, us[1..])
  }

  function SortUnits(le: UnitOrder, us: seq<Unit>): seq<Unit> {
    if us == [] then [] else InsertUnit(le, us[0], SortUnits(le, us[1..]))
  }

  function FindIndex(us: seq<Unit>, id: UnitId): (i: nat)
    ensures i <= |us| && (i < |us| ==> us[i].id == id)
    ensures forall j | 0 <= j < i :: us[j].id != id
  {
    if us == [] || us[0].id == id then 0 else 1 + FindIndex(us[1..], id)
  }

  /** The adjustment of one unit when `released` units share `amount`. */
  function CreditOf(le: UnitOrder, released: seq<Unit>, amount: string, digits: nat, id: UnitId): Option<string>
    requires Amount(amount)
  {
    var sorted := SortUnits(le, released);
    var i := FindIndex(sorted, id);
    if i < |sorted| then Some(SplitMinorUnits(amount, |sorted|, digits)[i]) else None
  }

  function SumOver(f: Unit -> nat, us: seq<Unit>): nat {
    if us == [] then 0 else f(us[0]) + SumOver(f, us[1..])
  }

  lemma {:induction false} InsertKeeps(le: UnitOrder, u: Unit, us: seq<Unit>, f: Unit -> nat)
    ensures multiset(InsertUnit(le, u, us)) == multiset{u} + multiset(us)
    ensures SumOver(f, InsertUnit(le, u, us)) == f(u) + SumOver(f, us)
  {
    if us == [] || le(u.id, us[0].id) {
      assert ([u] + us)[1..] == us;
    } else {
      InsertKeeps(le, u, us[1..], f);
      var r := InsertUnit(le, u, us[1..]);
      assert ([us[0]] + r)[1..] == r;
      assert us == [us[0]] + us[1..];
    }
  }

  lemma {:induction false} SortKeeps(le: UnitOrder, us: seq<Unit>, f: Unit -> nat)
    ensures multiset(SortUnits(le, us)) == multiset(us)
    ensures SumOver(f, SortUnits(le, us)) == SumOver(f, us)
  {
    if us != [] {
      SortKeeps(le, us[1..], f);
      InsertKeeps(le, us[0], SortUnits(le, us[1..]), f);
      assert us == [us[0]] + us[1..];
    }
  }

  lemma {:induction false} DistinctInsert(le: UnitOrder, u: Unit, us: seq<Unit>)
    requires DistinctUnits(us) && forall v | v in us :: v.id != u.id
    ensures DistinctUnits(InsertUnit(le, u, us))
  {
    if us == [] || le(u.id, us[0].id) {
    } else {
      var r := InsertUnit(le, u, us[1..]);
      DistinctInsert(le, u, us[1..]);
      InsertKeeps(le, u, us[1..], _ => 0);
      forall j | 0 <= j < |r| ensures r[j].id != us[0].id {
        assert r[j] in multiset(r);
        assert r[j] == u || r[j] in us[1..];
      }
    }
  }

  lemma {:induction false} DistinctSort(le: UnitOrder, us: seq<Unit>)
    requires DistinctUnits(us)
    ensures DistinctUnits(SortUnits(le, us))
  {
    if us != [] {
      DistinctSort(le, us[1..]);
      SortKeeps(le, us[1..], _ => 0);
      forall v | v in SortUnits(le, us[1..]) ensures v.id != us[0].id {
        assert v in multiset(us[1..]);
        assert v in us[1..];
      }
      DistinctInsert(le, us[0], SortUnits(le, us[1..]));
    }
  }

  lemma {:induction false} FindIndexAt(us: seq<Unit>, i: nat)
    requires DistinctUnits(us) && i < |us|
    ensures FindIndex(us, us[i].id) == i
  {
    if i > 0 {
      FindIndexAt(us[1..], i - 1);
    }
  }

  /** The minor units credited to a released unit. */
  function MinorCredit(le: UnitOrder, released: seq<Unit>, amount: string, digits: nat, u: Unit): nat
    requires Amount(amount)
  {
    match CreditOf(le, released, amount, digits, u.id)
    case Some(share) => if Amount(share) then Minor(share, digits) else 0
    case None => 0
  }

  function CreditIn(le: UnitOrder, released: seq<Unit>, amount: string, digits: nat): Unit -> nat
    requires Amount(amount)
  {
    u => MinorCredit(le, released, amount, digits, u)
  }

  /** The shares of an amount that counts ten-thousandths. */
  function ShareOut(le: UnitOrder, released: seq<Unit>, amount: nat, digits: nat): Unit -> nat {
    u => MinorCredit(le, released, Printed(amount), digits, u)
  }

  lemma {:induction false} SumOverSame(f: Unit -> nat, g: Unit -> nat, us: seq<Unit>)
    requires forall u | u in us :: f(u) == g(u)
    ensures SumOver(f, us) == SumOver(g, us)
  {
    if us != [] {
      assert us[0] in us && forall u | u in us[1..] :: u in us;
      SumOverSame(f, g, us[1..]);
    }
  }

  lemma SharedOut(le: UnitOrder, released: seq<Unit>, amount: nat, digits: nat)
    requires released != [] && DistinctUnits(released)
    ensures SumOver(ShareOut(le, released, amount, digits), released) == InMinor(amount, digits)
  {
    SharesAddUp(le, released, Printed(amount), digits);
    PrintedInMinor(amount, digits);
    SumOverSame(ShareOut(le, released, amount, digits), CreditIn(le, released, Printed(amount), digits), released);
  }

  lemma {:induction false} SumOfShares(f: Unit -> nat, us: seq<Unit>, total: nat, n: nat)
    requires n <= |us| && us != []
    requires forall i | 0 <= i < |us| :: f(us[i]) == Share(total, |us|, i)
    ensures SumOver(f, us[n..]) + SumShares(total, |us|, n) == SumShares(total, |us|, |us|)
    decreases |us| - n
  {
    if n < |us| {
      SumOfShares(f, us, total, n + 1);
      assert us[n..][1..] == us[n + 1..] && us[n..][0] == us[n];
    }
  }

  /** Every released unit has a share, nobody else does, and the shares of all released units
      together are the credited amount in minor units. */
  lemma CreditIsConserved(le: UnitOrder, released: seq<Unit>, amount: string, digits: nat)
    requires Amount(amount) && released != [] && DistinctUnits(released)
    ensures forall id :: CreditOf(le, released, amount, digits, id).Some? <==> exists u | u in released :: u.id == id
    ensures SumOver(CreditIn(le, released, amount, digits), released) == Minor(amount, digits)
  {
    forall id ensures CreditOf(le, released, amount, digits, id).Some? <==> exists u | u in released :: u.id == id {
      CreditReaches(le, released, amount, digits, id);
    }
    SharesAddUp(le, released, amount, digits);
  }

  lemma SortedMembers(le: UnitOrder, us: seq<Unit>)
    ensures forall u :: u in SortUnits(le, us) <==> u in us
  {
    SortKeeps(le, us, _ => 0);
    forall u ensures u in SortUnits(le, us) <==> u in us {
      assert u in SortUnits(le, us) <==> u in multiset(SortUnits(le, us));
      assert u in us <==> u in multiset(us);
    }
  }

  lemma CreditReaches(le: UnitOrder, released: seq<Unit>, amount: string, digits: nat, id: UnitId)
    requires Amount(amount)
    ensures CreditOf(le, released, amount, digits, id).Some? <==> exists u | u in released :: u.id == id
  {
    var sorted := SortUnits(le, released);
    var i := FindIndex(sorted, id);
    SortedMembers(le, released);
    if i < |sorted| {
      assert sorted[i] in sorted;
    }
    if u :| u in released && u.id == id {
      assert u in sorted;
    }
  }

  lemma SharesByIndex(le: UnitOrder, released: seq<Unit>, amount: string, digits: nat)
    requires Amount(amount) && DistinctUnits(SortUnits(le, released)) && SortUnits(le, released) != []
    ensures var sorted := SortUnits(le, released);
            forall i | 0 <= i < |sorted| ::
              MinorCredit(le, released, amount, digits, sorted[i]) == Share(Minor(amount, digits), |sorted|, i)
  {
    var sorted := SortUnits(le, released);
    SplitShares(amount, |sorted|, digits);
    forall i | 0 <= i < |sorted|
      ensures MinorCredit(le, released, amount, digits, sorted[i]) == Share(Minor(amount, digits), |sorted|, i)
    {
      ShareAt(le, released, amount, digits, sorted, SplitMinorUnits(amount, |sorted|, digits), i);
    }
  }

  lemma SharesAddUp(le: UnitOrder, released: seq<Unit>, amount: string, digits: nat)
    requires Amount(amount) && released != [] && DistinctUnits(released)
    ensures SumOver(CreditIn(le, released, amount, digits), released) == Minor(amount, digits)
  {
    var sorted := SortUnits(le, released);
    var f := CreditIn(le, released, amount, digits);
    SortKeeps(le, released, f);
    DistinctSort(le, released);
    assert |multiset(sorted)| == |multiset(released)|;
    SharesByIndex(le, released, amount, digits);
    SumOfShares(f, sorted, Minor(amount, digits), 0);
    SharesConserve(Minor(amount, digits), |sorted|);
    assert sorted[0..] == sorted;
  }

  lemma {:induction false} SumSplits(f: Unit -> nat, p: Unit -> bool, us: seq<Unit>)
    ensures SumOver(f, Filter(p, us)) <= SumOver(f, us)
    ensures SumOver(f, Filter(p, us)) == SumOver(f, us) <==> forall u | u in us && !p(u) :: f(u) == 0
  {
    if us != [] {
      var n := |us| - 1;
      SumSplits(f, p, us[..n]);
      SumAppends(f, us[..n], us[n]);
      SumAppends(f, Filter(p, us[..n]), us[n]);
      assert us == us[..n] + [us[n]];
    }
  }

  lemma {:induction false} SumAppends(f: Unit -> nat, us: seq<Unit>, u: Unit)
    ensures SumOver(f, us + [u]) == SumOver(f, us) + f(u)
  {
    if us == [] {
      assert us + [u] == [u];
    } else {
      SumAppends(f, us[1..], u);
      assert (us + [u])[1..] == us[1..] + [u];
    }
  }

  /** Only units with an asset are credited: what is recorded is the whole amount exactly if every
      unit without an asset has a share of nothing. */
  lemma RegisteredCredit(le: UnitOrder, released: seq<Unit>, registered: Unit -> bool, amount: string, digits: nat)
    requires Amount(amount) && released != [] && DistinctUnits(released)
    ensures var f := CreditIn(le, released, amount, digits);
            && SumOver(f, Filter(registered, released)) <= Minor(amount, digits)
            && (SumOver(f, Filter(registered, released)) == Minor(amount, digits)
                <==> forall u | u in released && !registered(u) :: f(u) == 0)
  {
    SharesAddUp(le, released, amount, digits);
    SumSplits(CreditIn(le, released, amount, digits), registered, released);
  }

  lemma ShareAt(le: UnitOrder, released: seq<Unit>, amount: string, digits: nat, sorted: seq<Unit>,
                shares: seq<string>, i: nat)
    requires Amount(amount) && sorted == SortUnits(le, released) && DistinctUnits(sorted) && i < |sorted|
    requires shares == SplitMinorUnits(amount, |sorted|, digits)
    requires HasShares(shares, digits, Minor(amount, digits), |sorted|)
    ensures MinorCredit(le, released, amount, digits, sorted[i]) == Share(Minor(amount, digits), |sorted|, i)
  {
    FindIndexAt(sorted, i);
    assert CreditOf(le, released, amount, digits, sorted[i].id) == Some(shares[i]);
  }

  /** A credit line that is not ambiguous: as many different units as were credited, each with its
      share, adding up to the credited amount cut to minor units. */
  lemma CreditLineConserves(db: Ledger, releases: seq<Release>, quantity: real, amount: nat,
                            line: LineId, le: UnitOrder, digits: nat)
    requires OneLine(releases, line) && DistinctUnits(UnitsOf(db, line))
    requires CreditLine(db, releases, quantity, amount).Released?
    ensures var units := CreditLine(db, releases, quantity, amount).units;
            && |units| as real == quantity && DistinctUnits(units)
            && (forall u | u in units :: u in UnitsOf(db, line))
            && SumOver(ShareOut(le, units, amount, digits), units) == InMinor(amount, digits)
  {
    var units := CreditLine(db, releases, quantity, amount).units;
    ReleasedAreDistinct(db, releases, line);
    forall u | u in units ensures u in UnitsOf(db, line) {
      ReleasedMember(db, releases, line, u);
    }
    SharedOut(le, units, amount, digits);
  }
}
