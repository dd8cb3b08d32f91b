/** Credit notes of one receipt line over time: invoices are approved and notes are applied, and every
    event walks all of them again. Which units a note is given, and when it keeps them. */
module CreditNotes {
  import opened Wrappers
  import opened Sequences
  import opened MinorUnits
  import opened CostSlices
  import opened CostAllocation
  import opened CostLines

  /** A line of a credit note with its rows of the release table; `amount` counts ten-thousandths. */
  datatype NoteLine = NoteLine(note: string, id: string, quantity: real, amount: nat, digits: nat,
                               releases: seq<Release>)

  /** What does not change: a receipt line with its accepted units, all its allocations in the order in
      which they are matched, the lines of all its credit notes, and its order line if that is in
      force. `le` is the order in which shares are handed out. */
  datatype Book = Book(
    line: LineId, rows: seq<Allocation>, units: seq<Unit>, lines: seq<NoteLine>, order: Option<Priced>, le: UnitOrder)

  ghost predicate ValidBook(b: Book) {
    && DistinctUnits(b.units) && DistinctAllocations(b.rows)
    && (forall i, j | 0 <= i < j < |b.lines| :: b.lines[i].id != b.lines[j].id)
    && (forall l | l in b.lines :: ValidLine(l))
    && (forall a | a in b.rows :: a.bill.quantity >= 0.0) && (b.order.Some? ==> b.order.value.quantity >= 0.0)
  }

  /** The release table holds positive quantities, one row per line and allocation. */
  ghost predicate ValidLine(l: NoteLine) {
    && l.quantity >= 0.0
    && Positive(l.releases)
    && (forall i, j | 0 <= i < j < |l.releases| :: l.releases[i].allocation != l.releases[j].allocation)
  }

  // ----- Prior releases -----

  function OnAllocation(releases: seq<Release>, allocation: string): real {
    if releases == [] then 0.0
    else
      var n := |releases| - 1;
      OnAllocation(releases[..n], allocation)
      + if releases[n].allocation == allocation then releases[n].quantity else 0.0
  }

  /** The query for prior releases: all rows of other applied notes on the allocation. */
  function Prior(lines: seq<NoteLine>, applied: set<string>, note: string, allocation: string): real {
    if lines == [] then 0.0
    else
      var n := |lines| - 1;
      Prior(lines[..n], applied, note, allocation)
      + if lines[n].note in applied && lines[n].note != note then OnAllocation(lines[n].releases, allocation) else 0.0
  }

  predicate Touches(l: NoteLine, allocation: string) {
    exists r | r in l.releases :: r.allocation == allocation
  }

  lemma {:induction false} OnAllocationSign(releases: seq<Release>, allocation: string)
    requires Positive(releases)
    ensures OnAllocation(releases, allocation) >= 0.0
    ensures OnAllocation(releases, allocation) == 0.0 <==> forall r | r in releases :: r.allocation != allocation
  {
    if releases != [] {
      var n := |releases| - 1;
      OnAllocationSign(releases[..n], allocation);
      assert releases == releases[..n] + [releases[n]];
    }
  }

  /** The line belongs to another note, applied since `before`, and releases from the allocation. */
  predicate NewlyTouches(m: NoteLine, before: set<string>, applied: set<string>, note: string, allocation: string) {
    m.note in applied && m.note !in before && m.note != note && Touches(m, allocation)
  }

  ghost predicate TouchedSince(lines: seq<NoteLine>, before: set<string>, applied: set<string>, note: string,
                               allocation: string)
  {
    exists m | m in lines :: NewlyTouches(m, before, applied, note, allocation)
  }

  lemma TouchedByOneMore(lines: seq<NoteLine>, m: NoteLine, before: set<string>, applied: set<string>, note: string,
                         allocation: string)
    ensures TouchedSince(lines + [m], before, applied, note, allocation)
       <==> TouchedSince(lines, before, applied, note, allocation) || NewlyTouches(m, before, applied, note, allocation)
  {
    if x :| x in lines && NewlyTouches(x, before, applied, note, allocation) {
      assert x in lines + [m];
    }
    if NewlyTouches(m, before, applied, note, allocation) {
      assert m in lines + [m];
    }
  }

  ghost predicate Positive(releases: seq<Release>) {
    forall r | r in releases :: r.quantity > 0.0
  }

  lemma {:induction false} PriorGrows(lines: seq<NoteLine>, before: set<string>, applied: set<string>, note: string,
                                      allocation: string)
    requires before <= applied && forall l | l in lines :: Positive(l.releases)
    ensures Prior(lines, before, note, allocation) <= Prior(lines, applied, note, allocation)
    ensures Prior(lines, before, note, allocation) == Prior(lines, applied, note, allocation)
       <==> !TouchedSince(lines, before, applied, note, allocation)
  {
    if lines != [] {
      var n := |lines| - 1;
      PriorGrows(lines[..n], before, applied, note, allocation);
      TouchedByOneMore(lines[..n], lines[n], before, applied, note, allocation);
      assert lines == lines[..n] + [lines[n]];
      OnAllocationSign(lines[n].releases, allocation);
    }
  }

  // ----- The units a note line is given -----

  function PriorFor(b: Book, applied: set<string>, note: string): string -> real {
    a => Prior(b.lines, applied, note, a)
  }

  function LedgerOf(b: Book, now: Seen, note: string): Ledger {
    Ledger(map[b.line := OfLine(Visible(b.rows, now.approved), b.line)], map[b.line := b.units],
           PriorFor(b, now.applied, note))
  }

  function Given(b: Book, now: Seen, l: NoteLine): Option<seq<Unit>> {
    match CreditLine(LedgerOf(b, now, l.note), l.releases, l.quantity, l.amount)
    case Released(units) => Some(units)
    case _ => None
  }

  /** Where a release starts on the receipt line: behind all that earlier allocations take and all that
      other notes have released from its own. */
  function Start(b: Book, now: Seen, l: NoteLine, r: Release): real {
    Base(b.rows, b.line, now.approved, r.allocation) as real + Prior(b.lines, now.applied, l.note, r.allocation)
  }

  /** The first so many releases of a line, all of them served. */
  ghost predicate Served(db: Ledger, releases: seq<Release>) {
    AllReleased(db, releases).Some?
  }

  /** A served release takes a piece of its allocation, from where it starts. */
  lemma ServedHere(b: Book, now: Seen, l: NoteLine, r: Release) returns (k: nat)
    requires DistinctAllocations(b.rows) && ReleaseSlice(LedgerOf(b, now, l.note), r).Some?
    ensures r.line == Some(b.line) && Countable(r.quantity)
    ensures k < |b.rows| && b.rows[k].id == r.allocation && b.rows[k].invoice in now.approved
            && Takes(b.rows[k], b.line)
    ensures var s := ReleaseSlice(LedgerOf(b, now, l.note), r).value;
            && s.count == Count(r.quantity) > 0 && s.start as real == Start(b, now, l, r)
            && Base(b.rows, b.line, now.approved, r.allocation) <= s.start
            && s.start + s.count <= Base(b.rows, b.line, now.approved, r.allocation) + Count(b.rows[k].quantity)
  {
    k := CreditedFromBase(b.rows, b.line, now.approved, b.units, r.allocation,
                          Prior(b.lines, now.applied, l.note, r.allocation));
  }

  lemma SameCut(units: seq<Unit>, s: Slice, t: Slice)
    requires DistinctUnits(units) && s.count == t.count > 0 && s.start + s.count <= |units|
             && t.start + t.count <= |units|
    ensures Cut(units, s) == Cut(units, t) <==> s.start == t.start
  {
    if Cut(units, s) == Cut(units, t) {
      assert Cut(units, s)[0] == units[s.start] && Cut(units, t)[0] == units[t.start];
    }
  }

  lemma SameBlock(b: Book, l: NoteLine, before: Seen, now: Seen, r: Release)
    requires ValidBook(b)
    requires ReleaseSlice(LedgerOf(b, before, l.note), r).Some? && ReleaseSlice(LedgerOf(b, now, l.note), r).Some?
    ensures |ReleaseUnits(LedgerOf(b, before, l.note), r)| == |ReleaseUnits(LedgerOf(b, now, l.note), r)|
    ensures ReleaseUnits(LedgerOf(b, before, l.note), r) == ReleaseUnits(LedgerOf(b, now, l.note), r)
       <==> Start(b, before, l, r) == Start(b, now, l, r)
  {
    var one, two := LedgerOf(b, before, l.note), LedgerOf(b, now, l.note);
    var i := ServedHere(b, before, l, r);
    var j := ServedHere(b, now, l, r);
    ReleaseSliceFits(one, r);
    ReleaseSliceFits(two, r);
    SameCut(b.units, ReleaseSlice(one, r).value, ReleaseSlice(two, r).value);
  }

  ghost predicate SameStarts(b: Book, l: NoteLine, before: Seen, now: Seen, releases: seq<Release>) {
    forall r | r in releases :: Start(b, before, l, r) == Start(b, now, l, r)
  }

  lemma SameBlocks(b: Book, l: NoteLine, before: Seen, now: Seen, releases: seq<Release>)
    requires ValidBook(b)
    requires Served(LedgerOf(b, before, l.note), releases) && Served(LedgerOf(b, now, l.note), releases)
    ensures AllReleased(LedgerOf(b, before, l.note), releases) == AllReleased(LedgerOf(b, now, l.note), releases)
       <==> SameStarts(b, l, before, now, releases)
  {
    var f, g := GivenBack(LedgerOf(b, before, l.note)), GivenBack(LedgerOf(b, now, l.note));
    forall r | r in releases
      ensures |f(r)| == |g(r)| && (f(r) == g(r) <==> Start(b, before, l, r) == Start(b, now, l, r))
    {
      SameBlock(b, l, before, now, r);
    }
    FlattenSame(f, g, releases);
  }

  /** Since `before`, no other note was applied that releases from the allocation, and no allocation of
      the line that was matched before it was approved. */
  ghost predicate Still(b: Book, before: Seen, now: Seen, l: NoteLine, r: Release) {
    && !TouchedSince(b.lines, before.applied, now.applied, l.note, r.allocation)
    && !Overtaken(b.rows, b.line, before.approved, now.approved, r.allocation)
  }

  ghost predicate Untouched(b: Book, before: Seen, now: Seen, l: NoteLine) {
    forall r | r in l.releases :: Still(b, before, now, l, r)
  }

  /** Releases only ever move on, and exactly those that are not left alone do. */
  lemma StartGrows(b: Book, before: Seen, now: Seen, l: NoteLine, r: Release)
    requires ValidBook(b) && UpTo(before, now)
    ensures Start(b, before, l, r) <= Start(b, now, l, r)
    ensures Start(b, before, l, r) == Start(b, now, l, r) <==> Still(b, before, now, l, r)
  {
    PriorGrows(b.lines, before.applied, now.applied, l.note, r.allocation);
    BaseGrows(b.rows, b.line, before.approved, now.approved, r.allocation);
  }

  /** A note line that is served before and after keeps its units exactly if, in between, nothing else
      was released from its allocations and no earlier allocation of the receipt line was approved. */
  lemma KeepsUnits(b: Book, before: Seen, now: Seen, l: NoteLine)
    requires ValidBook(b) && l in b.lines && UpTo(before, now)
    requires Given(b, before, l).Some? && Given(b, now, l).Some?
    ensures Given(b, before, l) == Given(b, now, l) <==> Untouched(b, before, now, l)
  {
    SameBlocks(b, l, before, now, l.releases);
    forall r | r in l.releases
      ensures Start(b, before, l, r) == Start(b, now, l, r) <==> Still(b, before, now, l, r)
    {
      StartGrows(b, before, now, l, r);
    }
  }

  // ----- Where the given units lie -----

  lemma ServedOnLine(b: Book, now: Seen, l: NoteLine)
    requires ValidBook(b) && l in b.lines && Given(b, now, l).Some?
    ensures OneLine(l.releases, b.line)
  {
    forall i | 0 <= i < |l.releases| ensures l.releases[i].line == Some(b.line) {
      assert l.releases[i] in l.releases;
      var k := ServedHere(b, now, l, l.releases[i]);
    }
  }

  lemma GivenOnLine(b: Book, now: Seen, l: NoteLine)
    requires ValidBook(b) && l in b.lines && Given(b, now, l).Some?
    ensures var units := Given(b, now, l).value;
            && DistinctUnits(units) && |units| as real == l.quantity && units != []
            && forall u | u in units :: u in b.units
  {
    var db := LedgerOf(b, now, l.note);
    ServedOnLine(b, now, l);
    assert UnitsOf(db, b.line) == b.units;
    CreditLineConserves(db, l.releases, l.quantity, l.amount, b.line, b.le, l.digits);
  }

  /** A release takes this place of the receipt line. */
  ghost predicate Holds(b: Book, now: Seen, l: NoteLine, r: Release, at: nat) {
    at < |b.units| && Start(b, now, l, r) <= at as real < Start(b, now, l, r) + r.quantity
  }

  /** The units of a served release, as a piece of the receipt line. */
  lemma BlockIs(b: Book, now: Seen, l: NoteLine, r: Release) returns (start: nat, block: seq<Unit>)
    requires ValidBook(b) && ReleaseSlice(LedgerOf(b, now, l.note), r).Some?
    ensures start as real == Start(b, now, l, r) && Countable(r.quantity) && start + Count(r.quantity) <= |b.units|
    ensures block == ReleaseUnits(LedgerOf(b, now, l.note), r) && block == b.units[start..start + Count(r.quantity)]
  {
    var k := ServedHere(b, now, l, r);
    ReleaseSliceFits(LedgerOf(b, now, l.note), r);
    start := ReleaseSlice(LedgerOf(b, now, l.note), r).value.start;
    block := ReleaseUnits(LedgerOf(b, now, l.note), r);
  }

  lemma InPiece(units: seq<Unit>, start: nat, count: nat, at: nat)
    requires DistinctUnits(units) && start + count <= |units| && at < |units|
    ensures units[at] in units[start..start + count] <==> start <= at < start + count
  {
    if units[at] in units[start..start + count] {
      var i :| 0 <= i < count && units[start..start + count][i] == units[at];
      assert units[start + i] == units[at];
    }
    if start <= at < start + count {
      assert units[start..start + count][at - start] == units[at];
    }
  }

  lemma InBlock(units: seq<Unit>, block: seq<Unit>, start: nat, quantity: real, at: nat)
    requires DistinctUnits(units) && Countable(quantity) && start + Count(quantity) <= |units| && at < |units|
    requires block == units[start..start + Count(quantity)]
    ensures units[at] in block <==> start as real <= at as real < start as real + quantity
  {
    InPiece(units, start, Count(quantity), at);
  }

  lemma HoldsFrom(b: Book, now: Seen, l: NoteLine, r: Release, at: nat, start: nat, held: bool)
    requires at < |b.units| && start as real == Start(b, now, l, r)
    requires held <==> start as real <= at as real < start as real + r.quantity
    ensures held <==> Holds(b, now, l, r, at)
  {
  }

  lemma HoldsBlock(b: Book, now: Seen, l: NoteLine, r: Release, at: nat)
    requires ValidBook(b) && ReleaseSlice(LedgerOf(b, now, l.note), r).Some? && at < |b.units|
    ensures b.units[at] in ReleaseUnits(LedgerOf(b, now, l.note), r) <==> Holds(b, now, l, r, at)
  {
    var start, block := BlockIs(b, now, l, r);
    InBlock(b.units, block, start, r.quantity, at);
    HoldsFrom(b, now, l, r, at, start, b.units[at] in block);
  }

  lemma ServedRelease(b: Book, now: Seen, l: NoteLine, r: Release)
    requires l in b.lines && Given(b, now, l).Some? && r in l.releases
    ensures ReleaseSlice(LedgerOf(b, now, l.note), r).Some?
  {
  }

  /** A line is given the unit at a place exactly if one of its releases holds it. */
  lemma GivenAt(b: Book, now: Seen, l: NoteLine, at: nat)
    requires ValidBook(b) && l in b.lines && Given(b, now, l).Some? && at < |b.units|
    ensures b.units[at] in Given(b, now, l).value <==> exists r | r in l.releases :: Holds(b, now, l, r, at)
  {
    var given := GivenBack(LedgerOf(b, now, l.note));
    FlattenHas(given, l.releases, b.units[at]);
    forall r | r in l.releases ensures b.units[at] in given(r) <==> Holds(b, now, l, r, at) {
      ServedRelease(b, now, l, r);
      HoldsBlock(b, now, l, r, at);
    }
  }

  /** A place of the receipt line is held by releases of one allocation only. */
  lemma HoldsApart(b: Book, now: Seen, l: NoteLine, r: Release, m: NoteLine, q: Release, at: nat)
    requires ValidBook(b)
    requires ReleaseSlice(LedgerOf(b, now, l.note), r).Some? && ReleaseSlice(LedgerOf(b, now, m.note), q).Some?
    requires Holds(b, now, l, r, at) && Holds(b, now, m, q, at)
    ensures r.allocation == q.allocation
  {
    var i := ServedHere(b, now, l, r);
    var j := ServedHere(b, now, m, q);
    PlaceIsOfOne(b.rows, b.line, now.approved, i, j, at);
  }

  /** Of the releases that moved, the one that started first. */
  lemma {:induction false} FirstMoved(b: Book, before: Seen, now: Seen, l: NoteLine, releases: seq<Release>)
    returns (r: Release)
    requires !SameStarts(b, l, before, now, releases)
    ensures r in releases && Start(b, before, l, r) != Start(b, now, l, r)
    ensures forall q | q in releases && Start(b, before, l, q) != Start(b, now, l, q) ::
              Start(b, before, l, r) <= Start(b, before, l, q)
  {
    var n := |releases| - 1;
    var last := releases[n];
    assert releases == releases[..n] + [last];
    r := last;
    if !SameStarts(b, l, before, now, releases[..n]) {
      var first := FirstMoved(b, before, now, l, releases[..n]);
      if Start(b, before, l, last) == Start(b, now, l, last)
         || Start(b, before, l, first) <= Start(b, before, l, last)
      {
        r := first;
      }
    }
  }

  /** A line that moved is no longer given one of its units: that at which the first of its moved
      releases started. */
  lemma LosesUnit(b: Book, before: Seen, now: Seen, l: NoteLine) returns (u: Unit)
    requires ValidBook(b) && l in b.lines && UpTo(before, now)
    requires Given(b, before, l).Some? && Given(b, now, l).Some? && !Untouched(b, before, now, l)
    ensures u in b.units && u in Given(b, before, l).value && u !in Given(b, now, l).value
  {
    forall r | r in l.releases {
      StartGrows(b, before, now, l, r);
    }
    var r := FirstMoved(b, before, now, l, l.releases);
    ServedRelease(b, before, l, r);
    var at, block := BlockIs(b, before, l, r);
    assert Holds(b, before, l, r, at);
    forall q | q in l.releases ensures !Holds(b, now, l, q, at) {
      NotHeldNow(b, before, now, l, r, q, at);
    }
    GivenAt(b, before, l, at);
    GivenAt(b, now, l, at);
    u := b.units[at];
  }

  lemma NotHeldNow(b: Book, before: Seen, now: Seen, l: NoteLine, r: Release, q: Release, at: nat)
    requires ValidBook(b) && l in b.lines && r in l.releases && q in l.releases && UpTo(before, now)
    requires Given(b, before, l).Some? && Holds(b, before, l, r, at) && at as real == Start(b, before, l, r)
    requires Start(b, before, l, r) != Start(b, now, l, r)
    requires Start(b, before, l, q) != Start(b, now, l, q) ==> Start(b, before, l, r) <= Start(b, before, l, q)
    ensures !Holds(b, now, l, q, at)
  {
    StartGrows(b, before, now, l, q);
    if Start(b, before, l, q) == Start(b, now, l, q) && Holds(b, now, l, q, at) {
      ServedRelease(b, before, l, r);
      ServedRelease(b, before, l, q);
      HoldsApart(b, before, l, r, l, q, at);
      OneReleaseEach(l, q, r);
    }
  }

  lemma OneReleaseEach(l: NoteLine, q: Release, r: Release)
    requires ValidLine(l) && q in l.releases && r in l.releases && q.allocation == r.allocation
    ensures q == r
  {
  }

  // ----- Two notes on one allocation -----

  /** All that applied notes have released from an allocation. */
  function Total(lines: seq<NoteLine>, applied: set<string>, allocation: string): real {
    if lines == [] then 0.0
    else
      var n := |lines| - 1;
      Total(lines[..n], applied, allocation)
      + if lines[n].note in applied then OnAllocation(lines[n].releases, allocation) else 0.0
  }

  /** No other line of the same note releases from the allocation. */
  ghost predicate Sole(lines: seq<NoteLine>, l: NoteLine, allocation: string) {
    forall m | m in lines && m.note == l.note && m != l :: !Touches(m, allocation)
  }

  ghost predicate Several(lines: seq<NoteLine>) {
    && (forall m | m in lines :: Positive(m.releases))
    && (forall i, j | 0 <= i < j < |lines| :: lines[i] != lines[j])
  }

  lemma ButLast(lines: seq<NoteLine>, l: NoteLine, allocation: string)
    requires lines != [] && Several(lines) && Sole(lines, l, allocation)
    ensures var n := |lines| - 1;
            && Several(lines[..n]) && Sole(lines[..n], l, allocation)
            && (l in lines <==> l in lines[..n] || l == lines[n]) && (l == lines[n] ==> l !in lines[..n])
  {
    var n := |lines| - 1;
    assert lines == lines[..n] + [lines[n]];
    assert forall m | m in lines[..n] :: m in lines;
  }

  lemma {:induction false} OwnRelease(lines: seq<NoteLine>, applied: set<string>, l: NoteLine, allocation: string)
    requires l.note in applied && Sole(lines, l, allocation) && Several(lines)
    ensures Total(lines, applied, allocation)
         == Prior(lines, applied, l.note, allocation) + if l in lines then OnAllocation(l.releases, allocation) else 0.0
  {
    if lines != [] {
      var n := |lines| - 1;
      ButLast(lines, l, allocation);
      OwnRelease(lines[..n], applied, l, allocation);
      OnAllocationSign(lines[n].releases, allocation);
    }
  }

  lemma {:induction false} OnlyOnAllocation(releases: seq<Release>, r: Release)
    requires forall i, j | 0 <= i < j < |releases| :: releases[i].allocation != releases[j].allocation
    ensures r in releases ==> OnAllocation(releases, r.allocation) == r.quantity
    ensures (forall q | q in releases :: q.allocation != r.allocation) ==> OnAllocation(releases, r.allocation) == 0.0
  {
    if releases != [] {
      var n := |releases| - 1;
      assert releases == releases[..n] + [releases[n]];
      OnlyOnAllocation(releases[..n], r);
    }
  }

  /** A release ends where everything released from its allocation ends, whichever note it is of. */
  lemma EndsAtTotal(b: Book, now: Seen, l: NoteLine, r: Release)
    requires ValidBook(b) && l in b.lines && r in l.releases && l.note in now.applied && Sole(b.lines, l, r.allocation)
    ensures Start(b, now, l, r) + r.quantity
         == Base(b.rows, b.line, now.approved, r.allocation) as real + Total(b.lines, now.applied, r.allocation)
  {
    OwnRelease(b.lines, now.applied, l, r.allocation);
    OnlyOnAllocation(l.releases, r);
  }

  ghost predicate ShareAllocation(l: NoteLine, m: NoteLine) {
    exists r, q | r in l.releases && q in m.releases :: r.allocation == q.allocation
  }

  /** No other line of its note releases from an allocation of the line. */
  ghost predicate Alone(b: Book, l: NoteLine) {
    forall r | r in l.releases :: Sole(b.lines, l, r.allocation)
  }

  /** Lines of two applied notes are given different units exactly if they release from different
      allocations: on a shared one, both are given the last unit released. */
  lemma ApartExactly(b: Book, now: Seen, l: NoteLine, m: NoteLine)
    requires ValidBook(b) && l in b.lines && m in b.lines && l.note in now.applied && m.note in now.applied
             && l.note != m.note
    requires Given(b, now, l).Some? && Given(b, now, m).Some? && Alone(b, l) && Alone(b, m)
    ensures (forall u | u in Given(b, now, l).value :: u !in Given(b, now, m).value) <==> !ShareAllocation(l, m)
  {
    if ShareAllocation(l, m) {
      var u := SharedUnit(b, now, l, m);
    } else {
      forall u | u in Given(b, now, l).value ensures u !in Given(b, now, m).value {
        GivenOnLine(b, now, l);
        var at :| 0 <= at < |b.units| && b.units[at] == u;
        UnsharedApart(b, now, l, m, at);
      }
    }
  }

  lemma UnsharedApart(b: Book, now: Seen, l: NoteLine, m: NoteLine, at: nat)
    requires ValidBook(b) && l in b.lines && m in b.lines && at < |b.units| && !ShareAllocation(l, m)
    requires Given(b, now, l).Some? && Given(b, now, m).Some?
    ensures b.units[at] in Given(b, now, l).value ==> b.units[at] !in Given(b, now, m).value
  {
    GivenAt(b, now, l, at);
    GivenAt(b, now, m, at);
    forall r, q | r in l.releases && q in m.releases
      ensures !(Holds(b, now, l, r, at) && Holds(b, now, m, q, at))
    {
      if Holds(b, now, l, r, at) && Holds(b, now, m, q, at) {
        ServedRelease(b, now, l, r);
        ServedRelease(b, now, m, q);
        HoldsApart(b, now, l, r, m, q, at);
      }
    }
  }

  /** The last place that a served release holds. */
  lemma LastPlace(b: Book, now: Seen, l: NoteLine, r: Release) returns (at: nat)
    requires ValidBook(b) && ReleaseSlice(LedgerOf(b, now, l.note), r).Some?
    ensures Holds(b, now, l, r, at) && (at + 1) as real == Start(b, now, l, r) + r.quantity
  {
    var start, block := BlockIs(b, now, l, r);
    at := start + Count(r.quantity) - 1;
  }

  /** Releases of two applied notes from one allocation end at the same place. */
  lemma SharedPlace(b: Book, now: Seen, l: NoteLine, r: Release, m: NoteLine, q: Release) returns (at: nat)
    requires ValidBook(b) && l in b.lines && m in b.lines && l.note in now.applied && m.note in now.applied
    requires r in l.releases && q in m.releases && r.allocation == q.allocation
    requires Sole(b.lines, l, r.allocation) && Sole(b.lines, m, q.allocation)
    requires ReleaseSlice(LedgerOf(b, now, l.note), r).Some? && ReleaseSlice(LedgerOf(b, now, m.note), q).Some?
    ensures Holds(b, now, l, r, at) && Holds(b, now, m, q, at)
  {
    EndsAtTotal(b, now, l, r);
    EndsAtTotal(b, now, m, q);
    at := LastPlace(b, now, l, r);
    var same := LastPlace(b, now, m, q);
  }

  lemma SharedUnit(b: Book, now: Seen, l: NoteLine, m: NoteLine) returns (u: Unit)
    requires ValidBook(b) && l in b.lines && m in b.lines && l.note in now.applied && m.note in now.applied
    requires Given(b, now, l).Some? && Given(b, now, m).Some? && ShareAllocation(l, m) && Alone(b, l) && Alone(b, m)
    ensures u in b.units && u in Given(b, now, l).value && u in Given(b, now, m).value
  {
    var r, q :| r in l.releases && q in m.releases && r.allocation == q.allocation;
    ServedRelease(b, now, l, r);
    ServedRelease(b, now, m, q);
    var at := SharedPlace(b, now, l, r, m, q);
    GivenAt(b, now, l, at);
    GivenAt(b, now, m, at);
    u := b.units[at];
  }
}
