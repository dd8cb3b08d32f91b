/** When a line of a credit note gives anything, what exactly, and that events record it; and when the
    charging walk finds an invoice ambiguous. */
module CostCredits {
  import opened Wrappers
  import opened Sequences
  import opened MinorUnits
  import opened CostSlices
  import opened CostAllocation
  import opened CostLines
  import opened CreditNotes
  import opened Claims
  import opened CostEvents
  import opened CostClaims
  import opened CostRuns

  // ----- One credit line -----

  /** The release fits its allocation, row `k` of the receipt line: all quantities up to it count whole
      units, the receipt line has them all, and with what other notes have released the release stays
      within the quantity of the allocation. */
  ghost predicate FitsBehind(db: Ledger, r: Release, k: nat) {
    && r.line.Some?
    && var rows, units, prior := RowsOf(db, r.line.value), UnitsOf(db, r.line.value), db.prior(r.allocation);
       && k < |rows| && rows[k].id == r.allocation && (forall j | 0 <= j < k :: rows[j].id != r.allocation)
       && (forall j | 0 <= j <= k :: Countable(rows[j].quantity)) && SumCounts(rows, k + 1) <= |units|
       && Countable(r.quantity) && SafeInteger(prior) && 0.0 <= prior && prior + r.quantity <= rows[k].quantity
  }

  /** A release is clear exactly if it fits its allocation, and then it starts behind all that rows
      before take and other notes have released. */
  lemma ReleaseFitsExactly(db: Ledger, r: Release)
    ensures ReleaseSlice(db, r).Some? <==> exists k :: FitsBehind(db, r, k)
    ensures forall k | FitsBehind(db, r, k) ::
              ReleaseSlice(db, r) == Some(Slice(SumCounts(RowsOf(db, r.line.value), k) + db.prior(r.allocation).Floor,
                                                Count(r.quantity)))
  {
    if r.line.Some? {
      var rows := RowsOf(db, r.line.value);
      var i := IndexOf(rows, r.allocation);
      if ReleaseSlice(db, r).Some? {
        assert FitsBehind(db, r, i);
      }
      forall k | FitsBehind(db, r, k)
        ensures ReleaseSlice(db, r) == Some(Slice(SumCounts(rows, k) + db.prior(r.allocation).Floor, Count(r.quantity)))
      {
        assert k == i;
      }
    }
  }

  lemma OneReleased(db: Ledger, r: Release)
    requires ReleaseSlice(db, r).Some?
    ensures |GivenBack(db)(r)| as real == r.quantity
  {
    ReleaseSliceFits(db, r);
  }

  lemma {:induction false} ReleasedAddUp(f: Release -> seq<Unit>, releases: seq<Release>)
    requires forall r | r in releases :: |f(r)| as real == r.quantity
    ensures |Flatten(f, releases)| as real == ReleasedQuantity(releases)
  {
    if releases != [] {
      var n := |releases| - 1;
      assert releases[n] in releases && forall r | r in releases[..n] :: r in releases;
      ReleasedAddUp(f, releases[..n]);
    }
  }

  ghost predicate AllFit(db: Ledger, releases: seq<Release>) {
    forall r | r in releases :: exists k :: FitsBehind(db, r, k)
  }

  lemma AllReleasedExactly(db: Ledger, releases: seq<Release>)
    ensures AllReleased(db, releases).Some? <==> AllFit(db, releases)
    ensures AllFit(db, releases) ==>
              && AllReleased(db, releases) == Some(Flatten(GivenBack(db), releases))
              && |Flatten(GivenBack(db), releases)| as real == ReleasedQuantity(releases)
  {
    forall r | r in releases
      ensures ReleaseSlice(db, r).Some? <==> exists k :: FitsBehind(db, r, k)
      ensures ReleaseSlice(db, r).Some? ==> |GivenBack(db)(r)| as real == r.quantity
    {
      ReleaseFitsExactly(db, r);
      if ReleaseSlice(db, r).Some? {
        OneReleased(db, r);
      }
    }
    if AllFit(db, releases) {
      ReleasedAddUp(GivenBack(db), releases);
    }
  }

  /** A credit line is skipped exactly if its quantity or its amount is not positive. It is released
      exactly if both are, the releases add up to the quantity, a whole number that counts safely, and
      each of them fits; then it gives back the units of its releases, one after another. All other
      lines are ambiguous. */
  lemma CreditLineExactly(db: Ledger, releases: seq<Release>, quantity: real, amount: nat)
    ensures var credit := CreditLine(db, releases, quantity, amount);
            && (credit == Skipped <==> quantity <= 0.0 || amount == 0)
            && (credit.Released? <==> && quantity > 0.0 && amount > 0 && ReleasedQuantity(releases) == quantity
                                      && SafeInteger(quantity) && AllFit(db, releases))
            && (credit.Released? ==> credit.units == Flatten(GivenBack(db), releases))
  {
    AllReleasedExactly(db, releases);
  }

  // ----- Credit note lines of a receipt line -----

  /** The release is on the receipt line, its allocation is approved, and it fits that allocation where
      it stands now, behind what other applied notes release. */
  ghost predicate FitsNow(b: Book, now: Seen, l: NoteLine, r: Release, k: nat) {
    var prior := Prior(b.lines, now.applied, l.note, r.allocation);
    && r.line == Some(b.line) && k < |b.rows| && b.rows[k].id == r.allocation
    && b.rows[k].invoice in now.approved && b.rows[k].line == Some(b.line)
    && (forall j | 0 <= j <= k && b.rows[j].invoice in now.approved && b.rows[j].line == Some(b.line) ::
          Countable(b.rows[j].quantity))
    && Base(b.rows, b.line, now.approved, r.allocation) + Count(b.rows[k].quantity) <= |b.units|
    && Countable(r.quantity) && SafeInteger(prior) && 0.0 <= prior && prior + r.quantity <= b.rows[k].quantity
  }

  lemma VisibleCountable(rows: seq<Allocation>, line: LineId, approved: set<string>, k: nat)
    requires k < |rows| && rows[k].invoice in approved && rows[k].line == Some(line)
    ensures var visible, i := Visible(rows, approved), |Visible(rows[..k], approved)|;
            && i < |visible|
            && (CountableUpTo(visible, line, i)
                <==> forall j | 0 <= j <= k && rows[j].invoice in approved && rows[j].line == Some(line) ::
                       Countable(rows[j].quantity))
  {
    var visible, i, before := Visible(rows, approved), |Visible(rows[..k], approved)|, Visible(rows[..k], approved);
    VisibleAt(rows, approved, k);
    FilterMembers(IsApproved(approved), rows[..k]);
    if CountableUpTo(visible, line, i) {
      forall j | 0 <= j <= k && rows[j].invoice in approved && rows[j].line == Some(line)
        ensures Countable(rows[j].quantity)
      {
        if j < k {
          assert rows[..k][j] in before;
          var m :| 0 <= m < i && before[m] == rows[j];
          assert visible[m] == visible[..i][m];
        }
      }
    }
    if forall j | 0 <= j <= k && rows[j].invoice in approved && rows[j].line == Some(line) ::
         Countable(rows[j].quantity)
    {
      forall m | 0 <= m <= i && visible[m].line == Some(line) ensures Countable(visible[m].quantity) {
        if m < i {
          assert visible[m] == visible[..i][m];
          assert before[m] in before;
          assert visible[m] in rows[..k];
        }
      }
    }
  }

  /** What the crediting walk makes of an approved allocation of the line. */
  lemma CreditedAt(b: Book, now: Seen, k: nat, prior: real)
    requires ValidBook(b) && k < |b.rows| && b.rows[k].invoice in now.approved && b.rows[k].line == Some(b.line)
    ensures var base := Base(b.rows, b.line, now.approved, b.rows[k].id);
            var credited := CreditSlice(OfLine(Visible(b.rows, now.approved), b.line), b.rows[k].id, b.units, prior);
            && (credited.Some? <==>
                  && (forall j | 0 <= j <= k && b.rows[j].invoice in now.approved && b.rows[j].line == Some(b.line) ::
                        Countable(b.rows[j].quantity))
                  && base + Count(b.rows[k].quantity) <= |b.units|
                  && SafeInteger(prior) && 0.0 <= prior < b.rows[k].quantity)
            && (credited.Some? ==>
                  credited.value == Slice(base + prior.Floor, Count(b.rows[k].quantity) - prior.Floor))
  {
    var visible, i := Visible(b.rows, now.approved), |Visible(b.rows[..k], now.approved)|;
    VisibleDistinct(b.rows, now.approved);
    ChargedFromBase(b.rows, b.line, now.approved, b.units, k);
    VisibleCountable(b.rows, b.line, now.approved, k);
    WalksAgree(visible, b.line, i, b.units, prior);
  }

  lemma ReleaseFitsNow(b: Book, now: Seen, l: NoteLine, r: Release)
    requires ValidBook(b)
    ensures ReleaseSlice(LedgerOf(b, now, l.note), r).Some? <==> exists k :: FitsNow(b, now, l, r, k)
  {
    var prior := Prior(b.lines, now.applied, l.note, r.allocation);
    if ReleaseSlice(LedgerOf(b, now, l.note), r).Some? {
      var k := ServedHere(b, now, l, r);
      CreditedAt(b, now, k, prior);
      assert FitsNow(b, now, l, r, k);
    }
    if k :| FitsNow(b, now, l, r, k) {
      CreditedAt(b, now, k, prior);
    }
  }

  /** The note is applied, its line has a quantity and an amount, its releases add up to the quantity,
      and each of them fits. */
  ghost predicate Clear(b: Book, now: Seen, l: NoteLine) {
    && l.note in now.applied && l.quantity > 0.0 && l.amount > 0
    && ReleasedQuantity(l.releases) == l.quantity && SafeInteger(l.quantity)
    && forall r | r in l.releases :: exists k :: FitsNow(b, now, l, r, k)
  }

  /** A credit note line gives something exactly if it is clear, and then it gives exactly the units at
      the places that its releases hold. */
  lemma CreditsExactly(b: Book, now: Seen, l: NoteLine)
    requires ValidBook(b) && l in b.lines
    ensures Giving(CreditClaim(b, now, l)) <==> Clear(b, now, l)
    ensures Clear(b, now, l) ==>
              forall at | 0 <= at < |b.units| ::
                b.units[at] in CreditClaim(b, now, l).gives <==> exists r | r in l.releases :: Holds(b, now, l, r, at)
  {
    var db := LedgerOf(b, now, l.note);
    CreditLineExactly(db, l.releases, l.quantity, l.amount);
    forall r | r in l.releases
      ensures (exists k :: FitsBehind(db, r, k)) <==> exists k :: FitsNow(b, now, l, r, k) {
      ReleaseFitsExactly(db, r);
      ReleaseFitsNow(b, now, l, r);
    }
    CreditsSomething(b, now, l);
    if Clear(b, now, l) {
      forall at | 0 <= at < |b.units|
        ensures b.units[at] in CreditClaim(b, now, l).gives <==> exists r | r in l.releases :: Holds(b, now, l, r, at)
      {
        GivenAt(b, now, l, at);
      }
    }
  }

  lemma CreditsSomething(b: Book, now: Seen, l: NoteLine)
    requires ValidBook(b) && l in b.lines
    ensures Giving(CreditClaim(b, now, l)) <==> l.note in now.applied && Given(b, now, l).Some?
  {
    var units := CreditedUnits(b, now, l);
    SharesNone(units, ShareOf(b, l, units));
    if Given(b, now, l).Some? {
      GivenOnLine(b, now, l);
    }
  }

  /** After any run, an event that goes through leaves every unit it is about recorded under every clear
      credit note line with a release that holds its place, with its share of the credit. */
  lemma ClearLinesAreCredited(b: Book, events: seq<Event>, us: seq<Unit>, l: NoteLine, r: Release, at: nat)
    requires ValidBook(b) && OnBook(b, events) && OfBook(b, us) && l in b.lines && r in l.releases
    requires var s := After(b, START, events);
             && Outcome(b, s, us).Some? && Clear(b, s.seen, l) && Holds(b, s.seen, l, r, at)
    requires b.units[at] in us
    ensures var s := After(b, START, events);
            var id, so := Identity(Credited(l.id), b.units[at].id), Outcome(b, s, us).value;
            id in so && so[id] == ShareOut(b.le, CreditedUnits(b, s.seen, l), l.amount, l.digits)(b.units[at])
  {
    var s := After(b, START, events);
    CreditsExactly(b, s.seen, l);
    var i := PlaceOfNote(b, l);
    CreditAt(b, s.seen, i);
    GivenIsRecorded(b, s, us, i, b.units[at]);
  }

  /** What a source line gives a unit of the event, the event records. */
  lemma GivenIsRecorded(b: Book, s: State, us: seq<Unit>, i: nat, u: Unit)
    requires Outcome(b, s, us).Some? && i < SourceCount(b) && u in us && u in ClaimAt(b, s.seen, i).gives
    ensures var c, so := ClaimAt(b, s.seen, i), Outcome(b, s, us).value;
            Identity(c.source, u.id) in so && so[Identity(c.source, u.id)] == c.gives[u]
  {
    var claims := ClaimsOf(b, s.seen);
    assert claims[i] in claims;
    EventIsUnion(b.units, claims, s.records, us);
    assert Has(Outcome(b, s, us).value, claims[i], u);
  }

  /** Every unit of the event is committed at the unit price of the order line, if that is in force. */
  lemma UnitsAreCommitted(b: Book, events: seq<Event>, us: seq<Unit>, u: Unit)
    requires ValidBook(b) && OnBook(b, events) && OfBook(b, us) && u in us && b.order.Some?
    requires Outcome(b, After(b, START, events), us).Some?
    ensures var so := Outcome(b, After(b, START, events), us).value;
            Identity(Ordered, u.id) in so && so[Identity(Ordered, u.id)] == b.order.value.price
  {
    GivenIsRecorded(b, After(b, START, events), us, 0, u);
  }

  /** Every unit of the event at a place of an approved allocation is charged at the unit price of its
      invoice line. */
  lemma AllocationsAreCharged(b: Book, events: seq<Event>, us: seq<Unit>, k: nat, at: nat)
    requires ValidBook(b) && OnBook(b, events) && OfBook(b, us) && k < |b.rows| && at < |b.units| && b.units[at] in us
    requires var s := After(b, START, events);
             var base := Taken(Visible(b.rows[..k], s.seen.approved), b.line);
             && Outcome(b, s, us).Some? && b.rows[k].invoice in s.seen.approved && Takes(b.rows[k], b.line)
             && base <= at < base + Count(b.rows[k].quantity) <= |b.units|
    ensures var so := Outcome(b, After(b, START, events), us).value;
            var id := Identity(Invoiced(b.rows[k].id), b.units[at].id);
            id in so && so[id] == b.rows[k].bill.price
  {
    var s := After(b, START, events);
    InPiece(b.units, Taken(Visible(b.rows[..k], s.seen.approved), b.line), Count(b.rows[k].quantity), at);
    ChargeAt(b, s.seen, k);
    GivenIsRecorded(b, s, us, 1 + k, b.units[at]);
  }

  // ----- Who gets the remainder -----

  ghost predicate TotalOrder(le: UnitOrder) {
    && (forall a, b :: le(a, b) || le(b, a)) && (forall a, b :: le(a, b) && le(b, a) ==> a == b)
    && (forall a, b, c :: le(a, b) && le(b, c) ==> le(a, c))
  }

  ghost predicate InOrder(le: UnitOrder, us: seq<Unit>) {
    forall i, j | 0 <= i < j < |us| :: le(us[i].id, us[j].id)
  }

  lemma {:induction false} InsertOrders(le: UnitOrder, u: Unit, us: seq<Unit>)
    requires TotalOrder(le) && InOrder(le, us)
    ensures InOrder(le, InsertUnit(le, u, us))
  {
    if us != [] && !le(u.id, us[0].id) {
      InsertOrders(le, u, us[1..]);
      InsertKeeps(le, u, us[1..], _ => 0);
      var rest := InsertUnit(le, u, us[1..]);
      forall j | 0 <= j < |rest| ensures le(us[0].id, rest[j].id) {
        assert rest[j] in multiset(rest);
        assert rest[j] == u || rest[j] in us[1..];
      }
    }
  }

  lemma {:induction false} SortOrders(le: UnitOrder, us: seq<Unit>)
    requires TotalOrder(le)
    ensures InOrder(le, SortUnits(le, us))
  {
    if us != [] {
      SortOrders(le, us[1..]);
      InsertOrders(le, us[0], SortUnits(le, us[1..]));
    }
  }

  /** The released units that come before this one. */
  function Earlier(le: UnitOrder, us: seq<Unit>, u: Unit): set<Unit> {
    set v | v in us && v.id != u.id && le(v.id, u.id)
  }

  lemma {:induction false} DistinctCount(us: seq<Unit>)
    requires DistinctUnits(us)
    ensures |set v | v in us| == |us|
  {
    if us != [] {
      var n := |us| - 1;
      LastUnit(us);
      DistinctCount(us[..n]);
      assert us == us[..n] + [us[n]];
      assert (set v | v in us) == (set v | v in us[..n]) + {us[n]};
    }
  }

  lemma EarlierAt(le: UnitOrder, us: seq<Unit>, i: nat)
    requires TotalOrder(le) && InOrder(le, us) && DistinctUnits(us) && i < |us|
    ensures |Earlier(le, us, us[i])| == i
  {
    var before := us[..i];
    forall v | v in us ensures v in before <==> v.id != us[i].id && le(v.id, us[i].id) {
      var j :| 0 <= j < |us| && us[j] == v;
      assert j < i ==> before[j] == v;
      if v in before {
        var k :| 0 <= k < i && before[k] == v;
        assert us[k] == v;
      }
    }
    assert Earlier(le, us, us[i]) == set v | v in before;
    DistinctCount(before);
  }

  lemma SameEarlier(le: UnitOrder, us: seq<Unit>, sorted: seq<Unit>, u: Unit)
    requires sorted == SortUnits(le, us)
    ensures Earlier(le, sorted, u) == Earlier(le, us, u) && |sorted| == |us|
  {
    SortedMembers(le, us);
    SortKeeps(le, us, _ => 0);
    assert |multiset(sorted)| == |multiset(us)|;
  }

  /** A released unit is credited its even share of the amount in minor units, rounded down, and one more
      exactly if fewer units come before it than the division leaves over. */
  lemma ShareExactly(le: UnitOrder, released: seq<Unit>, amount: nat, digits: nat, u: Unit)
    requires TotalOrder(le) && DistinctUnits(released) && u in released
    ensures var total, n := InMinor(amount, digits), |released|;
            ShareOut(le, released, amount, digits)(u)
            == total / n + if |Earlier(le, released, u)| < total % n then 1 else 0
  {
    var sorted := SortUnits(le, released);
    SortedMembers(le, released);
    SortOrders(le, released);
    DistinctSort(le, released);
    SameEarlier(le, released, sorted, u);
    var i :| 0 <= i < |sorted| && sorted[i] == u;
    EarlierAt(le, sorted, i);
    SharesByIndex(le, released, Printed(amount), digits);
    PrintedInMinor(amount, digits);
  }

  // ----- Ambiguous invoices -----

  /** The row takes a whole number of units of its receipt line, and the line has them. */
  predicate Sliceable(rows: seq<Allocation>, i: nat, units: seq<Unit>)
    requires i < |rows|
  {
    && rows[i].line.Some? && Countable(rows[i].quantity)
    && Taken(rows[..i], rows[i].line.value) + Count(rows[i].quantity) <= |units|
  }

  function AmbiguousCount(log: seq<Charge>): nat {
    |set k | 0 <= k < |log| && log[k].Ambiguous?|
  }

  lemma AmbiguousConcat(log: seq<Charge>, more: seq<Charge>)
    requires |more| <= 1
    ensures AmbiguousCount(log + more) == AmbiguousCount(log) + if more != [] && more[0].Ambiguous? then 1 else 0
  {
    var all, n := log + more, |log|;
    var found := set k | 0 <= k < n && log[k].Ambiguous?;
    assert (set k | 0 <= k < |all| && all[k].Ambiguous?)
        == found + if more != [] && more[0].Ambiguous? then {n} else {};
  }

  /** The rows among the first `n` that cannot be sliced. */
  function Unsliced(rows: seq<Allocation>, n: nat, units: seq<Unit>): set<nat>
    requires n <= |rows|
  {
    set i: nat | i < n && !Sliceable(rows, i, units)
  }

  lemma UnslicedNext(rows: seq<Allocation>, m: nat, n: nat, units: seq<Unit>)
    requires m < |rows| && n == m + 1
    ensures |Unsliced(rows, n, units)| == |Unsliced(rows, m, units)| + if Sliceable(rows, m, units) then 0 else 1
  {
    assert Unsliced(rows, n, units) == Unsliced(rows, m, units) + if Sliceable(rows, m, units) then {} else {m};
  }

  lemma OneAmbiguous(rows: seq<Allocation>, m: nat, units: seq<Unit>, unit: Unit)
    requires m < |rows|
    ensures var log := ChargeOf(rows, m, units, unit);
            |log| <= 1 && ((log != [] && log[0].Ambiguous?) <==> !Sliceable(rows, m, units))
  {
  }

  /** The charging walk reports one ambiguity for each row that it cannot slice, whatever unit it is
      about, and none for the others. */
  lemma {:induction false} AmbiguousExactly(rows: seq<Allocation>, n: nat, units: seq<Unit>, unit: Unit)
    requires n <= |rows|
    ensures AmbiguousCount(Charges(rows, n, units, unit)) == |Unsliced(rows, n, units)|
  {
    if n > 0 {
      var m := n - 1;
      AmbiguousExactly(rows, m, units, unit);
      OneAmbiguous(rows, m, units, unit);
      AmbiguousConcat(Charges(rows, m, units, unit), ChargeOf(rows, m, units, unit));
      UnslicedNext(rows, m, n, units);
    }
  }

  /** What the log says of whom: an invoice is ambiguous for one of its rows that cannot be sliced, and
      an allocation charges the asset of the unit if its slice has the unit. */
  lemma {:induction false} LogTells(rows: seq<Allocation>, n: nat, units: seq<Unit>, unit: Unit, entry: Charge)
    requires n <= |rows|
    ensures entry in Charges(rows, n, units, unit) <==> exists i | 0 <= i < n :: Entry(rows, i, units, unit, entry)
  {
    if n > 0 {
      var m := n - 1;
      LogTells(rows, m, units, unit, entry);
      RowTells(rows, m, units, unit, entry);
    }
  }

  lemma RowTells(rows: seq<Allocation>, m: nat, units: seq<Unit>, unit: Unit, entry: Charge)
    requires m < |rows|
    ensures entry in ChargeOf(rows, m, units, unit) <==> Entry(rows, m, units, unit, entry)
  {
    if entry.Charged? && Sliceable(rows, m, units) {
      var s := ChargeSlice(rows, m, units).value;
      assert Covers(units, s, unit) <==>
             exists at | 0 <= at < |units| :: units[at] == unit && s.start <= at < s.start + s.count;
    }
  }

  ghost predicate Entry(rows: seq<Allocation>, i: nat, units: seq<Unit>, unit: Unit, entry: Charge)
    requires i < |rows|
  {
    match entry
    case Ambiguous(invoice) => invoice == rows[i].invoice && !Sliceable(rows, i, units)
    case Charged(allocation, asset) =>
      && allocation == rows[i].id && unit.asset == Some(asset) && Sliceable(rows, i, units)
      && exists at | 0 <= at < |units| ::
           && units[at] == unit
           && Taken(rows[..i], rows[i].line.value) <= at
              < Taken(rows[..i], rows[i].line.value) + Count(rows[i].quantity)
  }
}
