/** Which events of the cost linker go through, over every run of approved invoices, applied credit notes
    and handled events, and what they leave recorded. */
module CostRuns {
  import opened Wrappers
  import opened Sequences
  import opened MinorUnits
  import opened CostSlices
  import opened CostAllocation
  import opened CostLines
  import opened CreditNotes
  import opened Claims
  import opened CostEvents
  import opened CostClaims

  // ----- Runs -----

  /** `under` remembers of each record what the event saw that made it. */
  datatype State = State(seen: Seen, records: Records, under: map<Identity, Seen>)

  const START := State(Seen({}, {}), map[], map[])

  /** An event may be about any assets: a new asset alone, or all that an invoice or a note concerns. */
  datatype Event = Approving(invoice: string) | Applying(note: string) | Handling(units: seq<Unit>)

  function Outcome(b: Book, s: State, us: seq<Unit>): Option<Records> {
    RecordUnits(b.units, ClaimsOf(b, s.seen), s.records, us)
  }

  function Handled(s: State, so: Records): State {
    State(s.seen, so, map id | id in so :: if id in s.under then s.under[id] else s.seen)
  }

  function Step(b: Book, s: State, e: Event): State {
    match e
    case Approving(invoice) => s.(seen := s.seen.(approved := s.seen.approved + {invoice}))
    case Applying(note) => s.(seen := s.seen.(applied := s.seen.applied + {note}))
    case Handling(us) => (match Outcome(b, s, us) case None => s case Some(so) => Handled(s, so))
  }

  function After(b: Book, s: State, events: seq<Event>): State {
    if events == [] then s else Step(b, After(b, s, events[..|events| - 1]), events[|events| - 1])
  }

  /** Events are about units of the receipt line. */
  ghost predicate OnBook(b: Book, events: seq<Event>) {
    forall e | e in events && e.Handling? :: OfBook(b, e.units)
  }

  ghost predicate OfBook(b: Book, us: seq<Unit>) {
    forall u | u in us :: u in b.units
  }

  // ----- What holds in every run -----

  ghost predicate GivenThen(b: Book, earlier: Seen, id: Identity, amount: nat) {
    exists i, u | 0 <= i < SourceCount(b) && u in b.units :: GivesThen(ClaimAt(b, earlier, i), u, id, amount)
  }

  predicate GivesThen(c: Claim, u: Unit, id: Identity, amount: nat) {
    u in c.gives && Identity(c.source, u.id) == id && c.gives[u] == amount
  }

  /** Each record is what its source line gave to its unit when it was made. */
  ghost predicate Provenance(b: Book, s: State, id: Identity)
    requires id in s.records && id in s.under
  {
    UpTo(s.under[id], s.seen) && GivenThen(b, s.under[id], id, s.records[id])
  }

  ghost predicate Inv(b: Book, s: State) {
    && WithinLimits(b.units, ClaimsOf(b, s.seen), s.records)
    && (forall id :: id in s.records <==> id in s.under)
    && (forall id | id in s.records :: Provenance(b, s, id))
  }

  lemma DueWasGiven(b: Book, now: Seen, us: seq<Unit>, so: Records, id: Identity)
    requires OfBook(b, us) && Due(ClaimsOf(b, now), us, id) && HasAll(ClaimsOf(b, now), us, so)
    ensures id in so && GivenThen(b, now, id, so[id])
  {
    var c, u :| c in ClaimsOf(b, now) && u in us && u in c.gives && Identity(c.source, u.id) == id;
    var i :| 0 <= i < SourceCount(b) && ClaimsOf(b, now)[i] == c;
    assert Has(so, c, u);
    assert GivesThen(ClaimAt(b, now, i), u, id, so[id]);
  }

  lemma HandlingKeeps(b: Book, s: State, us: seq<Unit>, so: Records)
    requires ValidBook(b) && Inv(b, s) && OfBook(b, us) && Outcome(b, s, us) == Some(so)
    ensures Inv(b, Handled(s, so))
  {
    var claims := ClaimsOf(b, s.seen);
    ClaimsAreValid(b, s.seen);
    UnitsWithin(b.units, claims, s.records, us);
    EventIsUnion(b.units, claims, s.records, us);
    forall id | id in so ensures Provenance(b, Handled(s, so), id) {
      if id in s.records {
        assert Provenance(b, s, id);
      } else {
        DueWasGiven(b, s.seen, us, so, id);
      }
    }
  }

  lemma SeeingKeeps(b: Book, s: State, later: Seen)
    requires Inv(b, s) && UpTo(s.seen, later)
    ensures Inv(b, s.(seen := later))
  {
    LimitsStay(b, s.seen, later, s.records);
    forall id | id in s.records ensures Provenance(b, s.(seen := later), id) {
      assert Provenance(b, s, id);
    }
  }

  lemma StepKeeps(b: Book, s: State, e: Event)
    requires ValidBook(b) && Inv(b, s) && (e.Handling? ==> OfBook(b, e.units))
    ensures Inv(b, Step(b, s, e))
  {
    match e
    case Approving(_) => SeeingKeeps(b, s, Step(b, s, e).seen);
    case Applying(_) => SeeingKeeps(b, s, Step(b, s, e).seen);
    case Handling(us) =>
      if Outcome(b, s, us).Some? {
        HandlingKeeps(b, s, us, Outcome(b, s, us).value);
      }
  }

  lemma {:induction false} NothingRecorded(us: seq<Unit>, source: Source, counting: bool)
    ensures Weigh(us, map[], source, None, counting) == 0
  {
    if us != [] {
      NothingRecorded(us[..|us| - 1], source, counting);
    }
  }

  lemma QuantityHasSign(b: Book, now: Seen, i: nat)
    requires ValidBook(b) && i < SourceCount(b)
    ensures ClaimAt(b, now, i).quantity >= 0.0
  {
    if 0 < i <= |b.rows| {
      ChargeAt(b, now, i - 1);
      assert b.rows[i - 1] in b.rows;
    } else if i > |b.rows| {
      CreditAt(b, now, i);
    }
  }

  lemma StartsRight(b: Book)
    requires ValidBook(b)
    ensures Inv(b, START)
  {
    forall i | 0 <= i < SourceCount(b) ensures Within(b.units, map[], ClaimAt(b, START.seen, i)) {
      QuantityHasSign(b, START.seen, i);
      NothingRecorded(b.units, ClaimAt(b, START.seen, i).source, true);
      NothingRecorded(b.units, ClaimAt(b, START.seen, i).source, false);
    }
  }

  /** Whatever is approved, applied and handled: no source line is ever exceeded, and each record is what
      its line gave to its unit when it was made. */
  lemma {:induction false} InvAlways(b: Book, events: seq<Event>)
    requires ValidBook(b) && OnBook(b, events)
    ensures Inv(b, After(b, START, events))
  {
    if events == [] {
      StartsRight(b);
    } else {
      var n := |events| - 1;
      InvAlways(b, events[..n]);
      assert events[n] in events;
      StepKeeps(b, After(b, START, events[..n]), events[n]);
    }
  }

  /** No source line is ever charged or credited beyond its quantity or its amount. */
  lemma NeverExceeded(b: Book, events: seq<Event>, i: nat)
    requires ValidBook(b) && OnBook(b, events) && i < SourceCount(b)
    ensures var s := After(b, START, events); Within(b.units, s.records, ClaimAt(b, s.seen, i))
  {
    InvAlways(b, events);
    var s := After(b, START, events);
    assert ClaimsOf(b, s.seen)[i] in ClaimsOf(b, s.seen);
  }

  lemma {:induction false} RecordsStay(b: Book, s: State, more: seq<Event>)
    ensures Extends(s.records, After(b, s, more).records) && UpTo(s.seen, After(b, s, more).seen)
  {
    if more != [] {
      var n := |more| - 1;
      RecordsStay(b, s, more[..n]);
      var mid := After(b, s, more[..n]);
      if more[n].Handling? && Outcome(b, mid, more[n].units).Some? {
        EventIsUnion(b.units, ClaimsOf(b, mid.seen), mid.records, more[n].units);
      }
    }
  }

  // ----- Exactly when the next event goes through -----

  /** After any run, an event about any assets goes through exactly if every source line can bear it. */
  lemma EventsGoThroughExactly(b: Book, events: seq<Event>, us: seq<Unit>)
    requires ValidBook(b) && OnBook(b, events) && OfBook(b, us)
    ensures var s := After(b, START, events);
            Outcome(b, s, us).Some?
            <==> forall i | 0 <= i < SourceCount(b) :: Goes(b.units, s.records, ClaimAt(b, s.seen, i), us)
  {
    InvAlways(b, events);
    GoesLineByLine(b, After(b, START, events), us);
  }

  lemma GoesLineByLine(b: Book, s: State, us: seq<Unit>)
    requires ValidBook(b) && Inv(b, s) && OfBook(b, us)
    ensures Outcome(b, s, us).Some?
       <==> forall i | 0 <= i < SourceCount(b) :: Goes(b.units, s.records, ClaimAt(b, s.seen, i), us)
  {
    var claims := ClaimsOf(b, s.seen);
    ClaimsAreValid(b, s.seen);
    GoesThroughExactly(b.units, claims, s.records, us);
    assert forall i | 0 <= i < SourceCount(b) :: claims[i] in claims;
  }

  /** What a credit note line can bear: as many of its units are still open as are credited that it no
      longer gives back, and their shares differ by no more than the amounts recorded. */
  lemma CreditGoesExactly(b: Book, s: State, l: NoteLine, us: seq<Unit>)
    requires ValidBook(b) && l in b.lines && Giving(CreditClaim(b, s.seen, l))
    ensures var c := CreditClaim(b, s.seen, l);
            Goes(b.units, s.records, c, us)
            <==> && Consistent(s.records, c, us)
                 && Lost(b.units, s.records, c, true) <= Open(b.units, s.records, c, us, true)
                 && Weigh(b.units, s.records, c.source, None, false) + Asked(b.units, s.records, c, us, false)
                    <= Sum(b.units, c, false)
  {
    CreditInFull(b, s.seen, l);
    LostNeedOpen(b.units, s.records, CreditClaim(b, s.seen, l), us);
  }

  // ----- Settled records -----

  /** No record's source line moved since the record was made, unless it gives nothing now. */
  ghost predicate Settled(b: Book, s: State) {
    forall i, id | 0 <= i < SourceCount(b) && id in s.records && id in s.under && Giving(ClaimAt(b, s.seen, i))
      && id.source == ClaimAt(b, s.seen, i).source :: LineStill(b, s.under[id], s.seen, i)
  }

  /** Every source line can bear all that it gives. */
  ghost predicate Fitting(b: Book, now: Seen) {
    forall i | 0 <= i < SourceCount(b) :: Fits(b.units, ClaimAt(b, now, i))
  }

  predicate OrderFits(b: Book) {
    match b.order
    case None => true
    case Some(o) => |b.units| as real <= o.quantity && o.price * |b.units| <= o.total
  }

  /** The invoice line can bear its price for all units allocated. */
  predicate BillFits(a: Allocation) {
    Countable(a.quantity) ==> a.quantity <= a.bill.quantity && a.bill.price * Count(a.quantity) <= a.bill.total
  }

  ghost predicate BillsFit(b: Book, now: Seen) {
    forall k | 0 <= k < |b.rows| && ChargedUnits(b, now, k) != [] :: BillFits(b.rows[k])
  }

  lemma ChargeFits(b: Book, now: Seen, k: nat)
    requires ValidBook(b) && k < |b.rows|
    ensures Fits(b.units, ClaimAt(b, now, 1 + k))
       <==> ChargedUnits(b, now, k) == [] || BillFits(b.rows[k])
  {
    ChargeAt(b, now, k);
    ChargeInFull(b, now, k);
  }

  lemma NoteFits(b: Book, now: Seen, i: nat)
    requires ValidBook(b) && |b.rows| < i < SourceCount(b)
    ensures Fits(b.units, ClaimAt(b, now, i))
  {
    CreditAt(b, now, i);
    CreditInFull(b, now, NoteLineAt(b, i));
  }

  /** Credit note lines always can; order and invoice lines exactly if quantity and total suffice for
      the unit price. */
  lemma FittingExactly(b: Book, now: Seen)
    requires ValidBook(b)
    ensures Fitting(b, now) <==> OrderFits(b) && BillsFit(b, now)
  {
    OrderInFull(b);
    assert ClaimAt(b, now, 0) == OrderClaim(b);
    forall k | 0 <= k < |b.rows|
      ensures Fits(b.units, ClaimAt(b, now, 1 + k))
         <==> ChargedUnits(b, now, k) == [] || BillFits(b.rows[k])
    {
      ChargeFits(b, now, k);
    }
    if OrderFits(b) && BillsFit(b, now) {
      forall i | 0 <= i < SourceCount(b) ensures Fits(b.units, ClaimAt(b, now, i)) {
        if 0 < i <= |b.rows| {
          ChargeFits(b, now, i - 1);
        } else if i > |b.rows| {
          NoteFits(b, now, i);
        }
      }
    }
  }

  lemma SourceIs(b: Book, one: Seen, two: Seen, i: nat, j: nat)
    requires ValidBook(b) && i < SourceCount(b) && j < SourceCount(b)
    requires ClaimAt(b, one, i).source == ClaimAt(b, two, j).source
    ensures i == j
  {
    SameLimits(b, one, two, i);
    if i < j {
      DistinctSources(b, two, i, j);
    } else if j < i {
      DistinctSources(b, two, j, i);
    }
  }

  /** A record of a line is what that line gave when it was made. */
  lemma RecordOf(b: Book, s: State, i: nat, v: Unit)
    requires ValidBook(b) && Inv(b, s) && i < SourceCount(b) && v in b.units
    requires Recorded(s.records, ClaimAt(b, s.seen, i), v)
    ensures var id := Identity(ClaimAt(b, s.seen, i).source, v.id);
            && id in s.under && UpTo(s.under[id], s.seen)
            && v in ClaimAt(b, s.under[id], i).gives && ClaimAt(b, s.under[id], i).gives[v] == s.records[id]
  {
    var id := Identity(ClaimAt(b, s.seen, i).source, v.id);
    assert Provenance(b, s, id);
    var j, u :| 0 <= j < SourceCount(b) && u in b.units && GivesThen(ClaimAt(b, s.under[id], j), u, id, s.records[id]);
    SourceIs(b, s.seen, s.under[id], i, j);
    SameUnit(b.units, u, v);
  }

  lemma SettledAgrees(b: Book, s: State, i: nat)
    requires ValidBook(b) && Inv(b, s) && Settled(b, s) && i < SourceCount(b) && Giving(ClaimAt(b, s.seen, i))
    ensures Agrees(b.units, s.records, ClaimAt(b, s.seen, i))
  {
    var c := ClaimAt(b, s.seen, i);
    forall v | v in b.units && Recorded(s.records, c, v)
      ensures v in c.gives && c.gives[v] == s.records[Identity(c.source, v.id)]
    {
      RecordOf(b, s, i, v);
      StillGivesSame(b, s.under[Identity(c.source, v.id)], s.seen, i);
    }
  }

  /** A line that gives none of the assets anything bears the event. */
  lemma NotAskedGoes(units: seq<Unit>, records: Records, c: Claim, us: seq<Unit>)
    requires (forall u | u in us :: u !in c.gives) && Within(units, records, c)
    ensures Goes(units, records, c, us)
  {
    NothingAsked(units, records, c, us, true);
    NothingAsked(units, records, c, us, false);
  }

  lemma {:induction false} NothingAsked(part: seq<Unit>, records: Records, c: Claim, us: seq<Unit>, counting: bool)
    requires forall u | u in us :: u !in c.gives
    ensures Asked(part, records, c, us, counting) == 0
  {
    if part != [] {
      NothingAsked(part[..|part| - 1], records, c, us, counting);
    }
  }

  lemma SettledGoes(b: Book, s: State, i: nat, us: seq<Unit>)
    requires ValidBook(b) && Inv(b, s) && Settled(b, s) && i < SourceCount(b) && OfBook(b, us)
    requires Fits(b.units, ClaimAt(b, s.seen, i))
    ensures Goes(b.units, s.records, ClaimAt(b, s.seen, i), us)
  {
    if Giving(ClaimAt(b, s.seen, i)) {
      SettledAgrees(b, s, i);
      AgreeingGoes(b.units, s.records, ClaimAt(b, s.seen, i), us);
    } else {
      assert ClaimsOf(b, s.seen)[i] in ClaimsOf(b, s.seen);
      NotAskedGoes(b.units, s.records, ClaimAt(b, s.seen, i), us);
    }
  }

  /** As long as no line with records moved and all lines can bear what they give, every event goes
      through, whichever assets it and those before it are about. */
  lemma SettledGoThrough(b: Book, events: seq<Event>, us: seq<Unit>)
    requires ValidBook(b) && OnBook(b, events) && OfBook(b, us)
    requires Settled(b, After(b, START, events)) && Fitting(b, After(b, START, events).seen)
    ensures Outcome(b, After(b, START, events), us).Some?
  {
    var s := After(b, START, events);
    InvAlways(b, events);
    forall i | 0 <= i < SourceCount(b) ensures Goes(b.units, s.records, ClaimAt(b, s.seen, i), us) {
      SettledGoes(b, s, i, us);
    }
    GoesLineByLine(b, s, us);
  }

  // ----- Events about all units -----

  /** The event is about every unit of the receipt line: all of them have assets. */
  ghost predicate Complete(b: Book, us: seq<Unit>) {
    forall u :: u in us <==> u in b.units
  }

  ghost predicate CompleteRun(b: Book, events: seq<Event>) {
    forall e | e in events && e.Handling? :: Complete(b, e.units)
  }

  /** Each invoice line is matched to this receipt line as a whole. */
  ghost predicate AllWhole(b: Book) {
    forall a | a in b.rows :: WhollyMatched(a)
  }

  lemma AllocationFull(b: Book, now: Seen, k: nat)
    requires ValidBook(b) && k < |b.rows| && WhollyMatched(b.rows[k])
    ensures Exhausted(b.units, ClaimAt(b, now, 1 + k))
  {
    ChargeAt(b, now, k);
    ChargeInFull(b, now, k);
  }

  lemma NoteFull(b: Book, now: Seen, i: nat)
    requires ValidBook(b) && |b.rows| < i < SourceCount(b)
    ensures Exhausted(b.units, ClaimAt(b, now, i))
  {
    CreditAt(b, now, i);
    CreditInFull(b, now, NoteLineAt(b, i));
  }

  /** Every line but the order line, which never moves, is given out in full whenever it gives anything. */
  lemma FullOrFixed(b: Book, now: Seen, i: nat)
    requires ValidBook(b) && 0 < i < SourceCount(b) && (i <= |b.rows| ==> WhollyMatched(b.rows[i - 1]))
    ensures Exhausted(b.units, ClaimAt(b, now, i))
  {
    if i <= |b.rows| {
      AllocationFull(b, now, i - 1);
    } else {
      NoteFull(b, now, i);
    }
  }

  /** All that the line gave under `before` is recorded. */
  ghost predicate HasGiven(b: Book, records: Records, i: nat, before: Seen)
    requires i < SourceCount(b)
  {
    var c := ClaimAt(b, before, i);
    Giving(c) && forall u | u in b.units && u in c.gives :: Recorded(records, c, u)
  }

  /** A line recorded in full that has moved fails every event about all units while it gives anything. */
  lemma MovedFails(b: Book, s: State, us: seq<Unit>, i: nat, before: Seen)
    requires ValidBook(b) && Inv(b, s) && Complete(b, us) && i < SourceCount(b) && UpTo(before, s.seen)
    requires 0 < i <= |b.rows| ==> WhollyMatched(b.rows[i - 1])
    requires HasGiven(b, s.records, i, before) && !LineStill(b, before, s.seen, i) && Giving(ClaimAt(b, s.seen, i))
    ensures Outcome(b, s, us) == None
  {
    var c := ClaimAt(b, s.seen, i);
    var u := MovedTakesBack(b, before, s.seen, i);
    SameLimits(b, before, s.seen, i);
    FullOrFixed(b, s.seen, i);
    GoesLineByLine(b, s, us);
    if Goes(b.units, s.records, c, us) {
      CompleteNeedsAgreement(b.units, s.records, c, us);
      assert Recorded(s.records, c, u);
    }
  }

  /** Once a line that was recorded in full has moved, no later event about all units goes through for as
      long as the line gives anything, whatever else happens. */
  lemma FailsFromThenOn(b: Book, events: seq<Event>, more: seq<Event>, us: seq<Unit>, i: nat, before: Seen)
    requires ValidBook(b) && OnBook(b, events) && OnBook(b, more) && Complete(b, us) && i < SourceCount(b)
    requires 0 < i <= |b.rows| ==> WhollyMatched(b.rows[i - 1])
    requires var s := After(b, START, events);
             HasGiven(b, s.records, i, before) && UpTo(before, s.seen) && !LineStill(b, before, s.seen, i)
    requires Giving(ClaimAt(b, After(b, START, events + more).seen, i))
    ensures Outcome(b, After(b, START, events + more), us) == None
  {
    var s, later := After(b, START, events), After(b, START, events + more);
    AfterConcat(b, START, events, more);
    RecordsStay(b, s, more);
    InvAlways(b, events + more);
    MovedForGood(b, before, s.seen, later.seen, i);
    MovedFails(b, later, us, i, before);
  }

  lemma {:induction false} AfterConcat(b: Book, s: State, events: seq<Event>, more: seq<Event>)
    ensures After(b, s, events + more) == After(b, After(b, s, events), more)
  {
    if more == [] {
      assert events + more == events;
    } else {
      var n := |more| - 1;
      AfterConcat(b, s, events, more[..n]);
      assert (events + more)[..|events + more| - 1] == events + more[..n];
    }
  }

  // ----- Runs of events about all units -----

  /** The line was recorded at one time, and all that it gave then. */
  ghost predicate FullSince(b: Book, s: State, i: nat, before: Seen)
    requires i < SourceCount(b)
  {
    && UpTo(before, s.seen) && HasGiven(b, s.records, i, before)
    && forall v | v in b.units && Recorded(s.records, ClaimAt(b, before, i), v) ::
         v in ClaimAt(b, before, i).gives && Identity(ClaimAt(b, before, i).source, v.id) in s.under
         && s.under[Identity(ClaimAt(b, before, i).source, v.id)] == before
  }

  ghost predicate LineState(b: Book, s: State, i: nat)
    requires i < SourceCount(b)
  {
    || (forall v | v in b.units :: !Recorded(s.records, ClaimAt(b, s.seen, i), v))
    || (exists before :: FullSince(b, s, i, before))
  }

  ghost predicate FullInv(b: Book, s: State) {
    Inv(b, s) && forall i | 0 <= i < SourceCount(b) :: LineState(b, s, i)
  }

  /** A full record that goes on through an event about all units has not moved. */
  lemma FullStays(b: Book, s: State, us: seq<Unit>, i: nat, before: Seen)
    requires ValidBook(b) && AllWhole(b) && Inv(b, s) && Complete(b, us) && i < SourceCount(b)
    requires Outcome(b, s, us).Some? && FullSince(b, s, i, before) && Giving(ClaimAt(b, s.seen, i))
    ensures LineStill(b, before, s.seen, i) && ClaimAt(b, before, i) == ClaimAt(b, s.seen, i)
  {
    if !LineStill(b, before, s.seen, i) {
      MovedFails(b, s, us, i, before);
    }
    StillGivesSame(b, before, s.seen, i);
  }

  /** An event about all units goes through exactly if no line with records moved since, and all lines can
      bear what they give. */
  lemma CompleteGoesExactly(b: Book, s: State, us: seq<Unit>)
    requires ValidBook(b) && AllWhole(b) && FullInv(b, s) && Complete(b, us)
    ensures Outcome(b, s, us).Some? <==> Settled(b, s) && Fitting(b, s.seen)
  {
    GoesLineByLine(b, s, us);
    if Outcome(b, s, us).Some? {
      forall i | 0 <= i < SourceCount(b) ensures Fits(b.units, ClaimAt(b, s.seen, i)) {
        CompleteNeedsFit(b.units, s.records, ClaimAt(b, s.seen, i), us);
      }
      forall i, id | 0 <= i < SourceCount(b) && id in s.records && id in s.under && Giving(ClaimAt(b, s.seen, i))
        && id.source == ClaimAt(b, s.seen, i).source
        ensures LineStill(b, s.under[id], s.seen, i)
      {
        RecordedStill(b, s, us, i, id);
      }
    }
    if Settled(b, s) && Fitting(b, s.seen) {
      forall i | 0 <= i < SourceCount(b) ensures Goes(b.units, s.records, ClaimAt(b, s.seen, i), us) {
        SettledGoes(b, s, i, us);
      }
    }
  }

  lemma RecordedStill(b: Book, s: State, us: seq<Unit>, i: nat, id: Identity)
    requires ValidBook(b) && AllWhole(b) && Inv(b, s) && Complete(b, us) && i < SourceCount(b) && LineState(b, s, i)
    requires id in s.records && id in s.under && id.source == ClaimAt(b, s.seen, i).source
    requires Outcome(b, s, us).Some? && Giving(ClaimAt(b, s.seen, i))
    ensures LineStill(b, s.under[id], s.seen, i)
  {
    var u := RecordedUnit(b, s, id);
    var before := FullOf(b, s, i, u);
    FullStays(b, s, us, i, before);
  }

  lemma RecordedUnit(b: Book, s: State, id: Identity) returns (u: Unit)
    requires Inv(b, s) && id in s.records
    ensures u in b.units && id.unit == u.id
  {
    assert Provenance(b, s, id);
    var j;
    j, u :| 0 <= j < SourceCount(b) && u in b.units && GivesThen(ClaimAt(b, s.under[id], j), u, id, s.records[id]);
  }

  /** The time at which a recorded line was recorded. */
  lemma FullOf(b: Book, s: State, i: nat, v: Unit) returns (before: Seen)
    requires i < SourceCount(b) && LineState(b, s, i) && v in b.units && Recorded(s.records, ClaimAt(b, s.seen, i), v)
    ensures FullSince(b, s, i, before) && Identity(ClaimAt(b, s.seen, i).source, v.id) in s.under
    ensures s.under[Identity(ClaimAt(b, s.seen, i).source, v.id)] == before
  {
    before :| FullSince(b, s, i, before);
    SameLimits(b, before, s.seen, i);
  }

  /** A line recorded in full records nothing more. */
  lemma NothingMore(b: Book, s: State, us: seq<Unit>, so: Records, i: nat, before: Seen, v: Unit)
    requires ValidBook(b) && AllWhole(b) && Inv(b, s) && Complete(b, us) && i < SourceCount(b) && v in b.units
    requires Outcome(b, s, us) == Some(so) && FullSince(b, s, i, before) && Recorded(so, ClaimAt(b, before, i), v)
    ensures Recorded(s.records, ClaimAt(b, before, i), v)
  {
    EventIsUnion(b.units, ClaimsOf(b, s.seen), s.records, us);
    ClaimsAreValid(b, s.seen);
    SameLimits(b, before, s.seen, i);
    NotNew(b, s, us, so, i, v);
    if Giving(ClaimAt(b, s.seen, i)) {
      FullStays(b, s, us, i, before);
    }
  }

  lemma FullStill(b: Book, s: State, us: seq<Unit>, so: Records, i: nat, before: Seen)
    requires ValidBook(b) && AllWhole(b) && Inv(b, s) && Complete(b, us) && i < SourceCount(b)
    requires Outcome(b, s, us) == Some(so) && FullSince(b, s, i, before)
    ensures FullSince(b, Handled(s, so), i, before)
  {
    EventIsUnion(b.units, ClaimsOf(b, s.seen), s.records, us);
    forall v | v in b.units && Recorded(so, ClaimAt(b, before, i), v)
      ensures Recorded(s.records, ClaimAt(b, before, i), v)
    {
      NothingMore(b, s, us, so, i, before, v);
    }
  }

  /** What a line records anew it gives now. */
  lemma NotNew(b: Book, s: State, us: seq<Unit>, so: Records, i: nat, v: Unit)
    requires ValidBook(b) && Complete(b, us) && i < SourceCount(b) && v in b.units
    requires Union(ClaimsOf(b, s.seen), s.records, us, so) && ValidClaims(b.units, ClaimsOf(b, s.seen))
    ensures var c := ClaimAt(b, s.seen, i); Recorded(so, c, v) <==> Recorded(s.records, c, v) || v in c.gives
  {
    var claims := ClaimsOf(b, s.seen);
    assert claims[i] in claims;
    UnionOfUnit(b.units, claims, s.records, us, so, claims[i], v);
  }

  lemma NewlyFull(b: Book, s: State, us: seq<Unit>, so: Records, i: nat)
    requires ValidBook(b) && Inv(b, s) && Complete(b, us) && i < SourceCount(b) && Outcome(b, s, us) == Some(so)
    requires forall v | v in b.units :: !Recorded(s.records, ClaimAt(b, s.seen, i), v)
    ensures LineState(b, Handled(s, so), i)
  {
    var c := ClaimAt(b, s.seen, i);
    EventIsUnion(b.units, ClaimsOf(b, s.seen), s.records, us);
    ClaimsAreValid(b, s.seen);
    forall v | v in b.units ensures Recorded(so, c, v) <==> v in c.gives {
      NotNew(b, s, us, so, i, v);
    }
    if Giving(c) {
      assert FullSince(b, Handled(s, so), i, s.seen);
    }
  }

  lemma CompleteKeeps(b: Book, s: State, us: seq<Unit>, so: Records)
    requires ValidBook(b) && AllWhole(b) && FullInv(b, s) && Complete(b, us) && Outcome(b, s, us) == Some(so)
    ensures FullInv(b, Handled(s, so))
  {
    HandlingKeeps(b, s, us, so);
    forall i | 0 <= i < SourceCount(b) ensures LineState(b, Handled(s, so), i) {
      assert LineState(b, s, i);
      if forall v | v in b.units :: !Recorded(s.records, ClaimAt(b, s.seen, i), v) {
        NewlyFull(b, s, us, so, i);
      } else {
        var before :| FullSince(b, s, i, before);
        FullStill(b, s, us, so, i, before);
      }
    }
  }

  lemma SeeingKeepsFull(b: Book, s: State, later: Seen)
    requires FullInv(b, s) && UpTo(s.seen, later)
    ensures FullInv(b, s.(seen := later))
  {
    SeeingKeeps(b, s, later);
    forall i | 0 <= i < SourceCount(b) ensures LineState(b, s.(seen := later), i) {
      assert LineState(b, s, i);
      SameLimits(b, s.seen, later, i);
      if before :| FullSince(b, s, i, before) {
        assert FullSince(b, s.(seen := later), i, before);
      }
    }
  }

  lemma FullStep(b: Book, s: State, e: Event)
    requires ValidBook(b) && AllWhole(b) && FullInv(b, s) && (e.Handling? ==> Complete(b, e.units))
    ensures FullInv(b, Step(b, s, e))
  {
    match e
    case Approving(_) => SeeingKeepsFull(b, s, Step(b, s, e).seen);
    case Applying(_) => SeeingKeepsFull(b, s, Step(b, s, e).seen);
    case Handling(us) =>
      if Outcome(b, s, us).Some? {
        CompleteKeeps(b, s, us, Outcome(b, s, us).value);
      }
  }

  lemma {:induction false} FullAlways(b: Book, events: seq<Event>)
    requires ValidBook(b) && AllWhole(b) && CompleteRun(b, events)
    ensures FullInv(b, After(b, START, events))
  {
    if events == [] {
      StartsRight(b);
    } else {
      var n := |events| - 1;
      FullAlways(b, events[..n]);
      assert events[n] in events;
      FullStep(b, After(b, START, events[..n]), events[n]);
    }
  }

  /** Over every run whose events are about all units: the next one goes through if and only if, since a
      line was recorded, no allocation matched before it was approved and nothing else was released from
      its allocations, and all lines can bear what they give. */
  lemma CompleteEventsGoThroughExactly(b: Book, events: seq<Event>, us: seq<Unit>)
    requires ValidBook(b) && AllWhole(b) && CompleteRun(b, events) && Complete(b, us)
    ensures var s := After(b, START, events); Outcome(b, s, us).Some? <==> Settled(b, s) && Fitting(b, s.seen)
  {
    FullAlways(b, events);
    CompleteGoesExactly(b, After(b, START, events), us);
  }

  lemma FullWeighs(b: Book, s: State, i: nat, before: Seen)
    requires ValidBook(b) && Inv(b, s) && i < SourceCount(b) && FullSince(b, s, i, before)
    ensures var c := ClaimAt(b, before, i);
            && Weigh(b.units, s.records, c.source, None, true) == Sum(b.units, c, true)
            && Weigh(b.units, s.records, c.source, None, false) == Sum(b.units, c, false)
  {
    var c := ClaimAt(b, before, i);
    SameLimits(b, before, s.seen, i);
    forall v | v in b.units && Recorded(s.records, c, v) ensures s.records[Identity(c.source, v.id)] == c.gives[v] {
      RecordOf(b, s, i, v);
    }
    WeighsAll(b.units, s.records, c, true);
    WeighsAll(b.units, s.records, c, false);
  }

  lemma {:induction false} WeighsAll(part: seq<Unit>, records: Records, c: Claim, counting: bool)
    requires forall v | v in part :: Recorded(records, c, v) <==> v in c.gives
    requires forall v | v in part && v in c.gives ::
               Recorded(records, c, v) && records[Identity(c.source, v.id)] == c.gives[v]
    ensures Weigh(part, records, c.source, None, counting) == Sum(part, c, counting)
  {
    if part != [] {
      var n := |part| - 1;
      assert part[n] in part && forall v | v in part[..n] :: v in part;
      WeighsAll(part[..n], records, c, counting);
    }
  }

  lemma PlaceOfNote(b: Book, l: NoteLine) returns (i: nat)
    requires l in b.lines
    ensures |b.rows| < i < SourceCount(b) && NoteLineAt(b, i) == l
  {
    var n :| 0 <= n < |b.lines| && b.lines[n] == l;
    i := 1 + |b.rows| + n;
  }

  lemma NoteSums(b: Book, now: Seen, i: nat)
    requires ValidBook(b) && |b.rows| < i < SourceCount(b) && Giving(ClaimAt(b, now, i))
    ensures var l, c := NoteLineAt(b, i), ClaimAt(b, now, i);
            && c.source == Credited(l.id) && Sum(b.units, c, true) as real == l.quantity
            && Sum(b.units, c, false) == InMinor(l.amount, l.digits)
  {
    CreditAt(b, now, i);
    CreditInFull(b, now, NoteLineAt(b, i));
  }

  lemma CreditedWhole(b: Book, s: State, i: nat, v: Unit)
    requires ValidBook(b) && FullInv(b, s) && |b.rows| < i < SourceCount(b) && v in b.units
    requires Identity(Credited(NoteLineAt(b, i).id), v.id) in s.records
    ensures var l := NoteLineAt(b, i);
            && Weigh(b.units, s.records, Credited(l.id), None, true) as real == l.quantity
            && Weigh(b.units, s.records, Credited(l.id), None, false) == InMinor(l.amount, l.digits)
  {
    CreditAt(b, s.seen, i);
    var before := FullOf(b, s, i, v);
    FullWeighs(b, s, i, before);
    NoteSums(b, before, i);
  }

  /** In such a run a credit note line that is recorded at all is credited in full, for good. */
  lemma CreditedInFull(b: Book, events: seq<Event>, l: NoteLine, v: Unit)
    requires ValidBook(b) && AllWhole(b) && CompleteRun(b, events) && l in b.lines && v in b.units
    requires Identity(Credited(l.id), v.id) in After(b, START, events).records
    ensures var s := After(b, START, events);
            && Weigh(b.units, s.records, Credited(l.id), None, true) as real == l.quantity
            && Weigh(b.units, s.records, Credited(l.id), None, false) == InMinor(l.amount, l.digits)
  {
    FullAlways(b, events);
    var i := PlaceOfNote(b, l);
    CreditedWhole(b, After(b, START, events), i, v);
  }

  // ----- Charges over runs -----

  /** If no allocation with a charge was overtaken by the approval of an earlier one, no unit is charged
      under two allocations, whatever events there were. */
  lemma ChargedUnderOne(b: Book, events: seq<Event>, k: nat, m: nat, u: Unit)
    requires ValidBook(b) && OnBook(b, events) && k < |b.rows| && m < |b.rows| && u in b.units
    requires var s := After(b, START, events);
             var one, two := Identity(Invoiced(b.rows[k].id), u.id), Identity(Invoiced(b.rows[m].id), u.id);
             && one in s.records && two in s.records
             && (one in s.under ==> LineStill(b, s.under[one], s.seen, 1 + k))
             && (two in s.under ==> LineStill(b, s.under[two], s.seen, 1 + m))
    ensures k == m
  {
    var s := After(b, START, events);
    InvAlways(b, events);
    var i := ChargedPlace(b, s, k, u);
    var j := ChargedPlace(b, s, m, u);
    assert i == j;
    IndexIs(b.rows, k);
    IndexIs(b.rows, m);
    PlaceIsOfOne(b.rows, b.line, s.seen.approved, k, m, i);
  }

  /** A charge that was not overtaken still has its place on the receipt line. */
  lemma ChargedPlace(b: Book, s: State, k: nat, u: Unit) returns (at: nat)
    requires ValidBook(b) && Inv(b, s) && k < |b.rows| && u in b.units
    requires var id := Identity(Invoiced(b.rows[k].id), u.id);
             id in s.records && (id in s.under ==> LineStill(b, s.under[id], s.seen, 1 + k))
    ensures at < |b.units| && b.units[at] == u && b.rows[k].invoice in s.seen.approved && Takes(b.rows[k], b.line)
    ensures var base := Taken(Visible(b.rows[..k], s.seen.approved), b.line);
            base <= at < base + Count(b.rows[k].quantity)
  {
    var id := Identity(Invoiced(b.rows[k].id), u.id);
    ChargeAt(b, s.seen, k);
    assert Recorded(s.records, ClaimAt(b, s.seen, 1 + k), u);
    RecordOf(b, s, 1 + k, u);
    ChargeAt(b, s.under[id], k);
    TakenGrowsWith(b.rows[..k], b.line, s.under[id].approved, s.seen.approved);
    at :| 0 <= at < |b.units| && b.units[at] == u;
    InPiece(b.units, Taken(Visible(b.rows[..k], s.under[id].approved), b.line), Count(b.rows[k].quantity), at);
  }

  /** An invoice line whose total is below its price times its quantity, as a discount may leave it, can
      never be charged to all its units. */
  lemma DiscountedFails(b: Book, events: seq<Event>, us: seq<Unit>, k: nat)
    requires ValidBook(b) && OnBook(b, events) && Complete(b, us) && k < |b.rows|
    requires ChargedUnits(b, After(b, START, events).seen, k) != []
    requires b.rows[k].bill.price * Count(b.rows[k].quantity) > b.rows[k].bill.total
    ensures Outcome(b, After(b, START, events), us) == None
  {
    var s := After(b, START, events);
    InvAlways(b, events);
    ChargeAt(b, s.seen, k);
    ChargeInFull(b, s.seen, k);
    GoesLineByLine(b, s, us);
    if Goes(b.units, s.records, ClaimAt(b, s.seen, 1 + k), us) {
      CompleteNeedsFit(b.units, s.records, ClaimAt(b, s.seen, 1 + k), us);
    }
  }

  // ----- Two notes on one allocation -----

  /** If an event goes through with two notes on one allocation applied and clear, it leaves a unit
      that both are credited for. */
  lemma CreditedTwice(b: Book, s: State, us: seq<Unit>, l: NoteLine, m: NoteLine) returns (u: Unit)
    requires ValidBook(b) && Complete(b, us) && Outcome(b, s, us).Some?
    requires l in b.lines && m in b.lines && l.note in s.seen.applied && m.note in s.seen.applied
    requires Given(b, s.seen, l).Some? && Given(b, s.seen, m).Some? && ShareAllocation(l, m) && Alone(b, l)
             && Alone(b, m)
    ensures u in b.units
    ensures Identity(Credited(l.id), u.id) in Outcome(b, s, us).value
    ensures Identity(Credited(m.id), u.id) in Outcome(b, s, us).value
  {
    u := SharedUnit(b, s.seen, l, m);
    CreditIsRecorded(b, s, us, l, u);
    CreditIsRecorded(b, s, us, m, u);
  }

  lemma CreditIsRecorded(b: Book, s: State, us: seq<Unit>, l: NoteLine, u: Unit)
    requires Outcome(b, s, us).Some? && u in us && l in b.lines && u in CreditedUnits(b, s.seen, l)
    ensures Identity(Credited(l.id), u.id) in Outcome(b, s, us).value
  {
    var i := PlaceOfNote(b, l);
    CreditAt(b, s.seen, i);
    assert ClaimsOf(b, s.seen)[i] in ClaimsOf(b, s.seen);
    AddsAllDue(b.units, ClaimsOf(b, s.seen), s.records, us, CreditClaim(b, s.seen, l), u);
  }
}
