/** Small receipt lines on which events of the cost linker fail, or record a unit twice. */
module CostExamples {
  import opened Wrappers
  import opened Sequences
  import opened MinorUnits
  import opened CostSlices
  import opened CostAllocation
  import opened CostLines
  import opened CreditNotes
  import opened Claims
  import opened CostEvents
  import opened CostClaims
  import opened CostRuns

  const FIRST_UNIT := Unit("1", Some("asset 1"))
  const SECOND_UNIT := Unit("2", Some("asset 2"))
  const BOTH := [FIRST_UNIT, SECOND_UNIT]

  // ----- The first event -----

  /** All that the lines give these units is recorded. */
  ghost predicate HasRecords(b: Book, now: Seen, so: Records, us: seq<Unit>) {
    forall i, u | 0 <= i < SourceCount(b) && u in us && u in ClaimAt(b, now, i).gives ::
      Recorded(so, ClaimAt(b, now, i), u)
  }

  lemma RecordsAll(b: Book, s: State, us: seq<Unit>, so: Records)
    requires Outcome(b, s, us) == Some(so)
    ensures HasRecords(b, s.seen, so, us)
  {
    EventIsUnion(b.units, ClaimsOf(b, s.seen), s.records, us);
    forall i, u | 0 <= i < SourceCount(b) && u in us && u in ClaimAt(b, s.seen, i).gives
      ensures Recorded(so, ClaimAt(b, s.seen, i), u)
    {
      assert ClaimsOf(b, s.seen)[i] in ClaimsOf(b, s.seen);
      assert Has(so, ClaimAt(b, s.seen, i), u);
    }
  }

  /** With nothing recorded, an event that all lines can bear goes through. */
  lemma FirstEvent(b: Book, events: seq<Event>, us: seq<Unit>)
    requires ValidBook(b) && OnBook(b, events) && OfBook(b, us) && After(b, START, events).records == map[]
    requires OrderFits(b) && BillsFit(b, After(b, START, events).seen)
    ensures Outcome(b, After(b, START, events), us).Some?
    ensures var s := After(b, START, events + [Handling(us)]);
            s.seen == After(b, START, events).seen && HasRecords(b, s.seen, s.records, us)
  {
    FittingExactly(b, After(b, START, events).seen);
    SettledGoThrough(b, events, us);
    RecordsAll(b, After(b, START, events), us, Outcome(b, After(b, START, events), us).value);
    AfterOneMore(b, events, Handling(us));
  }

  lemma AfterOneMore(b: Book, events: seq<Event>, e: Event)
    ensures After(b, START, events + [e]) == Step(b, After(b, START, events), e)
  {
    assert (events + [e])[..|events|] == events;
  }

  function SeenAfter(seen: Seen, e: Event): Seen {
    match e
    case Approving(invoice) => seen.(approved := seen.approved + {invoice})
    case Applying(note) => seen.(applied := seen.applied + {note})
    case Handling(_) => seen
  }

  lemma MovedFailsAfter(b: Book, s: State, now: Seen, us: seq<Unit>, i: nat)
    requires ValidBook(b) && AllWhole(b) && Inv(b, s) && Complete(b, us) && HasRecords(b, s.seen, s.records, us)
    requires i < SourceCount(b) && UpTo(s.seen, now) && !LineStill(b, s.seen, now, i)
    requires Giving(ClaimAt(b, s.seen, i)) && Giving(ClaimAt(b, now, i))
    ensures Outcome(b, s.(seen := now), us) == None
  {
    SeeingKeeps(b, s, now);
    assert HasGiven(b, s.records, i, s.seen);
    MovedFails(b, s.(seen := now), us, i, s.seen);
  }

  lemma HandledOnBook(b: Book, events: seq<Event>, us: seq<Unit>)
    requires OnBook(b, events) && OfBook(b, us)
    ensures OnBook(b, events + [Handling(us)])
  {
  }

  /** The event moves a line that gives something before and after. */
  ghost predicate Moves(b: Book, before: Seen, e: Event, i: nat) {
    && !e.Handling? && i < SourceCount(b) && Giving(ClaimAt(b, before, i))
    && Giving(ClaimAt(b, SeenAfter(before, e), i)) && !LineStill(b, before, SeenAfter(before, e), i)
  }

  /** Nothing is handled yet, and all lines can bear an event about all units. */
  ghost predicate Ready(b: Book, events: seq<Event>, us: seq<Unit>, before: Seen) {
    && ValidBook(b) && AllWhole(b) && OnBook(b, events) && Complete(b, us) && OrderFits(b) && BillsFit(b, before)
    && After(b, START, events) == State(before, map[], map[])
  }

  /** A first event about all units, then something that moves a line that it recorded: the second event
      fails. */
  lemma FailsAfter(b: Book, events: seq<Event>, e: Event, us: seq<Unit>, i: nat, before: Seen)
    requires Ready(b, events, us, before) && Moves(b, before, e, i)
    ensures Outcome(b, After(b, START, events), us).Some?
    ensures Outcome(b, After(b, START, events + [Handling(us)] + [e]), us) == None
  {
    FirstEvent(b, events, us);
    HandledOnBook(b, events, us);
    InvAlways(b, events + [Handling(us)]);
    AfterOneMore(b, events + [Handling(us)], e);
    MovedFailsAfter(b, After(b, START, events + [Handling(us)]), SeenAfter(before, e), us, i);
  }

  // ----- Two notes on one allocation -----

  function NoteOfOne(note: string, id: string, allocation: string): NoteLine {
    NoteLine(note, id, 1.0, 10000, 2, [Release(allocation, Some("r"), 1.0)])
  }

  /** One invoice for two units, and two notes of one unit each. */
  function TwoNotes(le: UnitOrder): Book {
    Book("r", [Allocation("a", "i", Some("r"), 2.0, Priced(1000000, 2.0, 2000000))], BOTH,
         [NoteOfOne("A", "la", "a"), NoteOfOne("B", "lb", "a")], None, le)
  }

  lemma TwoNotesVisible(le: UnitOrder)
    ensures var b := TwoNotes(le);
            OfLine(Visible(b.rows, {"i"}), "r") == b.rows && Visible(b.rows[..0], {"i"}) == []
  {
    var rows := TwoNotes(le).rows;
    assert rows[..0] == [];
    assert Visible(rows, {"i"}) == rows;
    assert rows[1..] == [];
  }

  lemma TwoNotesPrior(le: UnitOrder, applied: set<string>, note: string)
    ensures Prior(TwoNotes(le).lines, applied, note, "a")
         == (if "A" in applied && note != "A" then 1.0 else 0.0) + (if "B" in applied && note != "B" then 1.0 else 0.0)
  {
    var lines := TwoNotes(le).lines;
    assert lines[..1] == [lines[0]] && lines[..1][..0] == [];
    OnOwn("a");
    assert Prior(lines[..1], applied, note, "a") == if "A" in applied && note != "A" then 1.0 else 0.0;
  }

  lemma OnOwn(allocation: string)
    ensures OnAllocation([Release(allocation, Some("r"), 1.0)], allocation) == 1.0
  {
    assert [Release(allocation, Some("r"), 1.0)][..0] == [];
  }

  lemma ReleasedAlone(db: Ledger, r: Release, us: seq<Unit>)
    requires ReleaseSlice(db, r).Some? && ReleaseUnits(db, r) == us
    ensures AllReleased(db, [r]) == Some(us)
  {
    FlattenOneMore(GivenBack(db), [], r);
    assert [] + [r] == [r] && [] + us == us;
  }

  lemma QuantityAlone(r: Release)
    ensures ReleasedQuantity([r]) == r.quantity
  {
    assert [r][..0] == [];
  }

  /** A line that releases one unit is given the one at which its release starts. */
  lemma GivenOne(b: Book, now: Seen, l: NoteLine, r: Release, at: nat)
    requires l.releases == [r] && r.quantity == 1.0 == l.quantity && l.amount > 0 && r.line == Some(b.line)
    requires at < |b.units| && ReleaseSlice(LedgerOf(b, now, l.note), r) == Some(Slice(at, 1))
    ensures Given(b, now, l) == Some([b.units[at]])
  {
    var db := LedgerOf(b, now, l.note);
    assert ReleaseUnits(db, r) == [b.units[at]];
    ReleasedAlone(db, r, [b.units[at]]);
    QuantityAlone(r);
    assert SafeInteger(1.0);
  }

  lemma TwoNotesSlice(le: UnitOrder, applied: set<string>, note: string, p: real)
    requires p == Prior(TwoNotes(le).lines, applied, note, "a") && (p == 0.0 || p == 1.0)
    ensures ReleaseSlice(LedgerOf(TwoNotes(le), Seen({"i"}, applied), note), Release("a", Some("r"), 1.0))
         == Some(Slice(p.Floor, 1))
  {
    var b := TwoNotes(le);
    TwoNotesVisible(le);
    assert Countable(1.0) && Countable(2.0) && Count(1.0) == 1 && Count(2.0) == 2;
    assert IndexOf(b.rows, "a") == 0 && SumCounts(b.rows, 0) == 0;
  }

  /** Each note is given the unit behind what the other has released. */
  lemma TwoNotesGiven(le: UnitOrder, applied: set<string>, l: NoteLine)
    requires l == NoteOfOne("A", "la", "a") || l == NoteOfOne("B", "lb", "a")
    ensures var other := if l.note == "A" then "B" else "A";
            Given(TwoNotes(le), Seen({"i"}, applied), l) == Some([if other in applied then SECOND_UNIT else FIRST_UNIT])
  {
    var r := Release("a", Some("r"), 1.0);
    TwoNotesPrior(le, applied, l.note);
    var p := Prior(TwoNotes(le).lines, applied, l.note, "a");
    TwoNotesSlice(le, applied, l.note, p);
    GivenOne(TwoNotes(le), Seen({"i"}, applied), l, r, p.Floor);
  }

  lemma TwoNotesValid(le: UnitOrder)
    ensures var b := TwoNotes(le); ValidBook(b) && Complete(b, BOTH) && OrderFits(b) && forall now :: BillsFit(b, now)
  {
    assert Count(2.0) == 2;
  }

  lemma TwoNotesGives(le: UnitOrder, applied: set<string>)
    ensures var b, now := TwoNotes(le), Seen({"i"}, applied);
            && CreditedUnits(b, now, b.lines[0])
               == (if "A" !in applied then [] else if "B" in applied then [SECOND_UNIT] else [FIRST_UNIT])
            && CreditedUnits(b, now, b.lines[1])
               == (if "B" !in applied then [] else if "A" in applied then [SECOND_UNIT] else [FIRST_UNIT])
  {
    TwoNotesGiven(le, applied, NoteOfOne("A", "la", "a"));
    TwoNotesGiven(le, applied, NoteOfOne("B", "lb", "a"));
  }

  lemma TwoNotesMove(le: UnitOrder)
    ensures var b := TwoNotes(le); !LineStill(b, Seen({"i"}, {"A"}), Seen({"i"}, {"A", "B"}), 2)
  {
    var b := TwoNotes(le);
    var la, lb := b.lines[0], b.lines[1];
    assert la.releases[0] in la.releases && lb.releases[0] in lb.releases;
    assert Touches(lb, "a") && NewlyTouches(lb, {"A"}, {"A", "B"}, "A", "a");
    assert !Still(b, Seen({"i"}, {"A"}), Seen({"i"}, {"A", "B"}), la, la.releases[0]);
  }

  lemma NoteGives(b: Book, now: Seen, i: nat)
    requires |b.rows| < i < SourceCount(b)
    ensures Giving(ClaimAt(b, now, i)) <==> CreditedUnits(b, now, NoteLineAt(b, i)) != []
  {
    var l := NoteLineAt(b, i);
    CreditAt(b, now, i);
    SharesNone(CreditedUnits(b, now, l), ShareOf(b, l, CreditedUnits(b, now, l)));
  }

  lemma SeenOne(b: Book, e: Event)
    requires !e.Handling?
    ensures After(b, START, [e]) == State(SeenAfter(START.seen, e), map[], map[])
  {
    assert [e][..0] == [];
  }

  lemma SeenTwo(b: Book, e: Event, f: Event)
    requires !e.Handling? && !f.Handling?
    ensures After(b, START, [e, f]) == State(SeenAfter(SeenAfter(START.seen, e), f), map[], map[])
  {
    SeenOne(b, e);
    AfterOneMore(b, [e], f);
    assert [e] + [f] == [e, f];
  }

  lemma FirstNoteGives(le: UnitOrder)
    ensures var b := TwoNotes(le);
            Giving(ClaimAt(b, Seen({"i"}, {"A"}), 2)) && Giving(ClaimAt(b, Seen({"i"}, {"A", "B"}), 2))
  {
    TwoNotesGives(le, {"A"});
    TwoNotesGives(le, {"A", "B"});
    NoteGives(TwoNotes(le), Seen({"i"}, {"A"}), 2);
    NoteGives(TwoNotes(le), Seen({"i"}, {"A", "B"}), 2);
  }

  lemma FirstNoteSeen(le: UnitOrder)
    ensures var events := [Approving("i"), Applying("A")];
            && After(TwoNotes(le), START, events) == State(Seen({"i"}, {"A"}), map[], map[])
            && OnBook(TwoNotes(le), events)
    ensures SeenAfter(Seen({"i"}, {"A"}), Applying("B")) == Seen({"i"}, {"A", "B"})
  {
    SeenTwo(TwoNotes(le), Approving("i"), Applying("A"));
    assert {} + {"i"} == {"i"} && {} + {"A"} == {"A"} && {"A"} + {"B"} == {"A", "B"};
  }

  lemma FirstNoteMoves(le: UnitOrder)
    ensures Moves(TwoNotes(le), Seen({"i"}, {"A"}), Applying("B"), 2)
  {
    FirstNoteSeen(le);
    FirstNoteGives(le);
    TwoNotesMove(le);
  }

  /** Applied and handled strictly in order: the first note is recorded, and from the second on every
      event fails. */
  lemma InOrderFails(le: UnitOrder)
    ensures var b, events := TwoNotes(le), [Approving("i"), Applying("A")];
            && Outcome(b, After(b, START, events), BOTH).Some?
            && Outcome(b, After(b, START, events + [Handling(BOTH)] + [Applying("B")]), BOTH) == None
  {
    TwoNotesValid(le);
    FirstNoteSeen(le);
    FirstNoteMoves(le);
    FailsAfter(TwoNotes(le), [Approving("i"), Applying("A")], Applying("B"), BOTH, 2, Seen({"i"}, {"A"}));
  }

  /** Both applied before the first event: it goes through, and both notes credit the second unit. */
  lemma TogetherOverlaps(le: UnitOrder)
    ensures var b, events := TwoNotes(le), [Approving("i"), Applying("A"), Applying("B")];
            var done := Outcome(b, After(b, START, events), BOTH);
            && done.Some?
            && Identity(Credited("la"), "2") in done.value && Identity(Credited("lb"), "2") in done.value
  {
    var b, events := TwoNotes(le), [Approving("i"), Applying("A"), Applying("B")];
    TwoNotesValid(le);
    SeenTwo(b, Approving("i"), Applying("A"));
    AfterOneMore(b, [Approving("i"), Applying("A")], Applying("B"));
    assert [Approving("i"), Applying("A")] + [Applying("B")] == events;
    var s := After(b, START, events);
    assert s == State(Seen({"i"}, {"A", "B"}), map[], map[]);
    FirstEvent(b, events, BOTH);
    TwoNotesGives(le, {"A", "B"});
    CreditIsRecorded(b, s, BOTH, b.lines[0], SECOND_UNIT);
    CreditIsRecorded(b, s, BOTH, b.lines[1], SECOND_UNIT);
  }

  // ----- Two invoices approved in the other order -----

  /** Two invoices for one unit each, and a note for the one matched second. */
  function TwoInvoices(le: UnitOrder): Book {
    Book("r", [Allocation("a", "i", Some("r"), 1.0, Priced(1000000, 1.0, 1000000)),
               Allocation("b", "j", Some("r"), 1.0, Priced(1000000, 1.0, 1000000))],
         BOTH, [NoteOfOne("A", "la", "b")], None, le)
  }

  lemma TwoInvoicesValid(le: UnitOrder)
    ensures var b := TwoInvoices(le);
            ValidBook(b) && AllWhole(b) && Complete(b, BOTH) && OrderFits(b) && forall now :: BillsFit(b, now)
  {
    assert Count(1.0) == 1;
  }

  lemma TwoInvoicesVisible(le: UnitOrder, approved: set<string>)
    ensures var rows := TwoInvoices(le).rows;
            && Visible(rows[..0], approved) == []
            && Visible(rows[..1], approved) == (if "i" in approved then [rows[0]] else [])
            && Visible(rows, approved)
               == (if "i" in approved then [rows[0]] else []) + (if "j" in approved then [rows[1]] else [])
  {
    var rows := TwoInvoices(le).rows;
    assert rows[..0] == [] && rows[..1] == [rows[0]] && rows[..1][..0] == [];
  }

  /** Each invoice is charged with the unit behind what is visible before it. */
  lemma TwoInvoicesCharged(le: UnitOrder, now: Seen)
    ensures var b := TwoInvoices(le);
            && ChargedUnits(b, now, 0) == (if "i" in now.approved then [FIRST_UNIT] else [])
            && ChargedUnits(b, now, 1)
               == (if "j" !in now.approved then [] else if "i" in now.approved then [SECOND_UNIT] else [FIRST_UNIT])
  {
    var b := TwoInvoices(le);
    TwoInvoicesVisible(le, now.approved);
    assert Countable(1.0) && Count(1.0) == 1;
    assert [b.rows[0]][..0] == [];
    assert Taken([b.rows[0]], "r") == 1;
    assert BOTH[0..1] == [FIRST_UNIT] && BOTH[1..2] == [SECOND_UNIT];
  }

  lemma ChargeGives(b: Book, now: Seen, k: nat)
    requires k < |b.rows|
    ensures Giving(ClaimAt(b, now, 1 + k)) <==> ChargedUnits(b, now, k) != []
    ensures forall u :: u in ClaimAt(b, now, 1 + k).gives <==> u in ChargedUnits(b, now, k)
  {
    ChargeAt(b, now, k);
    ChargesSomething(b, now, k);
  }

  lemma SecondInvoiceMoves(le: UnitOrder)
    ensures !LineStill(TwoInvoices(le), Seen({"j"}, {}), Seen({"j", "i"}, {}), 2)
  {
    var rows := TwoInvoices(le).rows;
    assert rows[..1] == [rows[0]];
    assert NewlyTakes(rows[0], "r", {"j"}, {"j", "i"});
    assert rows[0] in rows[..1];
  }

  lemma SecondInvoiceGives(le: UnitOrder, now: Seen)
    requires "j" in now.approved
    ensures Giving(ClaimAt(TwoInvoices(le), now, 2))
    ensures FIRST_UNIT in ClaimAt(TwoInvoices(le), now, 2).gives <==> "i" !in now.approved
  {
    TwoInvoicesCharged(le, now);
    ChargeGives(TwoInvoices(le), now, 1);
  }

  lemma FirstInvoiceGives(le: UnitOrder, now: Seen)
    ensures forall u :: u in ClaimAt(TwoInvoices(le), now, 1).gives <==> "i" in now.approved && u == FIRST_UNIT
  {
    TwoInvoicesCharged(le, now);
    ChargeGives(TwoInvoices(le), now, 0);
  }

  lemma SecondInvoiceSeen(le: UnitOrder)
    ensures After(TwoInvoices(le), START, [Approving("j")]) == State(Seen({"j"}, {}), map[], map[])
    ensures SeenAfter(Seen({"j"}, {}), Approving("i")) == Seen({"j", "i"}, {})
  {
    SeenOne(TwoInvoices(le), Approving("j"));
    assert {} + {"j"} == {"j"} && {"j"} + {"i"} == {"j", "i"};
  }

  lemma SecondInvoiceReady(le: UnitOrder)
    ensures Ready(TwoInvoices(le), [Approving("j")], BOTH, Seen({"j"}, {}))
  {
    TwoInvoicesValid(le);
    SecondInvoiceSeen(le);
  }

  lemma SecondInvoiceMoved(le: UnitOrder)
    ensures Moves(TwoInvoices(le), Seen({"j"}, {}), Approving("i"), 2)
  {
    SecondInvoiceSeen(le);
    SecondInvoiceGives(le, Seen({"j"}, {}));
    SecondInvoiceGives(le, Seen({"j", "i"}, {}));
    SecondInvoiceMoves(le);
  }

  /** The invoice matched second is approved and charged first: once the other is approved, every event
      about both assets fails, though nothing was released. */
  lemma EarlierApprovalFails(le: UnitOrder)
    ensures var b, events := TwoInvoices(le), [Approving("j")];
            && Outcome(b, After(b, START, events), BOTH).Some?
            && Outcome(b, After(b, START, events + [Handling(BOTH)] + [Approving("i")]), BOTH) == None
  {
    SecondInvoiceReady(le);
    SecondInvoiceMoved(le);
    FailsAfter(TwoInvoices(le), [Approving("j")], Approving("i"), BOTH, 2, Seen({"j"}, {}));
  }

  lemma TwoInvoicesOnLine(le: UnitOrder, approved: set<string>)
    requires "j" in approved
    ensures var b := TwoInvoices(le);
            && OfLine(Visible(b.rows, approved), "r") == (if "i" in approved then b.rows else [b.rows[1]])
            && IndexOf([b.rows[1]], "b") == 0 && IndexOf(b.rows, "b") == 1
  {
    var b := TwoInvoices(le);
    TwoInvoicesVisible(le, approved);
    assert b.rows[1..] == [b.rows[1]] && [b.rows[1]][1..] == [] && [b.rows[0]] + [b.rows[1]] == b.rows;
    assert OfLine([b.rows[1]], "r") == [b.rows[1]];
    assert OfLine(b.rows, "r") == b.rows;
    assert [] + [b.rows[1]] == [b.rows[1]];
  }

  lemma NothingPrior(le: UnitOrder)
    ensures Prior(TwoInvoices(le).lines, {}, "A", "b") == 0.0
  {
    assert TwoInvoices(le).lines[..0] == [];
  }

  lemma TwoInvoicesSlice(le: UnitOrder, approved: set<string>)
    requires "j" in approved
    ensures ReleaseSlice(LedgerOf(TwoInvoices(le), Seen(approved, {}), "A"), Release("b", Some("r"), 1.0))
         == Some(Slice(if "i" in approved then 1 else 0, 1))
  {
    TwoInvoicesOnLine(le, approved);
    NothingPrior(le);
    assert Countable(1.0) && Count(1.0) == 1;
    var rows := OfLine(Visible(TwoInvoices(le).rows, approved), "r");
    assert CreditSlice(rows, "b", BOTH, 0.0) == Some(Slice(if "i" in approved then 1 else 0, 1));
  }

  /** That approval also moves the unit that a note of the second invoice gives back. */
  lemma ApprovalMovesNote(le: UnitOrder)
    ensures var b := TwoInvoices(le);
            && Given(b, Seen({"j"}, {}), b.lines[0]) == Some([FIRST_UNIT])
            && Given(b, Seen({"j", "i"}, {}), b.lines[0]) == Some([SECOND_UNIT])
  {
    var b, r := TwoInvoices(le), Release("b", Some("r"), 1.0);
    TwoInvoicesSlice(le, {"j"});
    TwoInvoicesSlice(le, {"j", "i"});
    GivenOne(b, Seen({"j"}, {}), b.lines[0], r, 0);
    GivenOne(b, Seen({"j", "i"}, {}), b.lines[0], r, 1);
  }

  // ----- A unit charged twice -----

  /** All records were made when only the second invoice was approved. */
  ghost predicate MadeOnSecond(s: State) {
    forall id | id in s.records :: id in s.under && s.under[id] == Seen({"j"}, {})
  }

  lemma FirstMade(b: Book, now: Seen, us: seq<Unit>, so: Records)
    requires now == Seen({"j"}, {})
    ensures MadeOnSecond(Handled(State(now, map[], map[]), so))
  {
  }

  lemma RecordedOnSecond(le: UnitOrder, so: Records)
    requires HasRecords(TwoInvoices(le), Seen({"j"}, {}), so, [FIRST_UNIT])
    ensures Identity(Invoiced("b"), "1") in so
  {
    var b, now := TwoInvoices(le), Seen({"j"}, {});
    SecondInvoiceGives(le, now);
    ChargeAt(b, now, 1);
    assert FIRST_UNIT in [FIRST_UNIT] && Recorded(so, ClaimAt(b, now, 2), FIRST_UNIT);
  }

  /** An event about the first asset alone, after only the second invoice was approved. */
  lemma ChargedOnSecond(le: UnitOrder)
    ensures var b, s := TwoInvoices(le), After(TwoInvoices(le), START, [Approving("j")] + [Handling([FIRST_UNIT])]);
            && s.seen == Seen({"j"}, {}) && Inv(b, s) && MadeOnSecond(s) && Identity(Invoiced("b"), "1") in s.records
  {
    var b, events, us := TwoInvoices(le), [Approving("j")], [FIRST_UNIT];
    TwoInvoicesValid(le);
    SecondInvoiceSeen(le);
    HandledOnBook(b, events, us);
    FirstEvent(b, events, us);
    InvAlways(b, events + [Handling(us)]);
    AfterOneMore(b, events, Handling(us));
    FirstMade(b, Seen({"j"}, {}), us, Outcome(b, After(b, START, events), us).value);
    RecordedOnSecond(le, After(b, START, events + [Handling(us)]).records);
  }

  lemma GivenWhenRecorded(b: Book, s: State, before: Seen, i: nat, v: Unit)
    requires ValidBook(b) && Inv(b, s) && i < SourceCount(b) && v in b.units
    requires forall id | id in s.records :: id in s.under && s.under[id] == before
    ensures Recorded(s.records, ClaimAt(b, s.seen, i), v) ==> v in ClaimAt(b, before, i).gives
  {
    if Recorded(s.records, ClaimAt(b, s.seen, i), v) {
      RecordOf(b, s, i, v);
    }
  }

  lemma FirstInvoiceUnrecorded(le: UnitOrder, s: State, v: Unit)
    requires Inv(TwoInvoices(le), s) && v in BOTH && MadeOnSecond(s)
    ensures !Recorded(s.records, ClaimAt(TwoInvoices(le), s.seen, 1), v)
  {
    var before := Seen({"j"}, {});
    TwoInvoicesValid(le);
    FirstInvoiceGives(le, before);
    GivenWhenRecorded(TwoInvoices(le), s, before, 1, v);
  }

  lemma FirstInvoiceGoes(le: UnitOrder, s: State)
    requires Inv(TwoInvoices(le), s) && MadeOnSecond(s)
    ensures var b := TwoInvoices(le); Goes(b.units, s.records, ClaimAt(b, s.seen, 1), [FIRST_UNIT])
  {
    var b := TwoInvoices(le);
    TwoInvoicesValid(le);
    forall v | v in BOTH ensures !Recorded(s.records, ClaimAt(b, s.seen, 1), v) {
      FirstInvoiceUnrecorded(le, s, v);
    }
    ChargeFits(b, s.seen, 0);
    AgreeingGoes(b.units, s.records, ClaimAt(b, s.seen, 1), [FIRST_UNIT]);
  }

  lemma UnappliedGivesNothing(b: Book, now: Seen, i: nat)
    requires |b.rows| < i < SourceCount(b) && NoteLineAt(b, i).note !in now.applied
    ensures forall u :: u !in ClaimAt(b, now, i).gives
  {
    CreditAt(b, now, i);
  }

  lemma FirstUnitNotGiven(le: UnitOrder, now: Seen, i: nat)
    requires now == Seen({"j", "i"}, {}) && i < SourceCount(TwoInvoices(le)) && i != 1
    ensures FIRST_UNIT !in ClaimAt(TwoInvoices(le), now, i).gives
  {
    if i == 2 {
      SecondInvoiceGives(le, now);
    } else if i > 2 {
      UnappliedGivesNothing(TwoInvoices(le), now, i);
    }
  }

  lemma OthersGo(le: UnitOrder, s: State, i: nat)
    requires Inv(TwoInvoices(le), s) && s.seen == Seen({"j", "i"}, {}) && i < SourceCount(TwoInvoices(le)) && i != 1
    ensures var b := TwoInvoices(le); Goes(b.units, s.records, ClaimAt(b, s.seen, i), [FIRST_UNIT])
  {
    var b := TwoInvoices(le);
    assert ClaimsOf(b, s.seen)[i] in ClaimsOf(b, s.seen);
    FirstUnitNotGiven(le, s.seen, i);
    NotAskedGoes(b.units, s.records, ClaimAt(b, s.seen, i), [FIRST_UNIT]);
  }

  lemma SecondEventGoes(le: UnitOrder, s: State)
    requires Inv(TwoInvoices(le), s) && MadeOnSecond(s) && s.seen == Seen({"j", "i"}, {})
    ensures Outcome(TwoInvoices(le), s, [FIRST_UNIT]).Some?
  {
    var b, us := TwoInvoices(le), [FIRST_UNIT];
    TwoInvoicesValid(le);
    forall i | 0 <= i < SourceCount(b) ensures Goes(b.units, s.records, ClaimAt(b, s.seen, i), us) {
      if i == 1 {
        FirstInvoiceGoes(le, s);
      } else {
        OthersGo(le, s, i);
      }
    }
    GoesLineByLine(b, s, us);
  }

  lemma RecordedOnFirst(le: UnitOrder, s: State, so: Records)
    requires s.seen == Seen({"j", "i"}, {}) && Outcome(TwoInvoices(le), s, [FIRST_UNIT]) == Some(so)
    ensures Identity(Invoiced("a"), "1") in so && Extends(s.records, so)
  {
    var b := TwoInvoices(le);
    RecordsAll(b, s, [FIRST_UNIT], so);
    EventIsUnion(b.units, ClaimsOf(b, s.seen), s.records, [FIRST_UNIT]);
    FirstInvoiceGives(le, s.seen);
    ChargeAt(b, s.seen, 0);
    assert FIRST_UNIT in [FIRST_UNIT] && Recorded(so, ClaimAt(b, s.seen, 1), FIRST_UNIT);
  }

  /** An event about the asset of the first unit when only the second invoice was approved, and another
      when both are: the unit is charged under both. */
  lemma ChargedTwice(le: UnitOrder)
    ensures var b, us := TwoInvoices(le), [FIRST_UNIT];
            var done := Outcome(b, After(b, START, [Approving("j")] + [Handling(us)] + [Approving("i")]), us);
            && done.Some?
            && Identity(Invoiced("a"), "1") in done.value && Identity(Invoiced("b"), "1") in done.value
  {
    var b, us := TwoInvoices(le), [FIRST_UNIT];
    var handled := [Approving("j")] + [Handling(us)];
    ChargedOnSecond(le);
    SecondInvoiceSeen(le);
    AfterOneMore(b, handled, Approving("i"));
    var before, s := After(b, START, handled), After(b, START, handled + [Approving("i")]);
    SeeingKeeps(b, before, s.seen);
    SecondEventGoes(le, s);
    RecordedOnFirst(le, s, Outcome(b, s, us).value);
  }
}
