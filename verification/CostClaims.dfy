/** What the source lines of a receipt line give over time: when a line keeps giving to the same units,
    and that it otherwise takes something back from one of them. */
module CostClaims {
  import opened Wrappers
  import opened Sequences
  import opened MinorUnits
  import opened CostSlices
  import opened CostAllocation
  import opened CostLines
  import opened CreditNotes
  import opened Claims
  import opened CostEvents

  // ----- Sums over what is given -----

  /** The sum over those of the units that are given. */
  ghost function SumIn(us: seq<Unit>, given: seq<Unit>, f: Unit -> nat): nat {
    if us == [] then 0
    else
      var n := |us| - 1;
      SumIn(us[..n], given, f) + if us[n] in given then f(us[n]) else 0
  }

  lemma {:induction false} SumInNone(us: seq<Unit>, f: Unit -> nat)
    ensures SumIn(us, [], f) == 0
  {
    if us != [] {
      SumInNone(us[..|us| - 1], f);
    }
  }

  lemma {:induction false} SumInOneMore(us: seq<Unit>, given: seq<Unit>, x: Unit, f: Unit -> nat)
    requires DistinctUnits(us) && x !in given
    ensures SumIn(us, given + [x], f) == SumIn(us, given, f) + if x in us then f(x) else 0
  {
    if us != [] {
      var n := |us| - 1;
      LastUnit(us);
      assert x == us[n] ==> !HasId(us[..n], x.id);
      SumInOneMore(us[..n], given, x, f);
    }
  }

  /** Summing over a line and keeping what is given is summing over what is given. */
  lemma {:induction false} SumInGiven(us: seq<Unit>, given: seq<Unit>, f: Unit -> nat)
    requires DistinctUnits(us) && DistinctUnits(given) && forall u | u in given :: u in us
    ensures SumIn(us, given, f) == SumOver(f, given)
  {
    if given == [] {
      SumInNone(us, f);
    } else {
      var n := |given| - 1;
      LastUnit(given);
      assert given == given[..n] + [given[n]];
      assert given[n] !in given[..n];
      SumInGiven(us, given[..n], f);
      SumInOneMore(us, given[..n], given[n], f);
      SumAppends(f, given[..n], given[n]);
    }
  }

  lemma {:induction false} SumOfSame(us: seq<Unit>, price: nat)
    ensures SumOver(Same(price), us) == price * |us|
  {
    if us != [] {
      SumOfSame(us[1..], price);
      OneMoreTimes(price, |us| - 1);
    }
  }

  lemma OneMoreTimes(price: nat, n: nat)
    ensures price + price * n == price * (n + 1)
  {
  }

  lemma {:induction false} SumIsSumIn(us: seq<Unit>, c: Claim, given: seq<Unit>, f: Unit -> nat, counting: bool)
    requires forall u | u in us :: (u in c.gives <==> u in given) && (u in c.gives ==> Worth(c, u, counting) == f(u))
    ensures Sum(us, c, counting) == SumIn(us, given, f)
  {
    if us != [] {
      var n := |us| - 1;
      assert us[n] in us && forall u | u in us[..n] :: u in us;
      SumIsSumIn(us[..n], c, given, f, counting);
    }
  }

  /** A line that shares among these units gives as many units, and as much as their shares. */
  lemma SumOfShared(us: seq<Unit>, c: Claim, given: seq<Unit>, f: Unit -> nat)
    requires DistinctUnits(us) && DistinctUnits(given) && (forall u | u in given :: u in us)
    requires c.gives == Shares(given, f)
    ensures Sum(us, c, true) == |given| && Sum(us, c, false) == SumOver(f, given)
  {
    SumIsSumIn(us, c, given, f, false);
    SumInGiven(us, given, f);
    SumIsSumIn(us, c, given, Same(1), true);
    SumInGiven(us, given, Same(1));
    SumOfSame(given, 1);
  }

  // ----- The claims of a book -----

  lemma PieceOf(units: seq<Unit>, start: nat, count: nat)
    requires DistinctUnits(units) && start + count <= |units|
    ensures DistinctUnits(units[start..start + count]) && |units[start..start + count]| == count
    ensures forall u | u in units[start..start + count] :: u in units
  {
    var piece := units[start..start + count];
    assert forall j | 0 <= j < count :: piece[j] == units[start + j];
  }

  /** What an allocation is charged with is its slice in the charging walk over the visible ones. */
  lemma ChargedAsWalked(b: Book, now: Seen, k: nat)
    requires ValidBook(b) && k < |b.rows| && b.rows[k].invoice in now.approved && b.rows[k].line == Some(b.line)
    ensures var i := |Visible(b.rows[..k], now.approved)|;
            && i < |Visible(b.rows, now.approved)|
            && ChargedUnits(b, now, k) == match ChargeSlice(Visible(b.rows, now.approved), i, b.units)
                                          case None => []
                                          case Some(s) => Cut(b.units, s)
  {
    ChargedFromBase(b.rows, b.line, now.approved, b.units, k);
    IndexIs(b.rows, k);
  }

  lemma ChargedOnLine(b: Book, now: Seen, k: nat)
    requires ValidBook(b) && k < |b.rows|
    ensures var units := ChargedUnits(b, now, k);
            DistinctUnits(units) && (forall u | u in units :: u in b.units)
            && (units != [] ==> Takes(b.rows[k], b.line) && |units| == Count(b.rows[k].quantity))
  {
    if ChargedUnits(b, now, k) != [] {
      PieceOf(b.units, Taken(Visible(b.rows[..k], now.approved), b.line), Count(b.rows[k].quantity));
    }
  }

  lemma CreditedOnLine(b: Book, now: Seen, l: NoteLine)
    requires ValidBook(b) && l in b.lines
    ensures var units := CreditedUnits(b, now, l);
            && DistinctUnits(units) && (forall u | u in units :: u in b.units)
            && (units != [] ==> |units| as real == l.quantity)
  {
    if CreditedUnits(b, now, l) != [] {
      GivenOnLine(b, now, l);
    }
  }

  lemma ChargeGivesOnly(b: Book, now: Seen, k: nat)
    requires ValidBook(b) && k < |b.rows|
    ensures GivesOnly(b.units, ChargeClaim(b, now, k))
  {
    ChargedOnLine(b, now, k);
  }

  lemma CreditGivesOnly(b: Book, now: Seen, l: NoteLine)
    requires ValidBook(b) && l in b.lines
    ensures GivesOnly(b.units, CreditClaim(b, now, l))
  {
    CreditedOnLine(b, now, l);
  }

  /** The credit note line among the source lines. */
  function NoteLineAt(b: Book, i: nat): NoteLine
    requires |b.rows| < i < SourceCount(b)
  {
    b.lines[i - 1 - |b.rows|]
  }

  lemma ChargeAt(b: Book, now: Seen, k: nat)
    requires k < |b.rows|
    ensures ClaimAt(b, now, 1 + k) == ChargeClaim(b, now, k)
  {
  }

  lemma CreditAt(b: Book, now: Seen, i: nat)
    requires |b.rows| < i < SourceCount(b)
    ensures ClaimAt(b, now, i) == CreditClaim(b, now, NoteLineAt(b, i)) && NoteLineAt(b, i) in b.lines
  {
  }

  lemma ClaimOnLine(b: Book, now: Seen, i: nat)
    requires ValidBook(b) && i < SourceCount(b)
    ensures GivesOnly(b.units, ClaimAt(b, now, i))
  {
    if 0 < i <= |b.rows| {
      ChargeGivesOnly(b, now, i - 1);
    } else if i > |b.rows| {
      CreditGivesOnly(b, now, NoteLineAt(b, i));
    }
  }

  lemma DistinctSources(b: Book, now: Seen, i: nat, j: nat)
    requires ValidBook(b) && i < j < SourceCount(b)
    ensures ClaimAt(b, now, i).source != ClaimAt(b, now, j).source
  {
  }

  lemma ClaimsAreValid(b: Book, now: Seen)
    requires ValidBook(b)
    ensures ValidClaims(b.units, ClaimsOf(b, now))
  {
    forall i, j | 0 <= i < j < SourceCount(b) ensures ClaimsOf(b, now)[i].source != ClaimsOf(b, now)[j].source {
      DistinctSources(b, now, i, j);
    }
    forall c | c in ClaimsOf(b, now) ensures GivesOnly(b.units, c) {
      var i :| 0 <= i < SourceCount(b) && ClaimsOf(b, now)[i] == c;
      ClaimOnLine(b, now, i);
    }
  }

  /** What is approved and applied changes what the lines give, not which lines there are. */
  lemma SameLimits(b: Book, one: Seen, two: Seen, i: nat)
    requires i < SourceCount(b)
    ensures ClaimAt(b, one, i).(gives := map[]) == ClaimAt(b, two, i).(gives := map[])
  {
  }

  lemma LimitsStay(b: Book, one: Seen, two: Seen, records: Records)
    requires WithinLimits(b.units, ClaimsOf(b, one), records)
    ensures WithinLimits(b.units, ClaimsOf(b, two), records)
  {
    forall c | c in ClaimsOf(b, two) ensures Within(b.units, records, c) {
      var i :| 0 <= i < SourceCount(b) && ClaimsOf(b, two)[i] == c;
      SameLimits(b, one, two, i);
      assert Within(b.units, records, ClaimsOf(b, one)[i]);
    }
  }

  // ----- Lines that stay, and lines that move -----

  /** Nothing happened since `before` that moves the line: for an allocation, no allocation of the receipt
      line that was matched before it was approved; for a credit note line, that of all its allocations,
      and nothing else was released from them. */
  ghost predicate LineStill(b: Book, before: Seen, now: Seen, i: nat)
    requires i < SourceCount(b)
  {
    if i == 0 then true
    else if i <= |b.rows| then !TakenSince(b.rows[..i - 1], b.line, before.approved, now.approved)
    else Untouched(b, before, now, NoteLineAt(b, i))
  }

  predicate Giving(c: Claim) {
    |c.gives| > 0
  }

  /** The unit was given something and is not any more. */
  predicate TakesBack(before: Claim, now: Claim, u: Unit) {
    u in before.gives && u !in now.gives
  }

  lemma SharesNone(us: seq<Unit>, f: Unit -> nat)
    ensures |Shares(us, f)| == 0 <==> us == []
  {
    if us != [] {
      assert us[0] in Shares(us, f);
    }
  }

  lemma SameCharged(b: Book, before: Seen, now: Seen, k: nat)
    requires k < |b.rows| && UpTo(before, now) && ChargedUnits(b, before, k) != [] && ChargedUnits(b, now, k) != []
    requires !TakenSince(b.rows[..k], b.line, before.approved, now.approved)
    ensures ChargedUnits(b, before, k) == ChargedUnits(b, now, k)
  {
    TakenGrowsWith(b.rows[..k], b.line, before.approved, now.approved);
  }

  lemma ChargesSomething(b: Book, now: Seen, k: nat)
    requires k < |b.rows|
    ensures Giving(ChargeClaim(b, now, k)) <==> ChargedUnits(b, now, k) != []
  {
    SharesNone(ChargedUnits(b, now, k), Same(b.rows[k].bill.price));
  }

  lemma ChargeStays(b: Book, before: Seen, now: Seen, k: nat)
    requires k < |b.rows| && UpTo(before, now)
    requires Giving(ChargeClaim(b, before, k)) && Giving(ChargeClaim(b, now, k))
    requires !TakenSince(b.rows[..k], b.line, before.approved, now.approved)
    ensures ChargeClaim(b, before, k) == ChargeClaim(b, now, k)
  {
    ChargesSomething(b, before, k);
    ChargesSomething(b, now, k);
    SameCharged(b, before, now, k);
  }

  lemma ChargeMoves(b: Book, before: Seen, now: Seen, k: nat) returns (u: Unit)
    requires ValidBook(b) && k < |b.rows| && UpTo(before, now)
    requires ChargedUnits(b, before, k) != [] && ChargedUnits(b, now, k) != []
    requires TakenSince(b.rows[..k], b.line, before.approved, now.approved)
    ensures u in b.units && u in ChargedUnits(b, before, k) && u !in ChargedUnits(b, now, k)
  {
    TakenGrowsWith(b.rows[..k], b.line, before.approved, now.approved);
    var at := Taken(Visible(b.rows[..k], before.approved), b.line);
    u := b.units[at];
    InPiece(b.units, at, Count(b.rows[k].quantity), at);
    InPiece(b.units, Taken(Visible(b.rows[..k], now.approved), b.line), Count(b.rows[k].quantity), at);
  }

  lemma ChargeTakesBack(b: Book, before: Seen, now: Seen, k: nat) returns (u: Unit)
    requires ValidBook(b) && k < |b.rows| && UpTo(before, now)
    requires Giving(ChargeClaim(b, before, k)) && Giving(ChargeClaim(b, now, k))
    requires TakenSince(b.rows[..k], b.line, before.approved, now.approved)
    ensures u in b.units && TakesBack(ChargeClaim(b, before, k), ChargeClaim(b, now, k), u)
  {
    ChargesSomething(b, before, k);
    ChargesSomething(b, now, k);
    u := ChargeMoves(b, before, now, k);
  }

  lemma GivesSomething(b: Book, now: Seen, l: NoteLine)
    requires Giving(CreditClaim(b, now, l))
    ensures l.note in now.applied && Given(b, now, l).Some? && CreditedUnits(b, now, l) == Given(b, now, l).value
  {
    SharesNone(CreditedUnits(b, now, l), ShareOf(b, l, CreditedUnits(b, now, l)));
  }

  lemma CreditStays(b: Book, before: Seen, now: Seen, l: NoteLine)
    requires ValidBook(b) && l in b.lines && UpTo(before, now) && Untouched(b, before, now, l)
    requires Giving(CreditClaim(b, before, l)) && Giving(CreditClaim(b, now, l))
    ensures CreditClaim(b, before, l) == CreditClaim(b, now, l)
  {
    GivesSomething(b, before, l);
    GivesSomething(b, now, l);
    KeepsUnits(b, before, now, l);
  }

  lemma CreditTakesBack(b: Book, before: Seen, now: Seen, l: NoteLine) returns (u: Unit)
    requires ValidBook(b) && l in b.lines && UpTo(before, now) && !Untouched(b, before, now, l)
    requires Giving(CreditClaim(b, before, l)) && Giving(CreditClaim(b, now, l))
    ensures u in b.units && TakesBack(CreditClaim(b, before, l), CreditClaim(b, now, l), u)
  {
    GivesSomething(b, before, l);
    GivesSomething(b, now, l);
    u := LosesUnit(b, before, now, l);
  }

  lemma AllocationStays(b: Book, before: Seen, now: Seen, k: nat)
    requires k < |b.rows| && UpTo(before, now) && LineStill(b, before, now, 1 + k)
    requires Giving(ClaimAt(b, before, 1 + k)) && Giving(ClaimAt(b, now, 1 + k))
    ensures ClaimAt(b, before, 1 + k) == ClaimAt(b, now, 1 + k)
  {
    ChargeAt(b, before, k);
    ChargeAt(b, now, k);
    ChargeStays(b, before, now, k);
  }

  lemma NoteStays(b: Book, before: Seen, now: Seen, i: nat)
    requires ValidBook(b) && |b.rows| < i < SourceCount(b) && UpTo(before, now) && LineStill(b, before, now, i)
    requires Giving(ClaimAt(b, before, i)) && Giving(ClaimAt(b, now, i))
    ensures ClaimAt(b, before, i) == ClaimAt(b, now, i)
  {
    CreditAt(b, before, i);
    CreditAt(b, now, i);
    CreditStays(b, before, now, NoteLineAt(b, i));
  }

  /** A line that gives before and now and was left alone gives the same. */
  lemma StillGivesSame(b: Book, before: Seen, now: Seen, i: nat)
    requires ValidBook(b) && i < SourceCount(b) && UpTo(before, now) && LineStill(b, before, now, i)
    requires Giving(ClaimAt(b, before, i)) && Giving(ClaimAt(b, now, i))
    ensures ClaimAt(b, before, i) == ClaimAt(b, now, i)
  {
    if 0 < i <= |b.rows| {
      AllocationStays(b, before, now, i - 1);
    } else if i > |b.rows| {
      NoteStays(b, before, now, i);
    }
  }

  lemma AllocationTakesBack(b: Book, before: Seen, now: Seen, k: nat) returns (u: Unit)
    requires ValidBook(b) && k < |b.rows| && UpTo(before, now) && !LineStill(b, before, now, 1 + k)
    requires Giving(ClaimAt(b, before, 1 + k)) && Giving(ClaimAt(b, now, 1 + k))
    ensures u in b.units && TakesBack(ClaimAt(b, before, 1 + k), ClaimAt(b, now, 1 + k), u)
  {
    ChargeAt(b, before, k);
    ChargeAt(b, now, k);
    u := ChargeTakesBack(b, before, now, k);
  }

  lemma NoteTakesBack(b: Book, before: Seen, now: Seen, i: nat) returns (u: Unit)
    requires ValidBook(b) && |b.rows| < i < SourceCount(b) && UpTo(before, now) && !LineStill(b, before, now, i)
    requires Giving(ClaimAt(b, before, i)) && Giving(ClaimAt(b, now, i))
    ensures u in b.units && TakesBack(ClaimAt(b, before, i), ClaimAt(b, now, i), u)
  {
    CreditAt(b, before, i);
    CreditAt(b, now, i);
    u := CreditTakesBack(b, before, now, NoteLineAt(b, i));
  }

  lemma PlaceTakesBack(b: Book, before: Seen, now: Seen, i: nat, k: nat) returns (u: Unit)
    requires ValidBook(b) && k < |b.rows| && i == 1 + k && UpTo(before, now) && !LineStill(b, before, now, i)
    requires Giving(ClaimAt(b, before, i)) && Giving(ClaimAt(b, now, i))
    ensures u in b.units && TakesBack(ClaimAt(b, before, i), ClaimAt(b, now, i), u)
  {
    u := AllocationTakesBack(b, before, now, k);
  }

  /** A line that was not left alone takes something back from a unit. */
  lemma MovedTakesBack(b: Book, before: Seen, now: Seen, i: nat) returns (u: Unit)
    requires ValidBook(b) && i < SourceCount(b) && UpTo(before, now) && !LineStill(b, before, now, i)
    requires Giving(ClaimAt(b, before, i)) && Giving(ClaimAt(b, now, i))
    ensures u in b.units && TakesBack(ClaimAt(b, before, i), ClaimAt(b, now, i), u)
  {
    if i <= |b.rows| {
      u := PlaceTakesBack(b, before, now, i, i - 1);
    } else {
      u := NoteTakesBack(b, before, now, i);
    }
  }

  /** What moved a line stays. */
  lemma MovedForGood(b: Book, before: Seen, now: Seen, later: Seen, i: nat)
    requires i < SourceCount(b) && UpTo(now, later) && !LineStill(b, before, now, i)
    ensures !LineStill(b, before, later, i)
  {
    if i <= |b.rows| {
      TakenForGood(b.rows[..i - 1], b.line, before.approved, now.approved, later.approved);
    } else {
      var l := NoteLineAt(b, i);
      var r :| r in l.releases && !Still(b, before, now, l, r);
      if TouchedSince(b.lines, before.applied, now.applied, l.note, r.allocation) {
        TouchedForGood(b.lines, before.applied, now.applied, later.applied, l.note, r.allocation);
      } else {
        TakenForGood(b.rows[..IndexOf(b.rows, r.allocation)], b.line, before.approved, now.approved, later.approved);
      }
    }
  }

  lemma TakenForGood(rows: seq<Allocation>, line: LineId, before: set<string>, now: set<string>, later: set<string>)
    requires TakenSince(rows, line, before, now) && now <= later
    ensures TakenSince(rows, line, before, later)
  {
    var a :| a in rows && NewlyTakes(a, line, before, now);
    assert NewlyTakes(a, line, before, later);
  }

  lemma TouchedForGood(lines: seq<NoteLine>, before: set<string>, now: set<string>, later: set<string>, note: string,
                       allocation: string)
    requires TouchedSince(lines, before, now, note, allocation) && now <= later
    ensures TouchedSince(lines, before, later, note, allocation)
  {
    var m :| m in lines && NewlyTouches(m, before, now, note, allocation);
    assert NewlyTouches(m, before, later, note, allocation);
  }

  // ----- Lines that are given out in full -----

  /** A credit note line that gives anything shares its whole quantity and amount. */
  lemma CreditInFull(b: Book, now: Seen, l: NoteLine)
    requires ValidBook(b) && l in b.lines
    ensures Exhausted(b.units, CreditClaim(b, now, l)) && Fits(b.units, CreditClaim(b, now, l))
    ensures Giving(CreditClaim(b, now, l))
            ==> Sum(b.units, CreditClaim(b, now, l), false) == InMinor(l.amount, l.digits)
  {
    var units := CreditedUnits(b, now, l);
    var f := ShareOf(b, l, units);
    CreditedOnLine(b, now, l);
    SumOfShared(b.units, CreditClaim(b, now, l), units, f);
    if units != [] {
      SharedOut(b.le, units, l.amount, l.digits);
    }
  }

  /** The whole invoice line is matched to the receipt line. */
  predicate WhollyMatched(a: Allocation) {
    a.quantity == a.bill.quantity
  }

  /** An allocation of a whole invoice line gives its whole quantity, at the price of one unit each. */
  lemma ChargeInFull(b: Book, now: Seen, k: nat)
    requires ValidBook(b) && k < |b.rows|
    ensures WhollyMatched(b.rows[k]) ==> Exhausted(b.units, ChargeClaim(b, now, k))
    ensures ChargedUnits(b, now, k) != [] ==>
              (Fits(b.units, ChargeClaim(b, now, k))
               <==> b.rows[k].quantity <= b.rows[k].bill.quantity
                    && b.rows[k].bill.price * Count(b.rows[k].quantity) <= b.rows[k].bill.total)
    ensures ChargedUnits(b, now, k) == [] ==> Fits(b.units, ChargeClaim(b, now, k))
  {
    var units, price := ChargedUnits(b, now, k), b.rows[k].bill.price;
    ChargedOnLine(b, now, k);
    SumOfShared(b.units, ChargeClaim(b, now, k), units, Same(price));
    SumOfSame(units, price);
  }

  lemma OrderInFull(b: Book)
    requires ValidBook(b)
    ensures Fits(b.units, OrderClaim(b))
       <==> match b.order
            case None => true
            case Some(o) => |b.units| as real <= o.quantity && o.price * |b.units| <= o.total
  {
    match b.order
    case None => SumOfShared(b.units, OrderClaim(b), [], Same(0));
    case Some(o) =>
      SumOfShared(b.units, OrderClaim(b), b.units, Same(o.price));
      SumOfSame(b.units, o.price);
  }
}
