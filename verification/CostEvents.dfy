/** Events of the cost linker on one receipt line: for each of its assets an event walks the order line,
    all visible allocations and all applied credit notes again, and records what is missing. */
module CostEvents {
  import opened Wrappers
  import opened Sequences
  import opened MinorUnits
  import opened CostSlices
  import opened CostAllocation
  import opened CostLines
  import opened CreditNotes
  import opened Claims

  // ----- What each source line gives -----

  function Shares(us: seq<Unit>, f: Unit -> nat): map<Unit, nat> {
    map u | u in us :: f(u)
  }

  function Same(price: nat): Unit -> nat {
    _ => price
  }

  /** Every accepted unit of the receipt line is committed at the price of the order line. */
  function OrderClaim(b: Book): Claim {
    match b.order
    case None => Claim(Ordered, 0.0, 0, map[])
    case Some(o) => Claim(Ordered, o.quantity, o.total, Shares(b.units, Same(o.price)))
  }

  /** The units that an allocation is charged with, if it is visible and takes units of the line. */
  function ChargedUnits(b: Book, now: Seen, k: nat): seq<Unit>
    requires k < |b.rows|
  {
    var a := b.rows[k];
    var base := Taken(Visible(b.rows[..k], now.approved), b.line);
    if a.invoice in now.approved && Takes(a, b.line) && base + Count(a.quantity) <= |b.units|
    then b.units[base..base + Count(a.quantity)] else []
  }

  function ChargeOn(a: Allocation, units: seq<Unit>): Claim {
    Claim(Invoiced(a.id), a.bill.quantity, a.bill.total, Shares(units, Same(a.bill.price)))
  }

  function ChargeClaim(b: Book, now: Seen, k: nat): Claim
    requires k < |b.rows|
  {
    ChargeOn(b.rows[k], ChargedUnits(b, now, k))
  }

  function ShareOf(b: Book, l: NoteLine, given: seq<Unit>): Unit -> nat {
    ShareOut(b.le, given, l.amount, l.digits)
  }

  /** The units that a credit note line gives back; none if its note is not applied or not clear. */
  function CreditedUnits(b: Book, now: Seen, l: NoteLine): seq<Unit> {
    if l.note in now.applied && Given(b, now, l).Some? then Given(b, now, l).value else []
  }

  function CreditOn(b: Book, l: NoteLine, units: seq<Unit>): Claim {
    Claim(Credited(l.id), l.quantity, InMinor(l.amount, l.digits), Shares(units, ShareOf(b, l, units)))
  }

  function CreditClaim(b: Book, now: Seen, l: NoteLine): Claim {
    CreditOn(b, l, CreditedUnits(b, now, l))
  }

  function SourceCount(b: Book): nat {
    1 + |b.rows| + |b.lines|
  }

  /** The source lines in the order in which the walk takes them. */
  function ClaimAt(b: Book, now: Seen, i: nat): Claim
    requires i < SourceCount(b)
  {
    if i == 0 then OrderClaim(b)
    else if i <= |b.rows| then ChargeClaim(b, now, i - 1)
    else CreditClaim(b, now, b.lines[i - 1 - |b.rows|])
  }

  function ClaimsOf(b: Book, now: Seen): (claims: seq<Claim>)
    ensures |claims| == SourceCount(b) && forall i | 0 <= i < |claims| :: claims[i] == ClaimAt(b, now, i)
  {
    seq(SourceCount(b), i requires 0 <= i < SourceCount(b) => ClaimAt(b, now, i))
  }

  function ChargeClaims(b: Book, now: Seen): (claims: seq<Claim>)
    ensures |claims| == |b.rows| && forall k | 0 <= k < |claims| :: claims[k] == ChargeClaim(b, now, k)
  {
    seq(|b.rows|, k requires 0 <= k < |b.rows| => ChargeClaim(b, now, k))
  }

  function CreditClaims(b: Book, now: Seen): (claims: seq<Claim>)
    ensures |claims| == |b.lines| && forall n | 0 <= n < |claims| :: claims[n] == CreditClaim(b, now, b.lines[n])
  {
    seq(|b.lines|, n requires 0 <= n < |b.lines| => CreditClaim(b, now, b.lines[n]))
  }

  lemma ClaimsInThree(b: Book, now: Seen)
    ensures ClaimsOf(b, now) == [OrderClaim(b)] + (ChargeClaims(b, now) + CreditClaims(b, now))
  {
    InThree(ClaimsOf(b, now), OrderClaim(b), ChargeClaims(b, now), CreditClaims(b, now));
  }

  // ----- The walk -----

  class CostLinker {
    var seen: Seen
    var records: Records

    constructor ()
      ensures seen == Seen({}, {}) && records == map[]
    {
      seen, records := Seen({}, {}), map[];
    }

    method Approve(invoice: string)
      modifies `seen
      ensures seen == old(seen).(approved := old(seen).approved + {invoice})
    {
      seen := seen.(approved := seen.approved + {invoice});
    }

    method Apply(note: string)
      modifies `seen
      ensures seen == old(seen).(applied := old(seen).applied + {note})
    {
      seen := seen.(applied := seen.applied + {note});
    }

    /** Handles one event in a transaction: all its assets, or nothing. */
    method Handle(b: Book, us: seq<Unit>) returns (done: bool)
      modifies `records
      ensures match RecordUnits(b.units, ClaimsOf(b, seen), old(records), us)
              case Some(so) => done && records == so
              case None => !done && records == old(records)
    {
      var before := records;
      ghost var step := UnitStep(b.units, ClaimsOf(b, seen));
      FoldWhole(step, before, us);
      for i := 0 to |us|
        invariant Fold(step, before, us[..i]) == Some(records)
      {
        FoldNext(step, before, us, i);
        done := HandleUnit(b, us[i]);
        if !done {
          FoldFails(step, before, us, i + 1);
          records := before;
          return;
        }
      }
      done := true;
    }

    /** One asset: what was ordered, what was invoiced, what was credited. */
    method HandleUnit(b: Book, u: Unit) returns (done: bool)
      modifies `records
      ensures RecordUnit(b.units, ClaimsOf(b, seen), old(records), u) == if done then Some(records) else None
    {
      ghost var step, charges, credits := ClaimStep(b.units, u), ChargeClaims(b, seen), CreditClaims(b, seen);
      UnitInThree(b, seen, u, step, records, charges, credits);
      done := HandleClaim(b, OrderClaim(b), u, step);
      if done {
        done := HandleAllocations(b, u, step, charges);
      }
      if done {
        done := HandleNotes(b, u, step, credits);
      }
    }

    /** The allocations in the order in which they were matched, with the offset of the next one. */
    method HandleAllocations(b: Book, u: Unit, ghost step: RecordStep, ghost charges: seq<Claim>) returns (done: bool)
      requires IsStep(step, b.units, u) && AreCharges(b, seen, charges)
      modifies `records
      ensures Fold(step, old(records), charges) == if done then Some(records) else None
    {
      ghost var before := records;
      FoldWhole(step, before, charges);
      var offset := 0;
      assert b.rows[..0] == [];
      for k := 0 to |b.rows|
        invariant offset == Taken(Visible(b.rows[..k], seen.approved), b.line)
        invariant Fold(step, before, charges[..k]) == Some(records)
      {
        FoldNext(step, before, charges, k);
        done, offset := HandleAllocation(b, k, u, offset, step, charges);
        if !done {
          FoldFails(step, before, charges, k + 1);
          return;
        }
      }
      done := true;
    }

    method HandleAllocation(b: Book, k: nat, u: Unit, offset: nat, ghost step: RecordStep, ghost charges: seq<Claim>)
      returns (done: bool, next: nat)
      requires IsStep(step, b.units, u) && AreCharges(b, seen, charges)
      requires k < |b.rows| && offset == Taken(Visible(b.rows[..k], seen.approved), b.line)
      modifies `records
      ensures step(old(records), charges[k]) == if done then Some(records) else None
      ensures next == Taken(Visible(b.rows[..k + 1], seen.approved), b.line)
    {
      var units;
      units, next := UnitsCharged(b, k, offset);
      done := HandleClaim(b, ChargeOn(b.rows[k], units), u, step);
    }

    method UnitsCharged(b: Book, k: nat, offset: nat) returns (units: seq<Unit>, next: nat)
      requires k < |b.rows| && offset == Taken(Visible(b.rows[..k], seen.approved), b.line)
      ensures units == ChargedUnits(b, seen, k)
      ensures next == Taken(Visible(b.rows[..k + 1], seen.approved), b.line)
    {
      var a := b.rows[k];
      NextOffset(b, seen.approved, k);
      units, next := [], offset;
      if a.invoice in seen.approved && a.line == Some(b.line) && Countable(a.quantity) {
        next := offset + Count(a.quantity);
        if next <= |b.units| {
          units := b.units[offset..next];
        }
      }
    }

    method HandleNotes(b: Book, u: Unit, ghost step: RecordStep, ghost credits: seq<Claim>) returns (done: bool)
      requires IsStep(step, b.units, u) && AreCredits(b, seen, credits)
      modifies `records
      ensures Fold(step, old(records), credits) == if done then Some(records) else None
    {
      ghost var before := records;
      FoldWhole(step, before, credits);
      for n := 0 to |b.lines|
        invariant Fold(step, before, credits[..n]) == Some(records)
      {
        FoldNext(step, before, credits, n);
        done := HandleNote(b, n, u, step, credits);
        if !done {
          FoldFails(step, before, credits, n + 1);
          return;
        }
      }
      done := true;
    }

    method HandleNote(b: Book, n: nat, u: Unit, ghost step: RecordStep, ghost credits: seq<Claim>) returns (done: bool)
      requires IsStep(step, b.units, u) && AreCredits(b, seen, credits) && n < |b.lines|
      modifies `records
      ensures step(old(records), credits[n]) == if done then Some(records) else None
    {
      var units := UnitsCredited(b, b.lines[n]);
      done := HandleClaim(b, CreditOn(b, b.lines[n], units), u, step);
    }

    method UnitsCredited(b: Book, l: NoteLine) returns (units: seq<Unit>)
      ensures units == CreditedUnits(b, seen, l)
    {
      units := [];
      if l.note in seen.applied {
        var credit := RecordCreditLine(LedgerOf(b, seen, l.note), l.releases, l.quantity, l.amount);
        if credit.Released? {
          units := credit.units;
        }
      }
    }

    /** `recordCostProvenance`: the capacity of the source line, and what is on record already. */
    method HandleClaim(b: Book, c: Claim, u: Unit, ghost step: RecordStep) returns (done: bool)
      requires IsStep(step, b.units, u)
      modifies `records
      ensures step(old(records), c) == if done then Some(records) else None
    {
      assert step(records, c) == Record(b.units, records, c, u);
      if u !in c.gives {
        return true;
      }
      var share, id := c.gives[u], Identity(c.source, u.id);
      if Weigh(b.units, records, c.source, Some(u.id), false) + share > c.amount {
        return false;
      }
      if (Weigh(b.units, records, c.source, Some(u.id), true) + 1) as real > c.quantity {
        return false;
      }
      if id in records {
        return records[id] == share;
      }
      records := records[id := share];
      return true;
    }
  }

  type RecordStep = (Records, Claim) -> Option<Records>

  /** The step records for the unit; only a mention of `Record` brings in what that does. */
  ghost predicate IsStep(step: RecordStep, units: seq<Unit>, u: Unit) {
    forall so, c {:trigger Record(units, so, c, u)} :: step(so, c) == Record(units, so, c, u)
  }

  /** What the allocations claim, in order. */
  ghost predicate AreCharges(b: Book, now: Seen, claims: seq<Claim>) {
    |claims| == |b.rows| && forall k {:trigger b.rows[k]} | 0 <= k < |b.rows| :: claims[k] == ChargeClaim(b, now, k)
  }

  /** What the credit note lines claim, in order. */
  ghost predicate AreCredits(b: Book, now: Seen, claims: seq<Claim>) {
    && |claims| == |b.lines|
    && forall n {:trigger b.lines[n]} | 0 <= n < |b.lines| :: claims[n] == CreditClaim(b, now, b.lines[n])
  }

  lemma UnitInThree(b: Book, now: Seen, u: Unit, step: RecordStep, before: Records, charges: seq<Claim>,
                    credits: seq<Claim>)
    requires step == ClaimStep(b.units, u) && charges == ChargeClaims(b, now) && credits == CreditClaims(b, now)
    ensures IsStep(step, b.units, u) && AreCharges(b, now, charges) && AreCredits(b, now, credits)
    ensures RecordUnit(b.units, ClaimsOf(b, now), before, u)
         == FoldOn(step, FoldOn(step, step(before, OrderClaim(b)), charges), credits)
  {
    ClaimsInThree(b, now);
    FoldInThree(step, before, OrderClaim(b), charges, credits);
  }

  lemma FoldInThree(step: RecordStep, before: Records, first: Claim, charges: seq<Claim>, credits: seq<Claim>)
    ensures Fold(step, before, [first] + (charges + credits))
         == FoldOn(step, FoldOn(step, step(before, first), charges), credits)
  {
    FoldConcat(step, before, [first], charges + credits);
    FoldSingle(step, before, first);
    if step(before, first).Some? {
      FoldConcat(step, step(before, first).value, charges, credits);
    }
  }

  lemma NextOffset(b: Book, approved: set<string>, k: nat)
    requires k < |b.rows|
    ensures Taken(Visible(b.rows[..k + 1], approved), b.line)
         == Taken(Visible(b.rows[..k], approved), b.line)
            + if b.rows[k].invoice in approved && Takes(b.rows[k], b.line) then Count(b.rows[k].quantity) else 0
  {
    TakenVisible(b.rows[..k + 1], b.line, approved);
    assert b.rows[..k + 1][..k] == b.rows[..k];
  }
}
