/** A receipt line over time: its allocations are matched in some order and become visible when their
    invoices are approved, in any other. Where an allocation stands on the line, and when it moves. */
module CostLines {
  import opened Wrappers
  import opened Sequences
  import opened CostSlices
  import opened CostAllocation

  /** What the walks see at one time: approved invoices and applied credit notes. Neither is ever
      taken back. */
  datatype Seen = Seen(approved: set<string>, applied: set<string>)

  predicate UpTo(before: Seen, now: Seen) {
    before.approved <= now.approved && before.applied <= now.applied
  }

  function IsApproved(approved: set<string>): Allocation -> bool {
    (a: Allocation) => a.invoice in approved
  }

  /** The allocations of approved invoices, in the order in which they were matched. */
  function Visible(rows: seq<Allocation>, approved: set<string>): seq<Allocation> {
    Filter(IsApproved(approved), rows)
  }

  /** How many units the visible allocations take that were matched before an allocation. */
  function Base(rows: seq<Allocation>, line: LineId, approved: set<string>, id: string): nat {
    Taken(Visible(rows[..IndexOf(rows, id)], approved), line)
  }

  predicate Takes(a: Allocation, line: LineId) {
    a.line == Some(line) && Countable(a.quantity)
  }

  // ----- Where a visible allocation stands -----

  lemma VisibleAt(rows: seq<Allocation>, approved: set<string>, k: nat)
    requires k < |rows| && rows[k].invoice in approved
    ensures var i := |Visible(rows[..k], approved)|;
            && i < |Visible(rows, approved)| && Visible(rows, approved)[i] == rows[k]
            && Visible(rows, approved)[..i] == Visible(rows[..k], approved)
  {
    var p := IsApproved(approved);
    assert rows == rows[..k] + ([rows[k]] + rows[k + 1..]);
    FilterConcat(p, rows[..k], [rows[k]] + rows[k + 1..]);
    FilterConcat(p, [rows[k]], rows[k + 1..]);
    assert [rows[k]][..0] == [];
    assert Filter(p, [rows[k]]) == [rows[k]];
  }

  lemma DistinctInit(rows: seq<Allocation>)
    requires rows != [] && DistinctAllocations(rows)
    ensures DistinctAllocations(rows[..|rows| - 1])
    ensures forall a | a in rows[..|rows| - 1] :: a in rows && a.id != rows[|rows| - 1].id
  {
    var n := |rows| - 1;
    assert forall i | 0 <= i < n :: rows[..n][i] == rows[i];
  }

  lemma {:induction false} VisibleDistinct(rows: seq<Allocation>, approved: set<string>)
    requires DistinctAllocations(rows)
    ensures DistinctAllocations(Visible(rows, approved))
  {
    if rows != [] {
      var n := |rows| - 1;
      DistinctInit(rows);
      VisibleDistinct(rows[..n], approved);
      FilterMembers(IsApproved(approved), rows[..n]);
      DistinctAppend(Visible(rows[..n], approved), rows[n]);
    }
  }

  lemma DistinctAppend(rows: seq<Allocation>, a: Allocation)
    requires DistinctAllocations(rows) && forall r | r in rows :: r.id != a.id
    ensures DistinctAllocations(rows + [a])
  {
  }

  lemma IndexIs(rows: seq<Allocation>, k: nat)
    requires k < |rows| && DistinctAllocations(rows)
    ensures IndexOf(rows, rows[k].id) == k
  {
  }

  /** The charging walk charges an allocation right behind its base. */
  lemma ChargedFromBase(rows: seq<Allocation>, line: LineId, approved: set<string>, units: seq<Unit>, k: nat)
    requires DistinctAllocations(rows) && k < |rows| && rows[k].invoice in approved && rows[k].line == Some(line)
    ensures var i := |Visible(rows[..k], approved)|;
            && i < |Visible(rows, approved)| && Visible(rows, approved)[i] == rows[k]
            && ChargeSlice(Visible(rows, approved), i, units)
               == if Countable(rows[k].quantity)
                     && Base(rows, line, approved, rows[k].id) + Count(rows[k].quantity) <= |units|
                  then Some(Slice(Base(rows, line, approved, rows[k].id), Count(rows[k].quantity))) else None
  {
    VisibleAt(rows, approved, k);
    IndexIs(rows, k);
  }

  lemma VisibleHas(rows: seq<Allocation>, approved: set<string>, a: Allocation) returns (k: nat)
    requires a in Visible(rows, approved)
    ensures k < |rows| && rows[k] == a && a.invoice in approved
  {
    FilterMembers(IsApproved(approved), rows);
    k :| 0 <= k < |rows| && rows[k] == a;
  }

  lemma OnLineAt(visible: seq<Allocation>, line: LineId, id: string) returns (a: Allocation)
    requires IndexOf(OfLine(visible, line), id) < |OfLine(visible, line)|
    ensures a in visible && a.line == Some(line) && a.id == id
  {
    a := OfLine(visible, line)[IndexOf(OfLine(visible, line), id)];
    OfLineMembers(visible, line);
    assert a in OfLine(visible, line);
  }

  /** A credited slice starts behind the base of its allocation and what was released before. */
  lemma CreditedFromBase(rows: seq<Allocation>, line: LineId, approved: set<string>, units: seq<Unit>, id: string,
                         prior: real)
    returns (k: nat)
    requires DistinctAllocations(rows)
    requires CreditSlice(OfLine(Visible(rows, approved), line), id, units, prior).Some?
    ensures k < |rows| && rows[k].id == id && rows[k].invoice in approved && Takes(rows[k], line)
    ensures SafeInteger(prior) && 0.0 <= prior < rows[k].quantity
    ensures Base(rows, line, approved, id) + Count(rows[k].quantity) <= |units|
    ensures CreditSlice(OfLine(Visible(rows, approved), line), id, units, prior)
         == Some(Slice(Base(rows, line, approved, id) + prior.Floor, Count(rows[k].quantity) - prior.Floor))
  {
    var visible := Visible(rows, approved);
    var a := OnLineAt(visible, line, id);
    k := VisibleHas(rows, approved, a);
    ChargedFromBase(rows, line, approved, units, k);
    VisibleDistinct(rows, approved);
    WalksAgree(visible, line, |Visible(rows[..k], approved)|, units, prior);
  }

  // ----- Approvals move allocations, and never back -----

  function UnitsTaken(a: Allocation, line: LineId): nat {
    if Takes(a, line) then Count(a.quantity) else 0
  }

  lemma TakenOneMore(rows: seq<Allocation>, line: LineId, a: Allocation)
    ensures Taken(rows + [a], line) == Taken(rows, line) + UnitsTaken(a, line)
  {
    assert (rows + [a])[..|rows|] == rows;
  }

  lemma TakenVisible(rows: seq<Allocation>, line: LineId, approved: set<string>)
    requires rows != []
    ensures var n := |rows| - 1;
            Taken(Visible(rows, approved), line)
            == Taken(Visible(rows[..n], approved), line)
               + if rows[n].invoice in approved then UnitsTaken(rows[n], line) else 0
  {
    var n := |rows| - 1;
    TakenOneMore(Visible(rows[..n], approved), line, rows[n]);
  }

  /** An allocation that takes units of the line was approved since. */
  ghost predicate TakenSince(rows: seq<Allocation>, line: LineId, before: set<string>, now: set<string>) {
    exists a | a in rows :: NewlyTakes(a, line, before, now)
  }

  predicate NewlyTakes(a: Allocation, line: LineId, before: set<string>, now: set<string>) {
    Takes(a, line) && a.invoice in now && a.invoice !in before
  }

  lemma TakenSinceOneMore(rows: seq<Allocation>, a: Allocation, line: LineId, before: set<string>, now: set<string>)
    ensures TakenSince(rows + [a], line, before, now)
       <==> TakenSince(rows, line, before, now) || NewlyTakes(a, line, before, now)
  {
    if x :| x in rows && NewlyTakes(x, line, before, now) {
      assert x in rows + [a];
    }
    if NewlyTakes(a, line, before, now) {
      assert a in rows + [a];
    }
  }

  lemma {:induction false} TakenGrowsWith(rows: seq<Allocation>, line: LineId, before: set<string>, now: set<string>)
    requires before <= now
    ensures Taken(Visible(rows, before), line) <= Taken(Visible(rows, now), line)
    ensures Taken(Visible(rows, before), line) == Taken(Visible(rows, now), line)
       <==> !TakenSince(rows, line, before, now)
  {
    if rows != [] {
      var n := |rows| - 1;
      TakenGrowsWith(rows[..n], line, before, now);
      TakenVisible(rows, line, before);
      TakenVisible(rows, line, now);
      TakenSinceOneMore(rows[..n], rows[n], line, before, now);
      assert rows == rows[..n] + [rows[n]];
    }
  }

  /** An allocation that was matched before this one was approved since, and takes units of the line. */
  ghost predicate Overtaken(rows: seq<Allocation>, line: LineId, before: set<string>, now: set<string>, id: string) {
    TakenSince(rows[..IndexOf(rows, id)], line, before, now)
  }

  /** Approvals only ever move an allocation on, and exactly those of earlier allocations do. */
  lemma BaseGrows(rows: seq<Allocation>, line: LineId, before: set<string>, now: set<string>, id: string)
    requires before <= now
    ensures Base(rows, line, before, id) <= Base(rows, line, now, id)
    ensures Base(rows, line, before, id) == Base(rows, line, now, id) <==> !Overtaken(rows, line, before, now, id)
  {
    TakenGrowsWith(rows[..IndexOf(rows, id)], line, before, now);
  }

  /** Visible allocations follow each other in the order in which they were matched. */
  lemma {:induction false} BaseOrder(rows: seq<Allocation>, line: LineId, approved: set<string>, k: nat, m: nat)
    requires k < m <= |rows| && rows[k].invoice in approved && Takes(rows[k], line)
    ensures Taken(Visible(rows[..k], approved), line) + Count(rows[k].quantity)
         <= Taken(Visible(rows[..m], approved), line)
    decreases m
  {
    TakenVisible(rows[..m], line, approved);
    assert rows[..m][..m - 1] == rows[..m - 1];
    if k < m - 1 {
      BaseOrder(rows, line, approved, k, m - 1);
    }
  }

  /** A place on the line that one visible allocation takes is taken by no other. */
  lemma PlaceIsOfOne(rows: seq<Allocation>, line: LineId, approved: set<string>, k: nat, m: nat, at: nat)
    requires DistinctAllocations(rows) && k < |rows| && m < |rows|
    requires rows[k].invoice in approved && Takes(rows[k], line) && rows[m].invoice in approved && Takes(rows[m], line)
    requires var base := Base(rows, line, approved, rows[k].id); base <= at < base + Count(rows[k].quantity)
    requires var base := Base(rows, line, approved, rows[m].id); base <= at < base + Count(rows[m].quantity)
    ensures k == m
  {
    IndexIs(rows, k);
    IndexIs(rows, m);
    if k < m {
      BaseOrder(rows, line, approved, k, m);
    } else if m < k {
      BaseOrder(rows, line, approved, m, k);
    }
  }
}
