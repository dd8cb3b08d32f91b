/** Approval evidence and command redelivery, both decided by comparing canonical texts. */
module Approvals {
  import opened Wrappers
  import opened JsonText
  import opened CanonicalJson

  datatype RequestState = Pending | Approved | Rejected | ChangesRequested | Expired | Cancelled

  /** A request joined with the actor of its latest approving decision. */
  datatype Request = Request(state: RequestState, requestedBy: Text, approvedBy: Option<Text>, context: Json)

  datatype Refusal = NotApproved | NotIndependent | NoEvidence | NotAttested(key: Text)

  function Lookup(fields: seq<Field>, key: Text): Option<Json> {
    if fields == [] then None
    else if fields[0].key == key then Some(fields[0].value)
    else Lookup(fields[1..], key)
  }

  /** The first expected entry whose canonical text differs from the recorded one; a missing
      entry has no text at all and differs from every text. */
  function FirstUnattested(context: seq<Field>, expected: seq<Field>): Option<Text> {
    if expected == [] then None
    else
      match Lookup(context, expected[0].key)
      case Some(recorded) =>
        if Print(CodeUnitLe, recorded) == Print(CodeUnitLe, expected[0].value)
        then FirstUnattested(context, expected[1..])
        else Some(expected[0].key)
      case None => Some(expected[0].key)
  }

  function AssertApproval(row: Option<Request>, expected: seq<Field>): Option<Refusal> {
    match row
    case None => Some(NotApproved)
    case Some(request) =>
      if request.state != Approved then Some(NotApproved)
      else if request.approvedBy == None || request.approvedBy == Some([])
              || request.approvedBy == Some(request.requestedBy) then Some(NotIndependent)
      else if !request.context.Object? then Some(NoEvidence)
      else
        match FirstUnattested(request.context.fields, expected)
        case Some(key) => Some(NotAttested(key))
        case None => None
  }

  /** The decision evidence records `key` with a value that means what the command says. */
  ghost predicate Records(context: Json, key: Text, value: Json) {
    && context.Object?
    && exists i | 0 <= i < |context.fields| ::
         context.fields[i].key == key && Mean(context.fields[i].value) == Mean(value)
  }

  ghost predicate Independent(request: Request) {
    request.approvedBy.Some? && request.approvedBy.value != [] && request.approvedBy.value != request.requestedBy
  }

  lemma {:induction false} LookupFinds(fields: seq<Field>, key: Text)
    requires DistinctKeys(fields)
    ensures Lookup(fields, key).Some? ==>
              exists i | 0 <= i < |fields| :: fields[i].key == key && Lookup(fields, key) == Some(fields[i].value)
    ensures forall i | 0 <= i < |fields| && fields[i].key == key :: Lookup(fields, key) == Some(fields[i].value)
  {
    if fields != [] && fields[0].key != key {
      LookupFinds(fields[1..], key);
      assert forall i | 1 <= i < |fields| :: fields[i] == fields[1..][i - 1];
    }
  }

  lemma {:induction false} UnattestedMeans(context: Json, expected: seq<Field>)
    requires context.Object? && WellFormed(context)
    requires forall i | 0 <= i < |expected| :: WellFormed(expected[i].value)
    ensures FirstUnattested(context.fields, expected) == None
       <==> forall i | 0 <= i < |expected| :: Records(context, expected[i].key, expected[i].value)
  {
    if expected != [] {
      var key, value := expected[0].key, expected[0].value;
      UnattestedMeans(context, expected[1..]);
      LookupFinds(context.fields, key);
      match Lookup(context.fields, key) {
        case None =>
        case Some(recorded) => CanonicalTextIsMeaning(recorded, value);
      }
      assert Records(context, key, value) <==>
             Lookup(context.fields, key).Some? && Mean(Lookup(context.fields, key).value) == Mean(value);
      assert forall i | 1 <= i < |expected| :: expected[i] == expected[1..][i - 1];
      assert forall i | 0 <= i < |expected[1..]| :: expected[1..][i] == expected[i + 1];
    }
  }

  /** An approval passes exactly when it is approved, by somebody else, on evidence that means
      what the command asks for, whatever the order of keys on either side. */
  lemma ApprovalComparesMeaning(row: Option<Request>, expected: seq<Field>)
    requires row.Some? ==> WellFormed(row.value.context)
    requires forall i | 0 <= i < |expected| :: WellFormed(expected[i].value)
    ensures AssertApproval(row, expected) == None
       <==> && row.Some?
            && row.value.state == Approved
            && row.value.approvedBy.Some? && row.value.approvedBy.value !in {[], row.value.requestedBy}
            && row.value.context.Object?
            && forall i | 0 <= i < |expected| :: Records(row.value.context, expected[i].key, expected[i].value)
  {
    if row.Some? && row.value.context.Object? {
      UnattestedMeans(row.value.context, expected);
    }
  }

  /** A refused approval says why: it is not approved, not independent, without an object of evidence, or
      the first entry is named that the evidence does not record as expected. */
  lemma RefusalExactly(request: Request, expected: seq<Field>)
    requires WellFormed(request.context) && forall i | 0 <= i < |expected| :: WellFormed(expected[i].value)
    ensures var refusal := AssertApproval(Some(request), expected);
            && AssertApproval(None, expected) == Some(NotApproved)
            && (refusal == Some(NotApproved) <==> request.state != Approved)
            && (refusal == Some(NotIndependent) <==> request.state == Approved && !Independent(request))
            && (refusal == Some(NoEvidence)
                <==> request.state == Approved && Independent(request) && !request.context.Object?)
            && (refusal.Some? && refusal.value.NotAttested? ==>
                  exists i | 0 <= i < |expected| ::
                    && expected[i].key == refusal.value.key
                    && FirstMissing(request.context, expected, i))
  {
    if request.context.Object? && FirstUnattested(request.context.fields, expected).Some? {
      var i := UnattestedIsFirst(request.context, expected);
    }
  }

  ghost predicate FirstMissing(context: Json, expected: seq<Field>, i: nat)
    requires i < |expected|
  {
    && !Records(context, expected[i].key, expected[i].value)
    && forall k | 0 <= k < i :: Records(context, expected[k].key, expected[k].value)
  }

  lemma {:induction false} UnattestedIsFirst(context: Json, expected: seq<Field>) returns (i: nat)
    requires context.Object? && WellFormed(context)
    requires forall k | 0 <= k < |expected| :: WellFormed(expected[k].value)
    requires FirstUnattested(context.fields, expected).Some?
    ensures i < |expected| && FirstMissing(context, expected, i)
    ensures FirstUnattested(context.fields, expected) == Some(expected[i].key)
  {
    UnattestedMeans(context, expected[..1]);
    assert expected[..1][1..] == [];
    if FirstUnattested(context.fields, expected[..1]) == None {
      var n := UnattestedIsFirst(context, expected[1..]);
      i := n + 1;
      assert forall k | 0 < k <= i :: expected[k] == expected[1..][k - 1];
    } else {
      i := 0;
    }
  }

  // ----- Redelivery of a dispatched command -----

  datatype Delivery = Delivery(dispatched: bool, command: Json)

  datatype ClaimResult = Nothing | Redelivered(command: Json) | Conflict

  /** What a claim answers when a delivery was recorded earlier with the hash `recorded`. */
  function Redeliver<Digest(==)>(hash: Text -> Digest, le: KeyOrder, delivery: Option<Delivery>,
                                 recorded: Digest): ClaimResult
  {
    match delivery
    case None => Conflict
    case Some(Delivery(dispatched, command)) =>
      if !dispatched then Nothing
      else if hash(Print(le, command)) != recorded then Conflict
      else Redelivered(command)
  }

  ghost predicate CollisionFree<Digest(!new)>(hash: Text -> Digest) {
    forall a, b :: hash(a) == hash(b) ==> a == b
  }

  /** A command is handed out again only if it still means what was first delivered, and conflicts
      otherwise; under an order that never ties equal meaning also suffices. Before it was dispatched
      there is nothing to hand out, and a hash without a delivery is a conflict. */
  lemma RedeliveryComparesMeaning<Digest(!new)>(hash: Text -> Digest, le: KeyOrder, first: Json, now: Json)
    requires CollisionFree(hash) && WellFormed(first) && WellFormed(now)
    ensures Redeliver(hash, le, Some(Delivery(true, now)), hash(Print(le, first))) == Redelivered(now)
        ==> Mean(now) == Mean(first)
    ensures Mean(now) != Mean(first)
        ==> Redeliver(hash, le, Some(Delivery(true, now)), hash(Print(le, first))) == Conflict
    ensures Redeliver(hash, le, Some(Delivery(false, now)), hash(Print(le, first))) == Nothing
    ensures Redeliver(hash, le, None, hash(Print(le, first))) == Conflict
    ensures Total(le) && Transitive(le) && Separates(le) && Mean(now) == Mean(first)
        ==> Redeliver(hash, le, Some(Delivery(true, now)), hash(Print(le, first))) == Redelivered(now)
  {
    if Print(le, now) == Print(le, first) {
      SameTextSameMeaning(le, now, first);
    }
    if Total(le) && Transitive(le) && Separates(le) && Mean(now) == Mean(first) {
      SameMeaningSameText(le, now, first);
    }
  }
}
