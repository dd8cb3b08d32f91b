/** A self-service session of knowledge recommendations: its commands, the guard that the database
    puts on its row, and what holds over every sequence of commands. */
module RecommendationSession {
  import opened Wrappers

  type Id = string

  datatype Outcome = NoRecommendation | Presented | NotHelpful | UserResolved | Escalated

  datatype Deflection = KnowledgeResolution | KnownIncident

  datatype Kind = ArticleSelected | Helpful | Unhelpful | IssueResolved | HandedOver

  datatype Operation = SelectOperation | FeedbackOperation | ConfirmOperation | EscalateOperation

  /** The key that an interaction is stored under: the operation and the caller's key. */
  datatype Key = Key(operation: Operation, text: string)

  datatype Interaction = Interaction(key: Key, item: Option<Id>, kind: Kind, ticket: Option<Id>)

  /** The row, its items and interactions, and what commands have emitted about it: tickets
      created, deflections confirmed, and resolutions reported after escalation. */
  datatype Session = Session(
    items: seq<Id>, rootIncident: bool,
    outcome: Outcome, ticket: Option<Id>, deflection: Option<Deflection>, version: int,
    resolvedAt: Option<int>, escalatedAt: Option<int>,
    interactions: seq<Interaction>, created: seq<Id>, confirmed: seq<Option<Deflection>>, reported: nat)

  datatype Error = NotFound | RuleViolation | VersionConflict | KeyConflict | TicketRefused

  datatype Action =
    | Select(item: Id, eligible: bool)
    | Feedback(item: Id, eligible: bool, helpful: bool)
    | Confirm
    | Escalate(newTicket: Option<Id>)

  /** A command that the idempotency store has let through. `elsewhere` holds the keys that its
      actor has used in other sessions. */
  datatype Command = Command(action: Action, mine: bool, expected: int, key: string, elsewhere: set<Key>, now: int)

  function Start(items: seq<Id>, rootIncident: bool, ticket: Option<Id>): Session {
    Session(items, rootIncident, if items == [] then NoRecommendation else Presented,
            ticket, None, 1, None, None, [], [], [], 0)
  }

  // ----- Interactions -----

  function FirstWith(interactions: seq<Interaction>, p: Interaction -> bool): (r: Option<Interaction>)
    ensures r.Some? ==> r.value in interactions && p(r.value)
    ensures r.None? ==> forall i | i in interactions :: !p(i)
  {
    if interactions == [] then None
    else if p(interactions[0]) then Some(interactions[0])
    else FirstWith(interactions[1..], p)
  }

  /** The hashed content of an interaction; the key is not part of it. */
  predicate SameContent(a: Interaction, b: Interaction) {
    a.item == b.item && a.kind == b.kind && a.ticket == b.ticket
  }

  /** Either the session with the interaction appended, or the session as it is and `replayed`. */
  function Append(s: Session, elsewhere: set<Key>, i: Interaction): Result<(Session, bool), Error> {
    match FirstWith(s.interactions, (other: Interaction) => other.key == i.key)
    case Some(prior) => if SameContent(prior, i) then Ok((s, true)) else Err(KeyConflict)
    case None =>
      if i.key in elsewhere then Err(KeyConflict)
      else
        var resolved := FirstWith(s.interactions, (other: Interaction) => other.kind == IssueResolved);
        match if i.kind == IssueResolved then resolved else None
        case Some(prior) => if SameContent(prior, i) then Ok((s, true)) else Err(KeyConflict)
        case None => Ok((s.(interactions := s.interactions + [i]), false))
  }

  // ----- Commands -----

  predicate Terminal(o: Outcome) {
    o == UserResolved || o == Escalated
  }

  function Transition(s: Session, expected: int, outcome: Outcome, deflection: Option<Deflection>, ticket: Option<Id>,
                      now: int)
    : Result<Session, Error>
  {
    if s.version != expected then Err(VersionConflict)
    else if Terminal(s.outcome) then Err(RuleViolation)
    else
      Ok(s.(outcome := outcome, deflection := deflection, ticket := if ticket.Some? then ticket else s.ticket,
            resolvedAt := if outcome == UserResolved then Some(now) else None,
            escalatedAt := if outcome == Escalated then Some(now) else None, version := expected + 1))
  }

  function Selecting(s: Session, c: Command, item: Id): Result<Session, Error> {
    if !(s.outcome in {Presented, NotHelpful}) then Err(RuleViolation)
    else
      match Append(s, c.elsewhere, Interaction(Key(SelectOperation, c.key), Some(item), ArticleSelected, None))
      case Err(e) => Err(e)
      case Ok((next, _)) => Ok(next)
  }

  function GivingFeedback(s: Session, c: Command, item: Id, helpful: bool): Result<Session, Error> {
    if Terminal(s.outcome) then Err(RuleViolation)
    else
      match if helpful then Ok(s) else Transition(s, c.expected, NotHelpful, None, None, c.now)
      case Err(e) => Err(e)
      case Ok(moved) =>
        var kind := if helpful then Helpful else Unhelpful;
        match Append(moved, c.elsewhere, Interaction(Key(FeedbackOperation, c.key), Some(item), kind, None))
        case Err(e) => Err(e)
        case Ok((next, _)) => Ok(next)
  }

  function Confirming(s: Session, c: Command): Result<Session, Error> {
    if s.outcome == UserResolved then Ok(s)
    else if s.items == [] then Err(RuleViolation)
    else
      match Append(s, c.elsewhere, Interaction(Key(ConfirmOperation, c.key), None, IssueResolved, None))
      case Err(e) => Err(e)
      case Ok((told, replayed)) =>
        if s.outcome == Escalated then Ok(if replayed then told else told.(reported := told.reported + 1))
        else
          var kind := if s.rootIncident then KnownIncident else KnowledgeResolution;
          var deflection := if s.ticket.Some? then None else Some(kind);
          match Transition(told, c.expected, UserResolved, deflection, None, c.now)
          case Err(e) => Err(e)
          case Ok(moved) => Ok(moved.(confirmed := moved.confirmed + [deflection]))
  }

  function Escalating(s: Session, c: Command, newTicket: Option<Id>): Result<Session, Error> {
    if s.outcome == Escalated then Ok(s)
    else if s.outcome == UserResolved then Err(RuleViolation)
    else if s.ticket == None && newTicket == None then Err(TicketRefused)
    else
      var ticket := if s.ticket.Some? then s.ticket.value else newTicket.value;
      var handed := if s.ticket.Some? then s else s.(created := s.created + [ticket]);
      match Append(handed, c.elsewhere, Interaction(Key(EscalateOperation, c.key), None, HandedOver, Some(ticket)))
      case Err(e) => Err(e)
      case Ok((told, _)) => Transition(told, c.expected, Escalated, None, Some(ticket), c.now)
  }

  function Execute(s: Session, c: Command): Result<Session, Error> {
    if !c.mine then Err(NotFound)
    else if s.version != c.expected then Err(VersionConflict)
    else
      match c.action
      case Select(item, eligible) =>
        if item !in s.items || !eligible then Err(NotFound) else Selecting(s, c, item)
      case Feedback(item, eligible, helpful) =>
        if item !in s.items || !eligible then Err(NotFound) else GivingFeedback(s, c, item, helpful)
      case Confirm => Confirming(s, c)
      case Escalate(newTicket) => Escalating(s, c, newTicket)
  }

  /** The row and its log, updated in place by one command and rolled back if it is refused. */
  class SessionStore {
    var session: Session

    constructor (items: seq<Id>, rootIncident: bool, ticket: Option<Id>)
      ensures session == Start(items, rootIncident, ticket)
    {
      session := Start(items, rootIncident, ticket);
    }

    method AppendInteraction(elsewhere: set<Key>, i: Interaction) returns (result: Result<bool, Error>)
      modifies this
      ensures match Append(old(session), elsewhere, i)
              case Ok((next, replayed)) => result == Ok(replayed) && session == next
              case Err(e) => result == Err(e) && session == old(session)
    {
      var prior := FirstWith(session.interactions, (other: Interaction) => other.key == i.key);
      if prior.Some? {
        return if SameContent(prior.value, i) then Ok(true) else Err(KeyConflict);
      }
      if i.key in elsewhere {
        return Err(KeyConflict);
      }
      if i.kind == IssueResolved {
        prior := FirstWith(session.interactions, (other: Interaction) => other.kind == IssueResolved);
        if prior.Some? {
          return if SameContent(prior.value, i) then Ok(true) else Err(KeyConflict);
        }
      }
      session := session.(interactions := session.interactions + [i]);
      return Ok(false);
    }

    method TransitionSession(expected: int, outcome: Outcome, deflection: Option<Deflection>, ticket: Option<Id>,
                             now: int)
      returns (error: Option<Error>)
      modifies this
      ensures match Transition(old(session), expected, outcome, deflection, ticket, now)
              case Ok(next) => error == None && session == next
              case Err(e) => error == Some(e) && session == old(session)
    {
      if session.version != expected {
        return Some(VersionConflict);
      }
      if session.outcome == UserResolved || session.outcome == Escalated {
        return Some(RuleViolation);
      }
      if ticket.Some? {
        session := session.(ticket := ticket);
      }
      session := session.(outcome := outcome, deflection := deflection, version := expected + 1);
      session := session.(resolvedAt := if outcome == UserResolved then Some(now) else None,
                          escalatedAt := if outcome == Escalated then Some(now) else None);
      return None;
    }

    method Run(c: Command) returns (error: Option<Error>)
      modifies this
      ensures match Execute(old(session), c)
              case Ok(next) => error == None && session == next
              case Err(e) => error == Some(e) && session == old(session)
    {
      if !c.mine {
        return Some(NotFound);
      }
      if session.version != c.expected {
        return Some(VersionConflict);
      }
      var before := session;
      match c.action {
        case Select(item, eligible) =>
          if item !in session.items || !eligible {
            return Some(NotFound);
          }
          if !(session.outcome in {Presented, NotHelpful}) {
            return Some(RuleViolation);
          }
          var i := Interaction(Key(SelectOperation, c.key), Some(item), ArticleSelected, None);
          var told := AppendInteraction(c.elsewhere, i);
          return if told.Err? then Some(told.error) else None;
        case Feedback(item, eligible, helpful) =>
          if item !in session.items || !eligible {
            return Some(NotFound);
          }
          if session.outcome in {UserResolved, Escalated} {
            return Some(RuleViolation);
          }
          if !helpful {
            error := TransitionSession(c.expected, NotHelpful, None, None, c.now);
            if error.Some? {
              return;
            }
          }
          var kind := if helpful then Helpful else Unhelpful;
          var i := Interaction(Key(FeedbackOperation, c.key), Some(item), kind, None);
          var told := AppendInteraction(c.elsewhere, i);
          if told.Err? {
            session := before;
            return Some(told.error);
          }
          return None;
        case Confirm =>
          error := RunConfirm(c);
        case Escalate(newTicket) =>
          error := RunEscalate(c, newTicket);
      }
    }

    method RunConfirm(c: Command) returns (error: Option<Error>)
      modifies this
      ensures match Confirming(old(session), c)
              case Ok(next) => error == None && session == next
              case Err(e) => error == Some(e) && session == old(session)
    {
      if session.outcome == UserResolved {
        return None;
      }
      if session.items == [] {
        return Some(RuleViolation);
      }
      var before := session;
      var told := AppendInteraction(c.elsewhere, Interaction(Key(ConfirmOperation, c.key), None, IssueResolved, None));
      if told.Err? {
        return Some(told.error);
      }
      if session.outcome == Escalated {
        if !told.value {
          session := session.(reported := session.reported + 1);
        }
        return None;
      }
      var kind := if session.rootIncident then KnownIncident else KnowledgeResolution;
      var deflection := if session.ticket.Some? then None else Some(kind);
      error := TransitionSession(c.expected, UserResolved, deflection, None, c.now);
      if error.Some? {
        session := before;
        return;
      }
      session := session.(confirmed := session.confirmed + [deflection]);
    }

    method RunEscalate(c: Command, newTicket: Option<Id>) returns (error: Option<Error>)
      modifies this
      ensures match Escalating(old(session), c, newTicket)
              case Ok(next) => error == None && session == next
              case Err(e) => error == Some(e) && session == old(session)
    {
      if session.outcome == Escalated {
        return None;
      }
      if session.outcome == UserResolved {
        return Some(RuleViolation);
      }
      var before, ticket := session, session.ticket;
      if ticket == None {
        if newTicket == None {
          return Some(TicketRefused);
        }
        ticket := newTicket;
        session := session.(created := session.created + [ticket.value]);
      }
      var told := AppendInteraction(c.elsewhere, Interaction(Key(EscalateOperation, c.key), None, HandedOver, ticket));
      if told.Err? {
        session := before;
        return Some(told.error);
      }
      error := TransitionSession(c.expected, Escalated, None, ticket, c.now);
      if error.Some? {
        session := before;
      }
    }
  }

  // ----- The database guard -----

  /** CHECK constraints of the session table. */
  predicate Checked(s: Session) {
    && s.version > 0
    && (s.resolvedAt.Some? <==> s.outcome == UserResolved)
    && (s.escalatedAt.Some? <==> s.outcome == Escalated)
    && (s.deflection.Some? ==> s.outcome == UserResolved && s.ticket == None)
  }

  /** The trigger on updates of the session row. */
  predicate Guarded(was: Session, now: Session) {
    && now.rootIncident == was.rootIncident && now.items == was.items
    && (was.ticket.Some? ==> now.ticket == was.ticket)
    && (now.ticket != was.ticket ==> now.outcome == Escalated)
    && (was.resolvedAt.Some? ==> now.resolvedAt == was.resolvedAt)
    && (was.escalatedAt.Some? ==> now.escalatedAt == was.escalatedAt)
    && now.version == was.version + 1
    && (now.outcome != was.outcome ==> now.outcome in Onward(was.outcome))
  }

  function Onward(o: Outcome): set<Outcome> {
    match o
    case Presented => {NotHelpful, UserResolved, Escalated}
    case NotHelpful => {UserResolved, Escalated}
    case NoRecommendation => {Escalated}
    case _ => {}
  }

  /** The columns of the row itself. */
  predicate SameRow(a: Session, b: Session) {
    && a.outcome == b.outcome && a.ticket == b.ticket && a.deflection == b.deflection && a.version == b.version
    && a.resolvedAt == b.resolvedAt && a.escalatedAt == b.escalatedAt && a.items == b.items
       && a.rootIncident == b.rootIncident
  }

  // ----- Every sequence of commands -----

  function After(s: Session, c: Command): Session {
    match Execute(s, c)
    case Ok(next) => next
    case Err(_) => s
  }

  function AfterAll(s: Session, commands: seq<Command>): Session {
    if commands == [] then s else After(AfterAll(s, commands[..|commands| - 1]), commands[|commands| - 1])
  }

  function Resolutions(interactions: seq<Interaction>): nat {
    if interactions == [] then 0
    else
      var n := |interactions| - 1;
      Resolutions(interactions[..n]) + if interactions[n].kind == IssueResolved then 1 else 0
  }

  /** How everything in a session follows from its outcome and from what it started with. */
  ghost predicate Inv(start: Session, s: Session) {
    && Checked(s)
    && s.items == start.items && s.rootIncident == start.rootIncident
    && (s.items == [] ==> s.outcome == NoRecommendation || s.outcome == Escalated)
    && (s.outcome == NoRecommendation ==> s.items == [])
    && s.deflection == (if s.outcome == UserResolved && start.ticket == None
                        then Some(if s.rootIncident then KnownIncident else KnowledgeResolution) else None)
    && s.confirmed == (if s.outcome == UserResolved then [s.deflection] else [])
    && (if s.outcome == Escalated && start.ticket == None then s.ticket.Some? && s.created == [s.ticket.value]
        else s.ticket == start.ticket && s.created == [])
    && (s.outcome == Escalated ==> s.ticket.Some?)
    && (forall i | i in s.interactions && i.kind == IssueResolved :: i.item == None && i.ticket == None)
    && Resolutions(s.interactions)
       == (if s.outcome == UserResolved then 1 else if s.outcome == Escalated then s.reported else 0)
    && s.reported <= (if s.outcome == Escalated then 1 else 0)
  }

  lemma {:induction false} NoResolution(interactions: seq<Interaction>)
    ensures Resolutions(interactions) == 0 <==> forall i | i in interactions :: i.kind != IssueResolved
  {
    if interactions != [] {
      var n := |interactions| - 1;
      NoResolution(interactions[..n]);
      assert interactions == interactions[..n] + [interactions[n]];
    }
  }

  lemma AppendCounts(s: Session, elsewhere: set<Key>, i: Interaction)
    requires forall k | k in s.interactions && k.kind == IssueResolved :: k.item == None && k.ticket == None
    requires i.kind == IssueResolved ==> i.item == None && i.ticket == None
    requires Append(s, elsewhere, i).Ok?
    ensures var (next, replayed) := Append(s, elsewhere, i).value;
            && next == s.(interactions := next.interactions)
            && (forall k | k in next.interactions && k.kind == IssueResolved :: k.item == None && k.ticket == None)
            && Resolutions(next.interactions)
               == Resolutions(s.interactions) + (if i.kind == IssueResolved && !replayed then 1 else 0)
            && (i.kind == IssueResolved ==> (replayed <==> Resolutions(s.interactions) > 0))
  {
    var (next, replayed) := Append(s, elsewhere, i).value;
    NoResolution(s.interactions);
    if !replayed {
      assert next.interactions[..|s.interactions|] == s.interactions;
    }
  }

  lemma SelectingKeeps(start: Session, s: Session, c: Command, item: Id)
    requires Inv(start, s) && Selecting(s, c, item).Ok?
    ensures Inv(start, Selecting(s, c, item).value)
  {
    AppendCounts(s, c.elsewhere, Interaction(Key(SelectOperation, c.key), Some(item), ArticleSelected, None));
  }

  lemma FeedbackKeeps(start: Session, s: Session, c: Command, item: Id, helpful: bool)
    requires Inv(start, s) && item in s.items && GivingFeedback(s, c, item, helpful).Ok?
    ensures Inv(start, GivingFeedback(s, c, item, helpful).value)
  {
    var moved := if helpful then s else Transition(s, c.expected, NotHelpful, None, None, c.now).value;
    AppendCounts(moved, c.elsewhere,
                 Interaction(Key(FeedbackOperation, c.key), Some(item), if helpful then Helpful else Unhelpful, None));
  }

  lemma ConfirmingKeeps(start: Session, s: Session, c: Command)
    requires Inv(start, s) && Confirming(s, c).Ok?
    ensures Inv(start, Confirming(s, c).value)
  {
    if s.outcome != UserResolved {
      AppendCounts(s, c.elsewhere, Interaction(Key(ConfirmOperation, c.key), None, IssueResolved, None));
    }
  }

  lemma EscalatingKeeps(start: Session, s: Session, c: Command, newTicket: Option<Id>)
    requires Inv(start, s) && Escalating(s, c, newTicket).Ok?
    ensures Inv(start, Escalating(s, c, newTicket).value)
  {
    if s.outcome != Escalated {
      var ticket := if s.ticket.Some? then s.ticket.value else newTicket.value;
      var handed := if s.ticket.Some? then s else s.(created := s.created + [ticket]);
      AppendCounts(handed, c.elsewhere, Interaction(Key(EscalateOperation, c.key), None, HandedOver, Some(ticket)));
    }
  }

  lemma CommandKeeps(start: Session, s: Session, c: Command)
    requires Inv(start, s)
    ensures Inv(start, After(s, c))
  {
    if Execute(s, c).Ok? {
      match c.action
      case Select(item, _) => SelectingKeeps(start, s, c, item);
      case Feedback(item, _, helpful) => FeedbackKeeps(start, s, c, item, helpful);
      case Confirm => ConfirmingKeeps(start, s, c);
      case Escalate(newTicket) => EscalatingKeeps(start, s, c, newTicket);
    }
  }

  /** Over every sequence of commands: at most one ticket is created and at most one deflection
      confirmed, never both, and both are settled by the outcome and the ticket at the start. */
  lemma {:induction false} SessionsSettle(items: seq<Id>, rootIncident: bool, ticket: Option<Id>,
                                          commands: seq<Command>)
    ensures Inv(Start(items, rootIncident, ticket), AfterAll(Start(items, rootIncident, ticket), commands))
  {
    if commands != [] {
      var before := commands[..|commands| - 1];
      SessionsSettle(items, rootIncident, ticket, before);
      CommandKeeps(Start(items, rootIncident, ticket), AfterAll(Start(items, rootIncident, ticket), before),
                   commands[|commands| - 1]);
    }
  }

  /** The consequences in words: tickets, deflections and resolutions, after any commands. */
  lemma TicketOrDeflection(items: seq<Id>, rootIncident: bool, ticket: Option<Id>, commands: seq<Command>)
    ensures var s := AfterAll(Start(items, rootIncident, ticket), commands);
            && |s.created| + |s.confirmed| <= 1
            && (|s.created| == 1 <==> s.outcome == Escalated && ticket == None)
            && (|s.confirmed| == 1 <==> s.outcome == UserResolved)
            && !(s.deflection.Some? && s.ticket.Some?)
            && (s.deflection.Some? <==> s.outcome == UserResolved && ticket == None)
            && (s.outcome == UserResolved ==> items != [])
            && Resolutions(s.interactions) <= 1
  {
    SessionsSettle(items, rootIncident, ticket, commands);
  }

  lemma TerminalRests(s: Session, c: Command)
    requires Terminal(s.outcome)
    ensures SameRow(After(s, c), s) && After(s, c).created == s.created && After(s, c).confirmed == s.confirmed
  {
  }

  /** A terminal session keeps its row for good. */
  lemma {:induction false} TerminalIsAbsorbing(s: Session, commands: seq<Command>)
    requires Terminal(s.outcome)
    ensures SameRow(AfterAll(s, commands), s)
    ensures AfterAll(s, commands).created == s.created && AfterAll(s, commands).confirmed == s.confirmed
  {
    if commands != [] {
      TerminalIsAbsorbing(s, commands[..|commands| - 1]);
      TerminalRests(AfterAll(s, commands[..|commands| - 1]), commands[|commands| - 1]);
    }
  }

  predicate RowMoves(s: Session, next: Session) {
    SameRow(next, s) || Guarded(s, next)
  }

  lemma FeedbackMoves(start: Session, s: Session, c: Command, item: Id, helpful: bool)
    requires Inv(start, s) && s.version == c.expected && item in s.items && GivingFeedback(s, c, item, helpful).Ok?
    ensures RowMoves(s, GivingFeedback(s, c, item, helpful).value)
  {
  }

  lemma ConfirmingMoves(start: Session, s: Session, c: Command)
    requires Inv(start, s) && s.version == c.expected && Confirming(s, c).Ok?
    ensures RowMoves(s, Confirming(s, c).value)
  {
  }

  lemma EscalatingMoves(start: Session, s: Session, c: Command, newTicket: Option<Id>)
    requires Inv(start, s) && s.version == c.expected && Escalating(s, c, newTicket).Ok?
    ensures RowMoves(s, Escalating(s, c, newTicket).value)
  {
  }

  lemma CommandMoves(start: Session, s: Session, c: Command)
    requires Inv(start, s)
    ensures RowMoves(s, After(s, c))
  {
    if Execute(s, c).Ok? {
      match c.action
      case Select(_, _) =>
      case Feedback(item, _, helpful) => FeedbackMoves(start, s, c, item, helpful);
      case Confirm => ConfirmingMoves(start, s, c);
      case Escalate(newTicket) => EscalatingMoves(start, s, c, newTicket);
    }
  }

  /** Every change that a command makes to the row passes the database's guard and checks, so
      neither ever refuses a command. */
  lemma GuardNeverFires(items: seq<Id>, rootIncident: bool, ticket: Option<Id>, commands: seq<Command>, c: Command)
    ensures var s := AfterAll(Start(items, rootIncident, ticket), commands);
            Checked(After(s, c)) && RowMoves(s, After(s, c))
  {
    var start := Start(items, rootIncident, ticket);
    SessionsSettle(items, rootIncident, ticket, commands);
    CommandKeeps(start, AfterAll(start, commands), c);
    CommandMoves(start, AfterAll(start, commands), c);
  }

  // ----- What each command does, and when -----

  /** A key tells its interaction. */
  ghost predicate KeysTell(s: Session) {
    forall a, b | a in s.interactions && b in s.interactions && a.key == b.key :: a == b
  }

  /** The interaction is one of this session already, or its actor has not used the key for anything. */
  ghost predicate Tellable(s: Session, elsewhere: set<Key>, i: Interaction) {
    i in s.interactions || (i.key !in elsewhere && forall k | k in s.interactions :: k.key != i.key)
  }

  /** Told again it changes nothing, told first it is appended. */
  function Noted(s: Session, i: Interaction): seq<Interaction> {
    if i in s.interactions then s.interactions else s.interactions + [i]
  }

  lemma TellsExactly(s: Session, elsewhere: set<Key>, i: Interaction)
    requires KeysTell(s) && i.kind != IssueResolved
    ensures Append(s, elsewhere, i).Ok? <==> Tellable(s, elsewhere, i)
    ensures Append(s, elsewhere, i)
         == if Tellable(s, elsewhere, i) then Ok((s.(interactions := Noted(s, i)), i in s.interactions))
            else Err(KeyConflict)
  {
    assert s == s.(interactions := s.interactions);
  }

  /** A resolution is told once, by whatever key. */
  lemma TellsResolution(s: Session, elsewhere: set<Key>, i: Interaction)
    requires KeysTell(s) && i.kind == IssueResolved && i.item == None && i.ticket == None
    requires forall k | k in s.interactions && k.kind == IssueResolved :: k.item == None && k.ticket == None
    ensures var before := Resolutions(s.interactions) > 0;
            Append(s, elsewhere, i)
            == if !Tellable(s, elsewhere, i) then Err(KeyConflict)
               else if before then Ok((s, true)) else Ok((s.(interactions := s.interactions + [i]), false))
  {
    NoResolution(s.interactions);
  }

  lemma NotedTells(s: Session, elsewhere: set<Key>, i: Interaction)
    requires KeysTell(s) && Append(s, elsewhere, i).Ok?
    ensures KeysTell(Append(s, elsewhere, i).value.0)
  {
  }

  lemma CommandTells(s: Session, c: Command)
    requires KeysTell(s)
    ensures KeysTell(After(s, c))
  {
    if Execute(s, c).Ok? {
      match c.action
      case Select(item, _) =>
        NotedTells(s, c.elsewhere, Interaction(Key(SelectOperation, c.key), Some(item), ArticleSelected, None));
      case Feedback(item, _, helpful) =>
        var moved := if helpful then s else Transition(s, c.expected, NotHelpful, None, None, c.now).value;
        var kind := if helpful then Helpful else Unhelpful;
        NotedTells(moved, c.elsewhere, Interaction(Key(FeedbackOperation, c.key), Some(item), kind, None));
      case Confirm =>
        if s.outcome != UserResolved {
          NotedTells(s, c.elsewhere, Interaction(Key(ConfirmOperation, c.key), None, IssueResolved, None));
        }
      case Escalate(newTicket) =>
        if s.outcome != Escalated {
          var ticket := if s.ticket.Some? then s.ticket.value else newTicket.value;
          var handed := if s.ticket.Some? then s else s.(created := s.created + [ticket]);
          NotedTells(handed, c.elsewhere,
                     Interaction(Key(EscalateOperation, c.key), None, HandedOver, Some(ticket)));
        }
    }
  }

  lemma {:induction false} KeysAlwaysTell(s: Session, commands: seq<Command>)
    requires KeysTell(s)
    ensures KeysTell(AfterAll(s, commands))
  {
    if commands != [] {
      KeysAlwaysTell(s, commands[..|commands| - 1]);
      CommandTells(AfterAll(s, commands[..|commands| - 1]), commands[|commands| - 1]);
    }
  }

  /** A session in some state that commands can lead to from its start. */
  ghost predicate Reached(start: Session, s: Session) {
    && start == Start(start.items, start.rootIncident, start.ticket)
    && exists commands :: s == AfterAll(start, commands)
  }

  lemma ReachedIsSound(start: Session, s: Session)
    requires Reached(start, s)
    ensures Inv(start, s) && KeysTell(s)
  {
    var commands :| s == AfterAll(start, commands);
    SessionsSettle(start.items, start.rootIncident, start.ticket, commands);
    KeysAlwaysTell(start, commands);
  }

  /** The command is its owner's, and about the version that is current. */
  predicate Current(s: Session, c: Command) {
    c.mine && c.expected == s.version
  }

  /** A selection is taken exactly for an eligible item while articles are on offer; it changes nothing
      but the interactions. */
  lemma SelectsExactly(start: Session, s: Session, c: Command)
    requires Reached(start, s) && c.action.Select?
    ensures var i := Interaction(Key(SelectOperation, c.key), Some(c.action.item), ArticleSelected, None);
            var open := && Current(s, c) && c.action.item in s.items && c.action.eligible
                        && s.outcome in {Presented, NotHelpful};
            && (Execute(s, c).Ok? <==> open && Tellable(s, c.elsewhere, i))
            && (Execute(s, c) == Err(KeyConflict) <==> open && !Tellable(s, c.elsewhere, i))
            && (Execute(s, c).Ok? ==> Execute(s, c).value == s.(interactions := Noted(s, i)))
  {
    ReachedIsSound(start, s);
    TellsExactly(s, c.elsewhere, Interaction(Key(SelectOperation, c.key), Some(c.action.item), ArticleSelected, None));
  }

  /** Feedback is taken exactly for an eligible item of a session that is still open. Helpful feedback
      keeps the row; unhelpful feedback makes it NOT_HELPFUL at the next version. */
  lemma FeedbackExactly(start: Session, s: Session, c: Command)
    requires Reached(start, s) && c.action.Feedback?
    ensures var kind := if c.action.helpful then Helpful else Unhelpful;
            var i := Interaction(Key(FeedbackOperation, c.key), Some(c.action.item), kind, None);
            var open := && Current(s, c) && c.action.item in s.items && c.action.eligible
                        && s.outcome in {Presented, NotHelpful};
            && (Execute(s, c).Ok? <==> open && Tellable(s, c.elsewhere, i))
            && (Execute(s, c) == Err(KeyConflict) <==> open && !Tellable(s, c.elsewhere, i))
            && (Execute(s, c).Ok? ==>
                  Execute(s, c).value == if c.action.helpful then s.(interactions := Noted(s, i))
                                         else s.(interactions := Noted(s, i), outcome := NotHelpful,
                                                 version := s.version + 1))
  {
    ReachedIsSound(start, s);
    var kind := if c.action.helpful then Helpful else Unhelpful;
    var i := Interaction(Key(FeedbackOperation, c.key), Some(c.action.item), kind, None);
    var moved := s.(outcome := NotHelpful, version := s.version + 1);
    TellsExactly(if c.action.helpful then s else moved, c.elsewhere, i);
  }

  /** A resolution is confirmed exactly for a session with items, or one that is resolved already. An
      open session becomes resolved at the next version, and its deflection is of its kind unless it
      began with a ticket; a session handed over reports its resolution once and keeps its row. */
  lemma ConfirmsExactly(start: Session, s: Session, c: Command)
    requires Reached(start, s) && c.action.Confirm?
    ensures var i := Interaction(Key(ConfirmOperation, c.key), None, IssueResolved, None);
            && (Execute(s, c).Ok? <==> && Current(s, c)
                                       && (s.outcome == UserResolved
                                           || (s.items != [] && Tellable(s, c.elsewhere, i))))
            && (Execute(s, c) == Err(KeyConflict)
                <==> Current(s, c) && s.outcome != UserResolved && s.items != [] && !Tellable(s, c.elsewhere, i))
            && (Execute(s, c).Ok? ==>
                  var next := Execute(s, c).value;
                  if s.outcome == UserResolved || s.reported > 0 then next == s
                  else if s.outcome == Escalated then
                    next == s.(interactions := s.interactions + [i], reported := 1)
                  else
                    && next == s.(interactions := s.interactions + [i], outcome := UserResolved,
                                  version := s.version + 1, resolvedAt := Some(c.now), deflection := next.deflection,
                                  confirmed := [next.deflection])
                    && next.deflection == if s.ticket.Some? then None
                                          else Some(if s.rootIncident then KnownIncident else KnowledgeResolution))
  {
    ReachedIsSound(start, s);
    var i := Interaction(Key(ConfirmOperation, c.key), None, IssueResolved, None);
    TellsResolution(s, c.elsewhere, i);
  }

  /** An escalation goes through exactly if the session is handed over already, which changes nothing, or
      is open with a ticket to hand over to; that ticket is the session's own or else the new one. */
  lemma EscalatesExactly(start: Session, s: Session, c: Command)
    requires Reached(start, s) && c.action.Escalate?
    ensures var ticket := if s.ticket.Some? then s.ticket else c.action.newTicket;
            var i := Interaction(Key(EscalateOperation, c.key), None, HandedOver, ticket);
            && (Execute(s, c).Ok? <==> && Current(s, c)
                                       && (s.outcome == Escalated
                                           || (s.outcome != UserResolved && ticket.Some?
                                               && Tellable(s, c.elsewhere, i))))
            && (Execute(s, c) == Err(KeyConflict)
                <==> Current(s, c) && !Terminal(s.outcome) && ticket.Some? && !Tellable(s, c.elsewhere, i))
            && (Execute(s, c).Ok? ==>
                  Execute(s, c).value
                  == if s.outcome == Escalated then s
                     else s.(interactions := Noted(s, i), outcome := Escalated, version := s.version + 1,
                             escalatedAt := Some(c.now), ticket := ticket,
                             created := if s.ticket.Some? then [] else [ticket.value]))
  {
    ReachedIsSound(start, s);
    var ticket := if s.ticket.Some? then s.ticket else c.action.newTicket;
    if s.outcome in {Presented, NotHelpful, NoRecommendation} && ticket.Some? {
      var handed := if s.ticket.Some? then s else s.(created := s.created + [ticket.value]);
      TellsExactly(handed, c.elsewhere, Interaction(Key(EscalateOperation, c.key), None, HandedOver, ticket));
    }
  }

  /** What a refused command is told: a foreign session or an item that is not on offer is not found, a
      stale version conflicts, and an escalation without any ticket is refused for that. */
  lemma RefusesExactly(s: Session, c: Command)
    ensures Execute(s, c) == Err(NotFound)
       <==> !c.mine || (&& c.expected == s.version && (c.action.Select? || c.action.Feedback?)
                        && (c.action.item !in s.items || !c.action.eligible))
    ensures Execute(s, c) == Err(VersionConflict) <==> c.mine && c.expected != s.version
    ensures Execute(s, c) == Err(TicketRefused)
       <==> Current(s, c) && c.action == Escalate(None) && s.ticket == None && !Terminal(s.outcome)
  {
    if Current(s, c) {
      match c.action
      case Select(item, _) => SelectingRefuses(s, c, item);
      case Feedback(item, _, helpful) => FeedbackRefuses(s, c, item, helpful);
      case Confirm => ConfirmingRefuses(s, c);
      case Escalate(newTicket) => EscalatingRefuses(s, c, newTicket);
    }
  }

  /** It goes through, or a rule or its key refuses it. */
  predicate RuleOrKey(r: Result<Session, Error>) {
    r.Ok? || r.error == RuleViolation || r.error == KeyConflict
  }

  lemma SelectingRefuses(s: Session, c: Command, item: Id)
    ensures RuleOrKey(Selecting(s, c, item))
  {
  }

  lemma FeedbackRefuses(s: Session, c: Command, item: Id, helpful: bool)
    requires s.version == c.expected
    ensures RuleOrKey(GivingFeedback(s, c, item, helpful))
  {
  }

  lemma ConfirmingRefuses(s: Session, c: Command)
    requires s.version == c.expected
    ensures RuleOrKey(Confirming(s, c))
  {
  }

  lemma EscalatingRefuses(s: Session, c: Command, newTicket: Option<Id>)
    requires s.version == c.expected
    ensures RuleOrKey(Escalating(s, c, newTicket))
            || (Escalating(s, c, newTicket) == Err(TicketRefused) && s.ticket == None && newTicket == None
                && !Terminal(s.outcome))
    ensures s.ticket == None && newTicket == None && !Terminal(s.outcome) ==>
              Escalating(s, c, newTicket) == Err(TicketRefused)
  {
  }
}
