/** The canonical text is unambiguous: reading it back gives the printed value, so two values
    share a text exactly when they mean the same, as long as the key order never ties. */
module CanonicalJson {
  import opened Wrappers
  import opened JsonText
  import opened Sequences

  // ----- Strings read back -----

  lemma HexDigitReads(n: nat)
    requires n < 16
    ensures HexValue(HexDigit(n)) == Some(n)
  {}

  lemma HexDigitsAddUp(c: CodeUnit)
    ensures 4096 * (c / 4096) + 256 * (c / 256 % 16) + 16 * (c / 16 % 16) + c % 16 == c
  {
    assert c / 256 == 16 * (c / 4096) + c / 256 % 16;
    assert c / 16 == 16 * (c / 256) + c / 16 % 16;
  }

  lemma EscapeHexReads(c: CodeUnit)
    ensures |HexEscape(c)| == 6 && ReadHex(HexEscape(c)[2..6]) == Some(c)
  {
    var d := HexEscape(c)[2..6];
    assert d == [HexDigit(c / 4096), HexDigit(c / 256 % 16), HexDigit(c / 16 % 16), HexDigit(c % 16)];
    HexDigitReads(c / 4096);
    HexDigitReads(c / 256 % 16);
    HexDigitReads(c / 16 % 16);
    HexDigitReads(c % 16);
    HexDigitsAddUp(c);
  }

  lemma EscapedUnitReads(c: CodeUnit, tail: Text)
    ensures ReadString(EscapeUnit(c) + tail) == Prepend(c, ReadString(tail))
  {
    var t := EscapeUnit(c) + tail;
    match ShortEscape(c) {
      case Some(letter) =>
        assert t[2..] == tail;
      case None =>
        if c < 32 || HighSurrogate(c) || LowSurrogate(c) {
          EscapeHexReads(c);
          assert t[2..6] == HexEscape(c)[2..6] && t[6..] == tail;
        } else {
          assert t[1..] == tail;
        }
    }
  }

  /** A code unit that needs no escape, or is half of a pair, reads as itself. */
  lemma PlainUnitReads(c: CodeUnit, tail: Text)
    requires c != QUOTE && c != BACKSLASH && c >= 32
    ensures ReadString([c] + tail) == Prepend(c, ReadString(tail))
  {
    assert ([c] + tail)[1..] == tail;
  }

  lemma TwoInFront(a: CodeUnit, b: CodeUnit, rest: Text)
    ensures [a, b] + rest == [a] + ([b] + rest)
  {
  }

  lemma Pair(s: Text)
    requires |s| >= 2 && HighSurrogate(s[0]) && LowSurrogate(s[1])
    ensures EscapeBody(s) == [s[0]] + ([s[1]] + EscapeBody(s[2..]))
  {
    assert EscapeBody(s) == [s[0], s[1]] + EscapeBody(s[2..]);
    TwoInFront(s[0], s[1], EscapeBody(s[2..]));
  }

  lemma EndReads(rest: Text)
    ensures ReadString([QUOTE] + rest) == Some(Reading([], rest))
  {
    assert ([QUOTE] + rest)[1..] == rest;
  }

  predicate Paired(s: Text) {
    |s| >= 2 && HighSurrogate(s[0]) && LowSurrogate(s[1])
  }

  lemma UnitFirst(s: Text, end: Text)
    requires s != [] && !Paired(s)
    ensures EscapeBody(s) + end == EscapeUnit(s[0]) + (EscapeBody(s[1..]) + end)
  {
    assert EscapeBody(s) == EscapeUnit(s[0]) + EscapeBody(s[1..]);
    Associate(EscapeUnit(s[0]), EscapeBody(s[1..]), end);
  }

  lemma PairFirst(s: Text, end: Text)
    requires Paired(s)
    ensures EscapeBody(s) + end == [s[0]] + ([s[1]] + (EscapeBody(s[2..]) + end))
  {
    Pair(s);
    Associate([s[0]], [s[1]] + EscapeBody(s[2..]), end);
    Associate([s[1]], EscapeBody(s[2..]), end);
  }

  /** A quoted string followed by anything reads back as itself. */
  lemma {:induction false} QuotedReads(s: Text, rest: Text)
    ensures ReadString(EscapeBody(s) + [QUOTE] + rest) == Some(Reading(s, rest))
    decreases |s|, 1
  {
    Associate(EscapeBody(s), [QUOTE], rest);
    if s == [] {
      EndReads(rest);
      assert EscapeBody(s) + ([QUOTE] + rest) == [QUOTE] + rest;
    } else if Paired(s) {
      PairReads(s, rest);
    } else {
      UnpairedReads(s, rest);
    }
  }

  lemma {:induction false} UnpairedReads(s: Text, rest: Text)
    requires s != [] && !Paired(s)
    ensures ReadString(EscapeBody(s) + ([QUOTE] + rest)) == Some(Reading(s, rest))
    decreases |s|, 0
  {
    var u, end := EscapeBody(s[1..]), [QUOTE] + rest;
    QuotedReads(s[1..], rest);
    Associate(u, [QUOTE], rest);
    UnitFirst(s, end);
    EscapedUnitReads(s[0], u + end);
    assert [s[0]] + s[1..] == s;
  }

  lemma {:induction false} PairReads(s: Text, rest: Text)
    requires Paired(s)
    ensures ReadString(EscapeBody(s) + ([QUOTE] + rest)) == Some(Reading(s, rest))
    decreases |s|, 0
  {
    var u, end := EscapeBody(s[2..]), [QUOTE] + rest;
    QuotedReads(s[2..], rest);
    Associate(u, [QUOTE], rest);
    PairFirst(s, end);
    PlainUnitReads(s[1], u + end);
    PlainUnitReads(s[0], [s[1]] + (u + end));
    assert [s[0]] + ([s[1]] + s[2..]) == s;
  }

  // ----- Sorting -----

  ghost function Elements(ms: seq<Member>): set<Member> {
    set m | m in ms
  }

  ghost predicate Distinct(ms: seq<Member>) {
    forall i, j | 0 <= i < j < |ms| :: ms[i].key != ms[j].key
  }

  lemma {:induction false} InsertPermutes(le: KeyOrder, m: Member, ms: seq<Member>)
    ensures multiset(Insert(le, m, ms)) == multiset{m} + multiset(ms)
  {
    if ms == [] || le(m.key, ms[0].key) {
    } else {
      InsertPermutes(le, m, ms[1..]);
      assert ms == [ms[0]] + ms[1..];
    }
  }

  lemma {:induction false} SortPermutes(le: KeyOrder, ms: seq<Member>)
    ensures multiset(Sort(le, ms)) == multiset(ms)
  {
    if ms != [] {
      SortPermutes(le, ms[1..]);
      InsertPermutes(le, ms[0], Sort(le, ms[1..]));
      assert ms == [ms[0]] + ms[1..];
    }
  }

  lemma InMultiset(ms: seq<Member>, m: Member)
    ensures m in ms <==> m in multiset(ms)
  {}

  lemma SortKeepsElements(le: KeyOrder, ms: seq<Member>)
    ensures Elements(Sort(le, ms)) == Elements(ms)
  {
    SortPermutes(le, ms);
    forall m: Member ensures m in Sort(le, ms) <==> m in ms {
      InMultiset(ms, m);
      InMultiset(Sort(le, ms), m);
    }
  }

  // ----- Values read back -----

  /** What may follow a value without being taken for more of it. */
  predicate Stop(rest: Text) {
    rest == [] || !NumberUnit(rest[0])
  }

  ghost predicate Denotes(text: Text, m: Meaning) {
    forall rest | Stop(rest) :: ReadValue(text + rest) == Some(Reading(m, rest))
  }

  lemma {:induction false} NumberRunStops(lexeme: Text, rest: Text)
    requires forall i | 0 <= i < |lexeme| :: NumberUnit(lexeme[i])
    requires Stop(rest)
    ensures NumberRun(lexeme + rest) == |lexeme|
  {
    if lexeme == [] {
      assert lexeme + rest == rest;
    } else {
      NumberRunStops(lexeme[1..], rest);
      assert (lexeme + rest)[1..] == lexeme[1..] + rest;
    }
  }

  /** No printed value starts with a closing bracket, so an empty array is recognised. */
  lemma PrintStarts(le: KeyOrder, v: Json)
    requires WellFormed(v)
    ensures Print(le, v) != [] && Print(le, v)[0] != CLOSE_BRACKET
  {}

  lemma {:induction false} PrintDenotes(le: KeyOrder, v: Json)
    requires WellFormed(v)
    ensures Denotes(Print(le, v), Mean(v))
    decreases v, 2
  {
    forall rest | Stop(rest)
      ensures ReadValue(Print(le, v) + rest) == Some(Reading(Mean(v), rest))
    {
      PrintReads(le, v, rest);
    }
  }

  lemma LiteralReads(rest: Text)
    ensures ReadValue(NULL_TEXT + rest) == Some(Reading(MNull, rest))
    ensures ReadValue(TRUE_TEXT + rest) == Some(Reading(MBool(true), rest))
    ensures ReadValue(FALSE_TEXT + rest) == Some(Reading(MBool(false), rest))
  {
    assert NULL_TEXT[0] == 110 && TRUE_TEXT[0] == 116;
    assert (NULL_TEXT + rest)[4..] == rest;
    assert (TRUE_TEXT + rest)[0] == 116 && (TRUE_TEXT + rest)[4..] == rest;
    assert (FALSE_TEXT + rest)[0] == 102 && (FALSE_TEXT + rest)[5..] == rest;
  }

  lemma NumberReads(lexeme: Text, rest: Text)
    requires Lexeme(lexeme) && Stop(rest)
    ensures ReadValue(lexeme + rest) == Some(Reading(MNumber(lexeme), rest))
  {
    var t := lexeme + rest;
    NumberRunStops(lexeme, rest);
    assert t[..|lexeme|] == lexeme && t[|lexeme|..] == rest;
  }

  lemma QuoteOpens(t: Text)
    requires t != [] && t[0] == QUOTE
    ensures ReadValue(t) == match ReadString(t[1..])
                            case None => None
                            case Some(Reading(s, rest)) => Some(Reading(MString(s), rest))
  {
    assert NULL_TEXT[0] != QUOTE && TRUE_TEXT[0] != QUOTE && FALSE_TEXT[0] != QUOTE;
  }

  lemma StringReads(s: Text, rest: Text)
    ensures ReadValue(Quote(s) + rest) == Some(Reading(MString(s), rest))
  {
    var t := Quote(s) + rest;
    assert t[0] == QUOTE && t[1..] == EscapeBody(s) + [QUOTE] + rest;
    QuoteOpens(t);
    QuotedReads(s, rest);
  }

  lemma ArrayOpens(t: Text)
    requires t != [] && t[0] == OPEN_BRACKET
    ensures ReadValue(t)
         == if |t| >= 2 && t[1] == CLOSE_BRACKET then Some(Reading(MArray([]), t[2..])) else ReadItems(t[1..], [])
  {
  }

  lemma ObjectOpens(t: Text)
    requires t != [] && t[0] == OPEN_BRACE
    ensures ReadValue(t)
         == if |t| >= 2 && t[1] == CLOSE_BRACE then Some(Reading(MObject(map[]), t[2..]))
            else ReadMembers(t[1..], map[])
  {
  }

  lemma EmptyReads(rest: Text)
    ensures ReadValue([OPEN_BRACKET, CLOSE_BRACKET] + rest) == Some(Reading(MArray([]), rest))
    ensures ReadValue([OPEN_BRACE, CLOSE_BRACE] + rest) == Some(Reading(MObject(map[]), rest))
  {
    ArrayOpens([OPEN_BRACKET, CLOSE_BRACKET] + rest);
    ObjectOpens([OPEN_BRACE, CLOSE_BRACE] + rest);
    assert ([OPEN_BRACKET, CLOSE_BRACKET] + rest)[2..] == rest;
    assert ([OPEN_BRACE, CLOSE_BRACE] + rest)[2..] == rest;
  }

  lemma OpenReads(t: Text)
    requires t != []
    ensures t[0] != CLOSE_BRACKET ==> ReadValue([OPEN_BRACKET] + t) == ReadItems(t, [])
    ensures t[0] == QUOTE ==> ReadValue([OPEN_BRACE] + t) == ReadMembers(t, map[])
  {
    ArrayOpens([OPEN_BRACKET] + t);
    ObjectOpens([OPEN_BRACE] + t);
    assert ([OPEN_BRACKET] + t)[1..] == t && ([OPEN_BRACE] + t)[1..] == t;
  }

  lemma {:induction false} PrintReads(le: KeyOrder, v: Json, rest: Text)
    requires WellFormed(v) && Stop(rest)
    ensures ReadValue(Print(le, v) + rest) == Some(Reading(Mean(v), rest))
    decreases v, 1
  {
    match v {
      case Null => LiteralReads(rest);
      case Bool(b) => LiteralReads(rest);
      case Number(lexeme) => NumberReads(lexeme, rest);
      case String(s) => StringReads(s, rest);
      case Array(items) => ArrayReads(le, items, rest);
      case Object(fields) => ObjectReads(le, fields, rest);
    }
  }

  lemma {:induction false} ArrayReads(le: KeyOrder, items: seq<Json>, rest: Text)
    requires forall i | 0 <= i < |items| :: WellFormed(items[i])
    ensures ReadValue([OPEN_BRACKET] + Join(PrintAll(le, items)) + [CLOSE_BRACKET] + rest)
         == Some(Reading(MArray(MeanAll(items)), rest))
    decreases items, 1
  {
    var body := Join(PrintAll(le, items));
    if items == [] {
      EmptyReads(rest);
      assert [OPEN_BRACKET] + body + [CLOSE_BRACKET] + rest == [OPEN_BRACKET, CLOSE_BRACKET] + rest;
    } else {
      ItemsStart(le, items);
      BracketedReads(body, rest);
      ItemsRead(le, items, [], rest);
      assert [] + MeanAll(items) == MeanAll(items);
    }
  }

  lemma ItemsStart(le: KeyOrder, items: seq<Json>)
    requires items != [] && forall i | 0 <= i < |items| :: WellFormed(items[i])
    ensures var body := Join(PrintAll(le, items)); body != [] && body[0] != CLOSE_BRACKET
  {
    PrintStarts(le, items[0]);
    JoinStarts(PrintAll(le, items));
  }

  lemma BracketedReads(body: Text, rest: Text)
    requires body != [] && body[0] != CLOSE_BRACKET
    ensures ReadValue([OPEN_BRACKET] + body + [CLOSE_BRACKET] + rest)
         == ReadItems(body + [CLOSE_BRACKET] + rest, [])
  {
    OpenReads(body + [CLOSE_BRACKET] + rest);
    assert [OPEN_BRACKET] + body + [CLOSE_BRACKET] + rest == [OPEN_BRACKET] + (body + [CLOSE_BRACKET] + rest);
  }

  lemma JoinStarts(parts: seq<Text>)
    requires parts != [] && parts[0] != []
    ensures Join(parts) != [] && Join(parts)[0] == parts[0][0]
  {}

  /** One step of reading an array. */
  lemma ItemReads(text: Text, mean: Meaning, after: Text, seen: seq<Meaning>)
    requires Denotes(text, mean)
    requires after != [] && (after[0] == COMMA || after[0] == CLOSE_BRACKET)
    ensures ReadItems(text + after, seen)
         == if after[0] == COMMA then ReadItems(after[1..], seen + [mean])
            else Some(Reading(MArray(seen + [mean]), after[1..]))
  {
    assert Stop(after);
  }

  /** What follows the first of the `parts` in a closed list. */
  function After(parts: seq<Text>, close: CodeUnit, rest: Text): Text
    requires parts != []
  {
    if |parts| == 1 then [close] + rest else [COMMA] + (Join(parts[1..]) + [close] + rest)
  }

  lemma JoinSplits(parts: seq<Text>, close: CodeUnit, rest: Text)
    requires parts != []
    ensures Join(parts) + [close] + rest == parts[0] + After(parts, close, rest)
    ensures After(parts, close, rest)[0] == if |parts| == 1 then close else COMMA
    ensures After(parts, close, rest)[1..] == if |parts| == 1 then rest else Join(parts[1..]) + [close] + rest
  {
    if |parts| == 1 {
      assert parts[0] + [close] + rest == parts[0] + ([close] + rest);
    } else {
      var tail := Join(parts[1..]);
      assert Join(parts) == parts[0] + [COMMA] + tail;
      RegroupList(parts[0], tail, [close], rest);
    }
  }

  lemma RegroupList(a: Text, b: Text, c: Text, d: Text)
    ensures a + [COMMA] + b + c + d == a + ([COMMA] + (b + c + d))
  {}

  lemma {:induction false} ItemsRead(le: KeyOrder, items: seq<Json>, seen: seq<Meaning>, rest: Text)
    requires items != [] && forall i | 0 <= i < |items| :: WellFormed(items[i])
    ensures ReadItems(Join(PrintAll(le, items)) + [CLOSE_BRACKET] + rest, seen)
         == Some(Reading(MArray(seen + MeanAll(items)), rest))
    decreases items, 0
  {
    var parts := PrintAll(le, items);
    var after := After(parts, CLOSE_BRACKET, rest);
    var mean := Mean(items[0]);
    assert parts == [Print(le, items[0])] + PrintAll(le, items[1..]);
    assert MeanAll(items) == [mean] + MeanAll(items[1..]);
    PrintDenotes(le, items[0]);
    JoinSplits(parts, CLOSE_BRACKET, rest);
    ItemReads(parts[0], mean, after, seen);
    if |items| > 1 {
      assert parts[1..] == PrintAll(le, items[1..]) && |parts| > 1;
      ItemsRead(le, items[1..], seen + [mean], rest);
      assert (seen + [mean]) + MeanAll(items[1..]) == seen + MeanAll(items);
    } else {
      assert parts == [parts[0]];
      assert MeanAll(items) == [mean];
    }
  }

  // ----- Objects read back -----

  /** The map that reading `ms` in order builds on top of `seen`. */
  ghost function Gather(ms: seq<Member>, mean: map<Text, Meaning>, seen: map<Text, Meaning>): map<Text, Meaning>
    requires forall m | m in ms :: m.key in mean
  {
    if ms == [] then seen else Gather(ms[1..], mean, seen[ms[0].key := mean[ms[0].key]])
  }

  /** `Gather` gives every key of `ms` its meaning and leaves the others alone. */
  lemma {:induction false} GatherAll(ms: seq<Member>, mean: map<Text, Meaning>, seen: map<Text, Meaning>, k: Text)
    requires forall m | m in ms :: m.key in mean
    ensures (exists m | m in ms :: m.key == k)
            ==> k in Gather(ms, mean, seen) && k in mean && Gather(ms, mean, seen)[k] == mean[k]
    ensures k in Gather(ms, mean, seen) ==> k in seen || k in mean
    ensures k in seen && (k !in mean || seen[k] == mean[k])
            ==> k in Gather(ms, mean, seen) && Gather(ms, mean, seen)[k] == seen[k]
  {
    if ms != [] {
      var next := seen[ms[0].key := mean[ms[0].key]];
      GatherAll(ms[1..], mean, next, k);
      if m :| m in ms && m.key == k {
        assert m == ms[0] || m in ms[1..];
      }
    }
  }

  /** One step of reading an object. */
  lemma MemberReads(m: Member, mean: Meaning, after: Text, seen: map<Text, Meaning>)
    requires Denotes(m.text, mean)
    requires after != [] && (after[0] == COMMA || after[0] == CLOSE_BRACE)
    ensures ReadMembers(Quote(m.key) + [COLON] + m.text + after, seen)
         == if after[0] == COMMA then ReadMembers(after[1..], seen[m.key := mean])
            else Some(Reading(MObject(seen[m.key := mean]), after[1..]))
  {
    var t := Quote(m.key) + [COLON] + m.text + after;
    MemberText(m, after);
    QuotedReads(m.key, [COLON] + (m.text + after));
    assert Stop(after);
    MemberStep(t, m.key, m.text + after, mean, after, seen);
  }

  lemma MemberText(m: Member, after: Text)
    ensures var t := Quote(m.key) + [COLON] + m.text + after;
            t[0] == QUOTE && t[1..] == EscapeBody(m.key) + [QUOTE] + ([COLON] + (m.text + after))
  {
    var body, tail := EscapeBody(m.key) + [QUOTE], [COLON] + (m.text + after);
    Regroup(Quote(m.key), [COLON], m.text, after);
    assert Quote(m.key) == [QUOTE] + body;
    Associate([QUOTE], body, tail);
    assert ([QUOTE] + (body + tail))[1..] == body + tail;
  }

  lemma MemberStep(t: Text, key: Text, valueText: Text, mean: Meaning, after: Text, seen: map<Text, Meaning>)
    requires t != [] && t[0] == QUOTE && ReadString(t[1..]) == Some(Reading(key, [COLON] + valueText))
    requires ReadValue(valueText) == Some(Reading(mean, after))
    requires after != [] && (after[0] == COMMA || after[0] == CLOSE_BRACE)
    ensures ReadMembers(t, seen)
         == if after[0] == COMMA then ReadMembers(after[1..], seen[key := mean])
           else Some(Reading(MObject(seen[key := mean]), after[1..]))
  {
    assert ([COLON] + valueText)[1..] == valueText;
  }

  lemma {:induction false} MembersRead(ms: seq<Member>, mean: map<Text, Meaning>, seen: map<Text, Meaning>, rest: Text)
    requires ms != []
    requires forall m | m in ms :: m.key in mean && Denotes(m.text, mean[m.key])
    ensures ReadMembers(Join(MemberTexts(ms)) + [CLOSE_BRACE] + rest, seen)
         == Some(Reading(MObject(Gather(ms, mean, seen)), rest))
  {
    var parts := MemberTexts(ms);
    var after := After(parts, CLOSE_BRACE, rest);
    var m := ms[0];
    var seen' := seen[m.key := mean[m.key]];
    assert parts == [Quote(m.key) + [COLON] + m.text] + MemberTexts(ms[1..]);
    assert m in ms;
    JoinSplits(parts, CLOSE_BRACE, rest);
    MemberReads(m, mean[m.key], after, seen);
    assert Gather(ms, mean, seen) == Gather(ms[1..], mean, seen');
    if |ms| > 1 {
      assert parts[1..] == MemberTexts(ms[1..]) && |parts| > 1;
      MembersRead(ms[1..], mean, seen', rest);
    } else {
      assert parts == [parts[0]];
    }
  }

  lemma {:induction false} FieldsPrinted(le: KeyOrder, fields: seq<Field>)
    ensures |PrintFields(le, fields)| == |fields|
    ensures forall i | 0 <= i < |fields| ::
              PrintFields(le, fields)[i] == Member(fields[i].key, Print(le, fields[i].value))
  {
    if fields != [] {
      FieldsPrinted(le, fields[1..]);
    }
  }

  lemma {:induction false} FieldsMean(fields: seq<Field>)
    requires DistinctKeys(fields)
    ensures forall k :: k in MeanFields(fields) <==> exists i | 0 <= i < |fields| :: fields[i].key == k
    ensures forall i | 0 <= i < |fields| ::
              fields[i].key in MeanFields(fields) && MeanFields(fields)[fields[i].key] == Mean(fields[i].value)
  {
    if fields != [] {
      FieldsMean(fields[1..]);
      assert forall i | 1 <= i < |fields| :: fields[i] == fields[1..][i - 1];
      forall k ensures k in MeanFields(fields) <==> exists i | 0 <= i < |fields| :: fields[i].key == k {
        if k in MeanFields(fields) && k != fields[0].key {
          var j :| 0 <= j < |fields[1..]| && fields[1..][j].key == k;
          assert fields[j + 1].key == k;
        }
        if i :| 0 <= i < |fields| && fields[i].key == k {
          if i > 0 { assert fields[1..][i - 1].key == k; }
        }
      }
    }
  }

  lemma {:induction false} FieldsDenote(le: KeyOrder, fields: seq<Field>)
    requires forall i | 0 <= i < |fields| :: WellFormed(fields[i].value)
    ensures forall i | 0 <= i < |fields| :: Denotes(Print(le, fields[i].value), Mean(fields[i].value))
    decreases fields, 0
  {
    if fields != [] {
      PrintDenotes(le, fields[0].value);
      FieldsDenote(le, fields[1..]);
      assert forall i | 1 <= i < |fields| :: fields[i] == fields[1..][i - 1];
    }
  }

  /** The sorted members of an object are exactly its fields, each with a text that reads back. */
  lemma {:induction false} MembersDenote(le: KeyOrder, fields: seq<Field>)
    requires DistinctKeys(fields) && forall i | 0 <= i < |fields| :: WellFormed(fields[i].value)
    ensures forall m | m in Sort(le, PrintFields(le, fields)) ::
              m.key in MeanFields(fields) && Denotes(m.text, MeanFields(fields)[m.key])
    ensures forall k | k in MeanFields(fields) :: exists m | m in Sort(le, PrintFields(le, fields)) :: m.key == k
    decreases fields, 1
  {
    var printed := PrintFields(le, fields);
    FieldsPrinted(le, fields);
    FieldsMean(fields);
    FieldsDenote(le, fields);
    SortKeepsElements(le, printed);
    forall m | m in Sort(le, printed)
      ensures m.key in MeanFields(fields) && Denotes(m.text, MeanFields(fields)[m.key])
    {
      assert m in Elements(printed);
      var i :| 0 <= i < |printed| && printed[i] == m;
    }
    forall k | k in MeanFields(fields) ensures exists m | m in Sort(le, printed) :: m.key == k {
      var i :| 0 <= i < |fields| && fields[i].key == k;
      assert printed[i] in Elements(Sort(le, printed));
    }
  }

  /** Sorted and joined members read back as the map of the fields. */
  lemma {:induction false} SortedMembersRead(le: KeyOrder, fields: seq<Field>, rest: Text)
    requires DistinctKeys(fields) && forall i | 0 <= i < |fields| :: WellFormed(fields[i].value)
    requires Sort(le, PrintFields(le, fields)) != []
    ensures ReadMembers(Join(MemberTexts(Sort(le, PrintFields(le, fields)))) + [CLOSE_BRACE] + rest, map[])
         == Some(Reading(MObject(MeanFields(fields)), rest))
    decreases fields, 2
  {
    var ms := Sort(le, PrintFields(le, fields));
    var mean := MeanFields(fields);
    MembersDenote(le, fields);
    MembersRead(ms, mean, map[], rest);
    forall k: Text ensures k in Gather(ms, mean, map[]) <==> k in mean
      ensures k in mean ==> Gather(ms, mean, map[])[k] == mean[k]
    {
      GatherAll(ms, mean, map[], k);
    }
    assert Gather(ms, mean, map[]) == mean;
  }

  lemma BracedReads(body: Text, rest: Text)
    requires body != [] && body[0] == QUOTE
    ensures ReadValue([OPEN_BRACE] + body + [CLOSE_BRACE] + rest)
         == ReadMembers(body + [CLOSE_BRACE] + rest, map[])
  {
    OpenReads(body + [CLOSE_BRACE] + rest);
    assert [OPEN_BRACE] + body + [CLOSE_BRACE] + rest == [OPEN_BRACE] + (body + [CLOSE_BRACE] + rest);
  }

  lemma EmptyObjectReads(body: Text, rest: Text)
    requires body == []
    ensures ReadValue([OPEN_BRACE] + body + [CLOSE_BRACE] + rest) == Some(Reading(MObject(map[]), rest))
  {
    EmptyReads(rest);
    assert [OPEN_BRACE] + body + [CLOSE_BRACE] + rest == [OPEN_BRACE, CLOSE_BRACE] + rest;
  }

  lemma {:induction false} ObjectReads(le: KeyOrder, fields: seq<Field>, rest: Text)
    requires DistinctKeys(fields) && forall i | 0 <= i < |fields| :: WellFormed(fields[i].value)
    ensures ReadValue([OPEN_BRACE] + Join(MemberTexts(Sort(le, PrintFields(le, fields)))) + [CLOSE_BRACE] + rest)
         == Some(Reading(MObject(MeanFields(fields)), rest))
    decreases fields, 3
  {
    var ms := Sort(le, PrintFields(le, fields));
    if ms == [] {
      MembersDenote(le, fields);
      assert MeanFields(fields) == map[];
      EmptyObjectReads(Join(MemberTexts(ms)), rest);
    } else {
      SortedMembersRead(le, fields, rest);
      MembersStart(ms);
      BracedReads(Join(MemberTexts(ms)), rest);
    }
  }

  lemma MembersStart(ms: seq<Member>)
    requires ms != []
    ensures Join(MemberTexts(ms)) != [] && Join(MemberTexts(ms))[0] == QUOTE
  {
    assert MemberTexts(ms)[0] == Quote(ms[0].key) + [COLON] + ms[0].text;
    JoinStarts(MemberTexts(ms));
  }

  /** A canonical text is valid JSON for the printed value, whatever the key order does. */
  lemma ReadPrint(le: KeyOrder, v: Json)
    requires WellFormed(v)
    ensures Read(Print(le, v)) == Some(Mean(v))
  {
    PrintReads(le, v, []);
    assert Print(le, v) + [] == Print(le, v);
  }

  /** Equal texts, equal meanings: this half needs nothing of the key order. */
  lemma SameTextSameMeaning(le: KeyOrder, v: Json, w: Json)
    requires WellFormed(v) && WellFormed(w)
    requires Print(le, v) == Print(le, w)
    ensures Mean(v) == Mean(w)
  {
    ReadPrint(le, v);
    ReadPrint(le, w);
  }

  // ----- Order-blindness -----

  ghost predicate Total(le: KeyOrder) {
    forall a, b :: le(a, b) || le(b, a)
  }

  ghost predicate Transitive(le: KeyOrder) {
    forall a, b, c :: le(a, b) && le(b, c) ==> le(a, c)
  }

  /** No two different keys tie. */
  ghost predicate Separates(le: KeyOrder) {
    forall a, b :: le(a, b) && le(b, a) ==> a == b
  }

  ghost predicate Sorted(le: KeyOrder, ms: seq<Member>) {
    forall i, j | 0 <= i < j < |ms| :: le(ms[i].key, ms[j].key)
  }

  lemma {:induction false} InsertSorts(le: KeyOrder, m: Member, ms: seq<Member>)
    requires Total(le) && Transitive(le) && Sorted(le, ms)
    ensures Sorted(le, Insert(le, m, ms))
  {
    if ms == [] || le(m.key, ms[0].key) {
    } else {
      InsertSorts(le, m, ms[1..]);
      InsertPermutes(le, m, ms[1..]);
      var r := Insert(le, m, ms[1..]);
      forall j | 0 <= j < |r| ensures le(ms[0].key, r[j].key) {
        InMultiset(r, r[j]);
        InMultiset(ms[1..], r[j]);
      }
    }
  }

  lemma {:induction false} SortSorts(le: KeyOrder, ms: seq<Member>)
    requires Total(le) && Transitive(le)
    ensures Sorted(le, Sort(le, ms))
  {
    if ms != [] {
      SortSorts(le, ms[1..]);
      InsertSorts(le, ms[0], Sort(le, ms[1..]));
    }
  }

  lemma {:induction false} SortDistinct(le: KeyOrder, ms: seq<Member>)
    requires Distinct(ms)
    ensures Distinct(Sort(le, ms))
  {
    if ms != [] {
      SortDistinct(le, ms[1..]);
      SortKeepsElements(le, ms[1..]);
      forall m | m in Sort(le, ms[1..]) ensures m.key != ms[0].key {
        assert m in Elements(ms[1..]);
      }
      InsertDistinct(le, ms[0], Sort(le, ms[1..]));
    }
  }

  lemma {:induction false} InsertDistinct(le: KeyOrder, m: Member, ms: seq<Member>)
    requires Distinct(ms) && forall x | x in ms :: x.key != m.key
    ensures Distinct(Insert(le, m, ms))
  {
    if ms == [] || le(m.key, ms[0].key) {
    } else {
      InsertDistinct(le, m, ms[1..]);
      InsertPermutes(le, m, ms[1..]);
      var r := Insert(le, m, ms[1..]);
      forall j | 0 <= j < |r| ensures r[j].key != ms[0].key {
        InMultiset(r, r[j]);
        InMultiset(ms[1..], r[j]);
      }
    }
  }

  lemma SomeElement(ms: seq<Member>)
    requires ms != []
    ensures Elements(ms) != {}
  {
    assert ms[0] in Elements(ms);
  }

  /** Two sorted lists with the same members and no repeated key are the same list. */
  lemma {:induction false} SortedUnique(le: KeyOrder, a: seq<Member>, b: seq<Member>)
    requires Separates(le)
    requires Sorted(le, a) && Sorted(le, b) && Distinct(a) && Distinct(b)
    requires Elements(a) == Elements(b)
    ensures a == b
  {
    if a == [] {
      if b != [] { SomeElement(b); }
    } else {
      assert a[0] in Elements(b);
      assert b[0] in Elements(a);
      var i :| 0 <= i < |b| && b[i] == a[0];
      var j :| 0 <= j < |a| && a[j] == b[0];
      assert a[0].key == b[0].key;
      assert a[0] == b[0];
      TailElements(a);
      TailElements(b);
      SortedUnique(le, a[1..], b[1..]);
    }
  }

  lemma TailElements(a: seq<Member>)
    requires a != [] && Distinct(a)
    ensures Elements(a[1..]) == Elements(a) - {a[0]}
  {
    forall m ensures m in Elements(a[1..]) <==> m in Elements(a) - {a[0]} {
      if m in Elements(a) && m != a[0] {
        var i :| 0 <= i < |a| && a[i] == m;
        assert a[1..][i - 1] == m;
      }
      if m in a[1..] {
        var i :| 0 <= i < |a[1..]| && a[1..][i] == m;
        assert a[i + 1] == m;
      }
    }
  }

  /** Equal meanings, equal texts, for every insertion order, when no two keys tie. */
  lemma {:induction false} SameMeaningSameText(le: KeyOrder, v: Json, w: Json)
    requires Total(le) && Transitive(le) && Separates(le)
    requires WellFormed(v) && WellFormed(w) && Mean(v) == Mean(w)
    ensures Print(le, v) == Print(le, w)
    decreases v, 1
  {
    match v {
      case Array(items) => SameItemsSameTexts(le, items, w.items);
      case Object(fields) =>
        var a, b := PrintFields(le, fields), PrintFields(le, w.fields);
        FieldsPrinted(le, fields);
        FieldsPrinted(le, w.fields);
        SameFieldsSameMembers(le, fields, w.fields);
        SortKeepsElements(le, a);
        SortKeepsElements(le, b);
        SortSorts(le, a);
        SortSorts(le, b);
        SortDistinct(le, a);
        SortDistinct(le, b);
        SortedUnique(le, Sort(le, a), Sort(le, b));
      case _ =>
    }
  }

  lemma {:induction false} SameItemsSameTexts(le: KeyOrder, a: seq<Json>, b: seq<Json>)
    requires Total(le) && Transitive(le) && Separates(le)
    requires forall i | 0 <= i < |a| :: WellFormed(a[i])
    requires forall i | 0 <= i < |b| :: WellFormed(b[i])
    requires MeanAll(a) == MeanAll(b)
    ensures PrintAll(le, a) == PrintAll(le, b)
    decreases a, 0
  {
    if a == [] {
      assert b == [];
    } else {
      assert b != [];
      assert MeanAll(a)[0] == MeanAll(b)[0] && MeanAll(a)[1..] == MeanAll(b)[1..];
      SameMeaningSameText(le, a[0], b[0]);
      SameItemsSameTexts(le, a[1..], b[1..]);
    }
  }

  ghost predicate AgreeOnKeys(le: KeyOrder, a: seq<Field>, b: seq<Field>) {
    forall i, j | 0 <= i < |a| && 0 <= j < |b| && a[i].key == b[j].key ::
      Print(le, a[i].value) == Print(le, b[j].value)
  }

  lemma {:induction false} SameFieldsSameMembers(le: KeyOrder, a: seq<Field>, b: seq<Field>)
    requires Total(le) && Transitive(le) && Separates(le)
    requires DistinctKeys(a) && forall i | 0 <= i < |a| :: WellFormed(a[i].value)
    requires DistinctKeys(b) && forall i | 0 <= i < |b| :: WellFormed(b[i].value)
    requires MeanFields(a) == MeanFields(b)
    ensures Elements(PrintFields(le, a)) == Elements(PrintFields(le, b))
    decreases a, 0
  {
    FieldsMean(a);
    FieldsMean(b);
    forall i, j | 0 <= i < |a| && 0 <= j < |b| && a[i].key == b[j].key
      ensures Print(le, a[i].value) == Print(le, b[j].value)
    {
      assert Mean(a[i].value) == MeanFields(a)[a[i].key] == Mean(b[j].value);
      SameMeaningSameText(le, a[i].value, b[j].value);
    }
    MembersIncluded(le, a, b);
    MembersIncluded(le, b, a);
  }

  lemma MembersIncluded(le: KeyOrder, a: seq<Field>, b: seq<Field>)
    requires DistinctKeys(a) && DistinctKeys(b)
    requires MeanFields(a).Keys <= MeanFields(b).Keys && AgreeOnKeys(le, a, b)
    ensures Elements(PrintFields(le, a)) <= Elements(PrintFields(le, b))
  {
    FieldsMean(a);
    FieldsMean(b);
    FieldsPrinted(le, a);
    FieldsPrinted(le, b);
    forall m | m in PrintFields(le, a) ensures m in Elements(PrintFields(le, b)) {
      var i :| 0 <= i < |a| && PrintFields(le, a)[i] == m;
      assert a[i].key in MeanFields(a).Keys;
      var j :| 0 <= j < |b| && b[j].key == a[i].key;
      assert PrintFields(le, b)[j] == m;
    }
  }

  /** The two readings of "same" agree on all values. */
  ghost predicate OrderBlind(le: KeyOrder) {
    forall v, w | WellFormed(v) && WellFormed(w) && Mean(v) == Mean(w) :: Print(le, v) == Print(le, w)
  }

  /** A text can hide a change of insertion order exactly when the key order never ties:
      `localeCompare` may tie on different keys, the code-unit order may not. */
  lemma OrderBlindIffSeparates(le: KeyOrder)
    requires Total(le) && Transitive(le)
    ensures OrderBlind(le) <==> Separates(le)
  {
    if Separates(le) {
      forall v, w | WellFormed(v) && WellFormed(w) && Mean(v) == Mean(w)
        ensures Print(le, v) == Print(le, w)
      {
        SameMeaningSameText(le, v, w);
      }
    } else {
      var a, b :| le(a, b) && le(b, a) && a != b;
      TieShowsOrder(le, a, b);
    }
  }

  function TwoNulls(a: Text, b: Text): Json {
    Object([Field(a, Null), Field(b, Null)])
  }

  /** Two tied keys: both insertion orders mean the same and print differently. */
  lemma TieShowsOrder(le: KeyOrder, a: Text, b: Text)
    requires le(a, b) && le(b, a) && a != b
    ensures WellFormed(TwoNulls(a, b)) && WellFormed(TwoNulls(b, a))
    ensures Mean(TwoNulls(a, b)) == Mean(TwoNulls(b, a))
    ensures Print(le, TwoNulls(a, b)) != Print(le, TwoNulls(b, a))
  {
    TwoNullsMean(a, b);
    TwoNullsMean(b, a);
    assert map[b := MNull][a := MNull] == map[a := MNull][b := MNull];
    TiedTextsDiffer(le, a, b);
  }

  lemma TiedTextsDiffer(le: KeyOrder, a: Text, b: Text)
    requires le(a, b) && le(b, a) && a != b
    ensures Print(le, TwoNulls(a, b)) != Print(le, TwoNulls(b, a))
  {
    TiedPrint(le, a, b);
    TiedPrint(le, b, a);
    StringReads(a, TiedTail(b));
    StringReads(b, TiedTail(a));
  }

  lemma TwoNullsMean(a: Text, b: Text)
    ensures Mean(TwoNulls(a, b)) == MObject(map[b := MNull][a := MNull])
  {
    var fs := [Field(a, Null), Field(b, Null)];
    assert fs[1..] == [Field(b, Null)] && fs[1..][1..] == [];
    assert MeanFields(fs[1..]) == map[b := MNull];
  }

  ghost function TiedTail(b: Text): Text {
    [COLON] + NULL_TEXT + [COMMA] + (Quote(b) + [COLON] + NULL_TEXT) + [CLOSE_BRACE]
  }

  lemma TiedPrint(le: KeyOrder, a: Text, b: Text)
    requires le(a, b)
    ensures Print(le, TwoNulls(a, b))[1..] == Quote(a) + TiedTail(b)
  {
    var fs := [Field(a, Null), Field(b, Null)];
    assert fs[1..] == [Field(b, Null)];
    var ms := [Member(a, NULL_TEXT), Member(b, NULL_TEXT)];
    assert PrintFields(le, fs[1..]) == [Member(b, NULL_TEXT)];
    assert PrintFields(le, fs) == ms;
    assert ms[1..] == [Member(b, NULL_TEXT)];
    assert Sort(le, ms[1..]) == ms[1..];
    assert Sort(le, ms) == ms;
    TwoMembers(a, b);
    var body := Join(MemberTexts(ms));
    assert ([OPEN_BRACE] + body + [CLOSE_BRACE])[1..] == body + [CLOSE_BRACE];
  }

  lemma TwoMembers(a: Text, b: Text)
    ensures Join(MemberTexts([Member(a, NULL_TEXT), Member(b, NULL_TEXT)])) + [CLOSE_BRACE] == Quote(a) + TiedTail(b)
  {
    var ms := [Member(a, NULL_TEXT), Member(b, NULL_TEXT)];
    var x, y := Quote(a) + [COLON] + NULL_TEXT, Quote(b) + [COLON] + NULL_TEXT;
    assert ms[1..] == [Member(b, NULL_TEXT)];
    assert MemberTexts(ms[1..]) == [y];
    assert MemberTexts(ms) == [x, y];
    assert [x, y][1..] == [y];
    assert Join([x, y]) == x + [COMMA] + y;
  }

  // ----- The code-unit order -----

  /** The order of `Array.prototype.sort` without a comparator. */
  predicate CodeUnitLe(a: Text, b: Text) {
    a == [] || (b != [] && (a[0] < b[0] || (a[0] == b[0] && CodeUnitLe(a[1..], b[1..]))))
  }

  lemma {:induction false} CodeUnitTotal(a: Text, b: Text)
    ensures CodeUnitLe(a, b) || CodeUnitLe(b, a)
    ensures CodeUnitLe(a, b) && CodeUnitLe(b, a) ==> a == b
  {
    if a != [] && b != [] && a[0] == b[0] {
      CodeUnitTotal(a[1..], b[1..]);
      assert a == [a[0]] + a[1..] && b == [b[0]] + b[1..];
    }
  }

  lemma {:induction false} CodeUnitTransitive(a: Text, b: Text, c: Text)
    requires CodeUnitLe(a, b) && CodeUnitLe(b, c)
    ensures CodeUnitLe(a, c)
  {
    if a != [] && b != [] && c != [] && a[0] == b[0] == c[0] {
      CodeUnitTransitive(a[1..], b[1..], c[1..]);
    }
  }

  /** The code-unit canonical text compares meanings: same text exactly when same value with
      objects read as maps. */
  lemma CanonicalTextIsMeaning(v: Json, w: Json)
    requires WellFormed(v) && WellFormed(w)
    ensures Print(CodeUnitLe, v) == Print(CodeUnitLe, w) <==> Mean(v) == Mean(w)
  {
    forall a, b
      ensures CodeUnitLe(a, b) || CodeUnitLe(b, a)
      ensures CodeUnitLe(a, b) && CodeUnitLe(b, a) ==> a == b
    {
      CodeUnitTotal(a, b);
    }
    forall a, b, c | CodeUnitLe(a, b) && CodeUnitLe(b, c) ensures CodeUnitLe(a, c) {
      CodeUnitTransitive(a, b, c);
    }
    if Mean(v) == Mean(w) {
      SameMeaningSameText(CodeUnitLe, v, w);
    }
    if Print(CodeUnitLe, v) == Print(CodeUnitLe, w) {
      SameTextSameMeaning(CodeUnitLe, v, w);
    }
  }

  predicate AgreeUpTo(a: Text, b: Text, k: nat) {
    k <= |a| && k <= |b| && forall m | 0 <= m < k :: a[m] == b[m]
  }

  /** `k` is the first place where the two differ, and there `a` has the smaller unit. */
  predicate SmallerAt(a: Text, b: Text, k: nat) {
    k < |a| && k < |b| && AgreeUpTo(a, b, k) && a[k] < b[k]
  }

  /** `a` comes before `b`: it is a proper prefix, or has the smaller unit where they first differ. */
  ghost predicate ComesBefore(a: Text, b: Text) {
    (|a| < |b| && AgreeUpTo(a, b, |a|)) || exists k :: SmallerAt(a, b, k)
  }

  lemma {:induction false} CodeUnitExactly(a: Text, b: Text)
    ensures CodeUnitLe(a, b) <==> a == b || ComesBefore(a, b)
  {
    if a != [] && b != [] && a[0] == b[0] {
      CodeUnitExactly(a[1..], b[1..]);
      TailsCompare(a, b);
    } else if a != [] && b != [] {
      HeadsCompare(a, b);
    }
  }

  lemma HeadsCompare(a: Text, b: Text)
    requires a != [] && b != [] && a[0] != b[0]
    ensures ComesBefore(a, b) <==> a[0] < b[0]
  {
    assert SmallerAt(a, b, 0) <==> a[0] < b[0];
    assert forall k | k > 0 :: !AgreeUpTo(a, b, k);
  }

  lemma AgreeBehind(a: Text, b: Text, k: nat, n: nat)
    requires a != [] && b != [] && a[0] == b[0] && n == k + 1
    ensures AgreeUpTo(a, b, n) <==> AgreeUpTo(a[1..], b[1..], k)
  {
    if AgreeUpTo(a[1..], b[1..], k) {
      assert forall m | 0 < m < n :: a[m] == a[1..][m - 1] && b[m] == b[1..][m - 1];
    }
  }

  lemma TailsCompare(a: Text, b: Text)
    requires a != [] && b != [] && a[0] == b[0]
    ensures ComesBefore(a, b) <==> ComesBefore(a[1..], b[1..])
    ensures a == b <==> a[1..] == b[1..]
  {
    var x, y := a[1..], b[1..];
    assert a == [a[0]] + x && b == [b[0]] + y;
    AgreeBehind(a, b, |x|, |a|);
    if n :| SmallerAt(a, b, n) {
      var k := n - 1;
      AgreeBehind(a, b, k, n);
      assert SmallerAt(x, y, k);
    }
    if k :| SmallerAt(x, y, k) {
      var n := k + 1;
      AgreeBehind(a, b, k, n);
      assert SmallerAt(a, b, n);
    }
  }

  lemma CodeUnitOrders()
    ensures Total(CodeUnitLe) && Transitive(CodeUnitLe)
  {
    forall a, b ensures CodeUnitLe(a, b) || CodeUnitLe(b, a) {
      CodeUnitTotal(a, b);
    }
    forall a, b, c | CodeUnitLe(a, b) && CodeUnitLe(b, c) ensures CodeUnitLe(a, c) {
      CodeUnitTransitive(a, b, c);
    }
  }

  /** The members of a canonical object stand in ascending order of their keys, by code units. */
  lemma MembersAscend(fields: seq<Field>, i: nat, j: nat)
    requires DistinctKeys(fields)
    requires i < j < |Sort(CodeUnitLe, PrintFields(CodeUnitLe, fields))|
    ensures var ms := Sort(CodeUnitLe, PrintFields(CodeUnitLe, fields)); ComesBefore(ms[i].key, ms[j].key)
  {
    var printed := PrintFields(CodeUnitLe, fields);
    var ms := Sort(CodeUnitLe, printed);
    CodeUnitOrders();
    SortSorts(CodeUnitLe, printed);
    FieldsPrinted(CodeUnitLe, fields);
    PrintedDistinct(CodeUnitLe, fields);
    SortDistinct(CodeUnitLe, printed);
    CodeUnitExactly(ms[i].key, ms[j].key);
  }

  lemma PrintedDistinct(le: KeyOrder, fields: seq<Field>)
    requires DistinctKeys(fields)
    ensures Distinct(PrintFields(le, fields))
  {
    FieldsPrinted(le, fields);
  }

  // ----- The text of strings -----

  predicate Verbatim(c: CodeUnit) {
    c >= 32 && c != QUOTE && c != BACKSLASH && !HighSurrogate(c) && !LowSurrogate(c)
  }

  /** A string without quotes, backslashes, control characters and surrogates is printed as it is. */
  lemma {:induction false} PlainIsCopied(s: Text)
    requires forall i | 0 <= i < |s| :: Verbatim(s[i])
    ensures EscapeBody(s) == s
  {
    if s != [] {
      PlainIsCopied(s[1..]);
      assert s == [s[0]] + s[1..];
    }
  }

  function Units(s: string): Text {
    seq(|s|, i requires 0 <= i < |s| => if s[i] as int < 128 then s[i] as int else 0)
  }

  lemma HexIsLower(c: CodeUnit)
    ensures |HexEscape(c)| == 6 && HexEscape(c)[..2] == Units("\\u")
    ensures forall i | 2 <= i < 6 :: HexEscape(c)[i] in Units("0123456789abcdef")
  {
    var hex := Units("0123456789abcdef");
    assert |hex| == 16 && forall n | 0 <= n < 16 :: hex[n] == HexDigit(n);
    assert HexEscape(c)[2] == hex[c / 4096] && HexEscape(c)[3] == hex[c / 256 % 16];
    assert HexEscape(c)[4] == hex[c / 16 % 16] && HexEscape(c)[5] == hex[c % 16];
  }

  lemma OneEscaped(c: CodeUnit)
    ensures EscapeBody([c]) == EscapeUnit(c)
  {
    assert [c][1..] == [];
  }

  /** Quotes, backslashes and five control characters have an escape of two characters. */
  lemma EscapesAreShort()
    ensures EscapeBody([34]) == Units("\\\"") && EscapeBody([92]) == Units("\\\\")
    ensures EscapeBody([8]) == Units("\\b") && EscapeBody([9]) == Units("\\t") && EscapeBody([10]) == Units("\\n")
    ensures EscapeBody([12]) == Units("\\f") && EscapeBody([13]) == Units("\\r")
  {
    forall c: CodeUnit ensures EscapeBody([c]) == EscapeUnit(c) {
      OneEscaped(c);
    }
  }

  /** The other control characters and lone surrogates have one of six characters, in lower case. */
  lemma EscapesAreLower(c: CodeUnit)
    requires (c < 32 && c !in {8, 9, 10, 12, 13}) || 0xD800 <= c <= 0xDFFF
    ensures |EscapeBody([c])| == 6 && EscapeBody([c])[..2] == Units("\\u")
    ensures forall i | 2 <= i < 6 :: EscapeBody([c])[i] in Units("0123456789abcdef")
  {
    OneEscaped(c);
    HexIsLower(c);
  }
}
