/** JSON values, their canonical text and a reader for that text.

    A JavaScript string is a sequence of UTF-16 code units, so texts here are sequences of
    code units; strings are written as section 7 of RFC 8259 allows and ECMAScript prescribes. */
module JsonText {
  import opened Wrappers

  type CodeUnit = n: nat | n < 0x1_0000

  type Text = seq<CodeUnit>

  const QUOTE: CodeUnit := 34
  const COMMA: CodeUnit := 44
  const COLON: CodeUnit := 58
  const OPEN_BRACKET: CodeUnit := 91
  const BACKSLASH: CodeUnit := 92
  const CLOSE_BRACKET: CodeUnit := 93
  const OPEN_BRACE: CodeUnit := 123
  const CLOSE_BRACE: CodeUnit := 125
  const LETTER_U: CodeUnit := 117
  const NULL_TEXT: Text := [110, 117, 108, 108]
  const TRUE_TEXT: Text := [116, 114, 117, 101]
  const FALSE_TEXT: Text := [102, 97, 108, 115, 101]

  /** A value as `JSON.parse` delivers it. A number is identified with the text that
      `JSON.stringify` gives it; an object keeps its keys in insertion order. */
  datatype Json =
    | Null
    | Bool(b: bool)
    | Number(lexeme: Text)
    | String(s: Text)
    | Array(items: seq<Json>)
    | Object(fields: seq<Field>)

  datatype Field = Field(key: Text, value: Json)

  /** The same value with objects read as maps: what a text stands for. */
  datatype Meaning =
    | MNull
    | MBool(b: bool)
    | MNumber(lexeme: Text)
    | MString(s: Text)
    | MArray(items: seq<Meaning>)
    | MObject(members: map<Text, Meaning>)

  /** Digits, `+`, `-`, `.`, `e` and `E`. */
  predicate NumberUnit(c: CodeUnit) {
    48 <= c <= 57 || c == 43 || c == 45 || c == 46 || c == 69 || c == 101
  }

  predicate Lexeme(t: Text) {
    && t != []
    && (t[0] == 45 || 48 <= t[0] <= 57)
    && forall i | 0 <= i < |t| :: NumberUnit(t[i])
  }

  predicate DistinctKeys(fields: seq<Field>) {
    forall i, j | 0 <= i < j < |fields| :: fields[i].key != fields[j].key
  }

  /** What every parsed value satisfies: numbers print as numbers, keys do not repeat. */
  predicate WellFormed(v: Json) {
    match v
    case Number(lexeme) => Lexeme(lexeme)
    case Array(items) => forall i | 0 <= i < |items| :: WellFormed(items[i])
    case Object(fields) =>
      DistinctKeys(fields) && forall i | 0 <= i < |fields| :: WellFormed(fields[i].value)
    case _ => true
  }

  function Mean(v: Json): Meaning
    decreases v, 1
  {
    match v
    case Null => MNull
    case Bool(b) => MBool(b)
    case Number(lexeme) => MNumber(lexeme)
    case String(s) => MString(s)
    case Array(items) => MArray(MeanAll(items))
    case Object(fields) => MObject(MeanFields(fields))
  }

  function MeanAll(items: seq<Json>): seq<Meaning>
    decreases items, 0
  {
    if items == [] then [] else [Mean(items[0])] + MeanAll(items[1..])
  }

  function MeanFields(fields: seq<Field>): map<Text, Meaning>
    decreases fields, 0
  {
    if fields == [] then map[]
    else MeanFields(fields[1..])[fields[0].key := Mean(fields[0].value)]
  }

  // ----- Strings -----

  predicate HighSurrogate(c: CodeUnit) { 0xD800 <= c <= 0xDBFF }

  predicate LowSurrogate(c: CodeUnit) { 0xDC00 <= c <= 0xDFFF }

  function HexDigit(n: nat): CodeUnit
    requires n < 16
  {
    if n < 10 then 48 + n else 87 + n
  }

  function HexEscape(c: CodeUnit): Text {
    [BACKSLASH, LETTER_U, HexDigit(c / 4096), HexDigit(c / 256 % 16), HexDigit(c / 16 % 16), HexDigit(c % 16)]
  }

  /** The letter of a two-unit escape, if the unit has one. */
  function ShortEscape(c: CodeUnit): Option<CodeUnit> {
    if c == QUOTE || c == BACKSLASH then Some(c)
    else if c == 8 then Some(98)
    else if c == 12 then Some(102)
    else if c == 10 then Some(110)
    else if c == 13 then Some(114)
    else if c == 9 then Some(116)
    else None
  }

  function EscapeUnit(c: CodeUnit): Text {
    match ShortEscape(c)
    case Some(letter) => [BACKSLASH, letter]
    case None => if c < 32 || HighSurrogate(c) || LowSurrogate(c) then HexEscape(c) else [c]
  }

  /** A surrogate pair is copied, a lone surrogate is escaped. */
  function EscapeBody(s: Text): Text {
    if s == [] then []
    else if |s| >= 2 && HighSurrogate(s[0]) && LowSurrogate(s[1]) then s[..2] + EscapeBody(s[2..])
    else EscapeUnit(s[0]) + EscapeBody(s[1..])
  }

  /** `JSON.stringify` on a string. */
  function Quote(s: Text): Text {
    [QUOTE] + EscapeBody(s) + [QUOTE]
  }

  // ----- Printing -----

  type KeyOrder = (Text, Text) -> bool

  datatype Member = Member(key: Text, text: Text)

  function Insert(le: KeyOrder, m: Member, ms: seq<Member>): seq<Member> {
    if ms == [] || le(m.key, ms[0].key) then [m] + ms
    else [ms[0]] + Insert(le, m, ms[1..])
  }

  /** Stable, as `Array.prototype.sort` is. */
  function Sort(le: KeyOrder, ms: seq<Member>): seq<Member> {
    if ms == [] then [] else Insert(le, ms[0], Sort(le, ms[1..]))
  }

  function Join(parts: seq<Text>): Text {
    if parts == [] then []
    else if |parts| == 1 then parts[0]
    else parts[0] + [COMMA] + Join(parts[1..])
  }

  function MemberTexts(ms: seq<Member>): seq<Text> {
    if ms == [] then [] else [Quote(ms[0].key) + [COLON] + ms[0].text] + MemberTexts(ms[1..])
  }

  /** The canonical text of a value; the two copies in the program differ only in `le`. */
  function Print(le: KeyOrder, v: Json): Text
    decreases v, 1
  {
    match v
    case Null => NULL_TEXT
    case Bool(b) => if b then TRUE_TEXT else FALSE_TEXT
    case Number(lexeme) => lexeme
    case String(s) => Quote(s)
    case Array(items) => [OPEN_BRACKET] + Join(PrintAll(le, items)) + [CLOSE_BRACKET]
    case Object(fields) =>
      [OPEN_BRACE] + Join(MemberTexts(Sort(le, PrintFields(le, fields)))) + [CLOSE_BRACE]
  }

  function PrintAll(le: KeyOrder, items: seq<Json>): seq<Text>
    decreases items, 0
  {
    if items == [] then [] else [Print(le, items[0])] + PrintAll(le, items[1..])
  }

  function PrintFields(le: KeyOrder, fields: seq<Field>): seq<Member>
    decreases fields, 0
  {
    if fields == [] then []
    else [Member(fields[0].key, Print(le, fields[0].value))] + PrintFields(le, fields[1..])
  }

  // ----- Reading -----

  datatype Reading<+T> = Reading(value: T, rest: Text)

  function HexValue(c: CodeUnit): Option<nat> {
    if 48 <= c <= 57 then Some(c - 48)
    else if 97 <= c <= 102 then Some(c - 87)
    else if 65 <= c <= 70 then Some(c - 55)
    else None
  }

  function ReadHex(t: Text): Option<CodeUnit>
    requires |t| >= 4
  {
    match (HexValue(t[0]), HexValue(t[1]), HexValue(t[2]), HexValue(t[3]))
    case (Some(a), Some(b), Some(c), Some(d)) =>
      var n := 4096 * a + 256 * b + 16 * c + d;
      if n < 0x1_0000 then Some(n) else None
    case _ => None
  }

  function UnescapeLetter(c: CodeUnit): Option<CodeUnit> {
    if c == QUOTE || c == BACKSLASH || c == 47 then Some(c)
    else if c == 98 then Some(8)
    else if c == 102 then Some(12)
    else if c == 110 then Some(10)
    else if c == 114 then Some(13)
    else if c == 116 then Some(9)
    else None
  }

  /** Reads the rest of a string whose opening quote is already consumed. */
  function ReadString(t: Text): (r: Option<Reading<Text>>)
    ensures r.Some? ==> |r.value.rest| < |t|
  {
    if t == [] then None
    else if t[0] == QUOTE then Some(Reading([], t[1..]))
    else if t[0] == BACKSLASH then
      if |t| >= 6 && t[1] == LETTER_U && ReadHex(t[2..6]).Some? then
        Prepend(ReadHex(t[2..6]).value, ReadString(t[6..]))
      else if |t| >= 2 && UnescapeLetter(t[1]).Some? then
        Prepend(UnescapeLetter(t[1]).value, ReadString(t[2..]))
      else None
    else if t[0] < 32 then None
    else Prepend(t[0], ReadString(t[1..]))
  }

  function Prepend(c: CodeUnit, r: Option<Reading<Text>>): Option<Reading<Text>> {
    match r
    case None => None
    case Some(Reading(s, rest)) => Some(Reading([c] + s, rest))
  }

  function NumberRun(t: Text): (n: nat)
    ensures n <= |t|
  {
    if t == [] || !NumberUnit(t[0]) then 0 else 1 + NumberRun(t[1..])
  }

  /** Reads one value from the front of a text. */
  function ReadValue(t: Text): (r: Option<Reading<Meaning>>)
    ensures r.Some? ==> |r.value.rest| < |t|
    decreases |t|, 0
  {
    if NULL_TEXT <= t then Some(Reading(MNull, t[4..]))
    else if TRUE_TEXT <= t then Some(Reading(MBool(true), t[4..]))
    else if FALSE_TEXT <= t then Some(Reading(MBool(false), t[5..]))
    else if t == [] then None
    else if t[0] == QUOTE then
      match ReadString(t[1..])
      case None => None
      case Some(Reading(s, rest)) => Some(Reading(MString(s), rest))
    else if t[0] == OPEN_BRACKET then
      if |t| >= 2 && t[1] == CLOSE_BRACKET then Some(Reading(MArray([]), t[2..]))
      else ReadItems(t[1..], [])
    else if t[0] == OPEN_BRACE then
      if |t| >= 2 && t[1] == CLOSE_BRACE then Some(Reading(MObject(map[]), t[2..]))
      else ReadMembers(t[1..], map[])
    else if t[0] == 45 || 48 <= t[0] <= 57 then
      Some(Reading(MNumber(t[..NumberRun(t)]), t[NumberRun(t)..]))
    else None
  }

  function ReadItems(t: Text, seen: seq<Meaning>): (r: Option<Reading<Meaning>>)
    ensures r.Some? ==> |r.value.rest| < |t|
    decreases |t|, 1
  {
    match ReadValue(t)
    case None => None
    case Some(Reading(item, rest)) =>
      if rest == [] then None
      else if rest[0] == COMMA then ReadItems(rest[1..], seen + [item])
      else if rest[0] == CLOSE_BRACKET then Some(Reading(MArray(seen + [item]), rest[1..]))
      else None
  }

  function ReadMembers(t: Text, seen: map<Text, Meaning>): (r: Option<Reading<Meaning>>)
    ensures r.Some? ==> |r.value.rest| < |t|
    decreases |t|, 1
  {
    if t == [] || t[0] != QUOTE then None
    else
      match ReadString(t[1..])
      case None => None
      case Some(Reading(key, afterKey)) =>
        if afterKey == [] || afterKey[0] != COLON then None
        else
          match ReadValue(afterKey[1..])
          case None => None
          case Some(Reading(value, rest)) =>
            if rest == [] then None
            else if rest[0] == COMMA then ReadMembers(rest[1..], seen[key := value])
            else if rest[0] == CLOSE_BRACE then Some(Reading(MObject(seen[key := value]), rest[1..]))
            else None
  }

  /** Reads a whole text as one value. */
  function Read(t: Text): Option<Meaning> {
    match ReadValue(t)
    case Some(Reading(value, rest)) => if rest == [] then Some(value) else None
    case None => None
  }
}
