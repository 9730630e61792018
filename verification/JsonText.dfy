/** The JSON texts of the core CLI: how they are written down and what they mean. */
module JsonText {
  import opened Common

  const INT64_MIN: int := -0x8000_0000_0000_0000
  const INT64_MAX: int := 0x7fff_ffff_ffff_ffff

  datatype JsonValue =
    | JString(text: string)
    | JArray(items: seq<string>)
    | JNull
    | JBool(value: bool)
    | JNumber(number: int)

  type JsonObject = map<string, JsonValue>

  // ---- characters -----------------------------------------------------------------------------

  predicate IsWs(ch: char) {
    ch == ' ' || ch == '\n' || ch == '\r' || ch == '\t'
  }

  predicate AllWs(s: string) {
    forall i :: 0 <= i < |s| ==> IsWs(s[i])
  }

  predicate IsDigit(ch: char) {
    '0' <= ch <= '9'
  }

  predicate AllDigits(s: string) {
    forall i :: 0 <= i < |s| ==> IsDigit(s[i])
  }

  /** The character an escape letter stands for. */
  function Unescape(letter: char): Option<char> {
    match letter
    case '\\' => Some('\\')
    case '"' => Some('"')
    case 'n' => Some('\n')
    case 'r' => Some('\r')
    case 't' => Some('\t')
    case _ => None
  }

  // ---- string literals ------------------------------------------------------------------------

  /** One character of a string literal, as written. */
  datatype Piece = Raw(ch: char) | Escaped(letter: char)

  predicate ValidPiece(p: Piece) {
    match p
    case Raw(ch) => ch != '"' && ch != '\\'
    case Escaped(letter) => Unescape(letter).Some?
  }

  predicate ValidPieces(ps: seq<Piece>) {
    forall i :: 0 <= i < |ps| ==> ValidPiece(ps[i])
  }

  function PieceText(p: Piece): string {
    match p
    case Raw(ch) => [ch]
    case Escaped(letter) => ['\\', letter]
  }

  function PieceMeaning(p: Piece): char
    requires ValidPiece(p)
  {
    match p
    case Raw(ch) => ch
    case Escaped(letter) => Unescape(letter).value
  }

  function PiecesText(ps: seq<Piece>): string {
    if ps == [] then "" else PieceText(ps[0]) + PiecesText(ps[1..])
  }

  function PiecesMeaning(ps: seq<Piece>): string
    requires ValidPieces(ps)
  {
    if ps == [] then "" else [PieceMeaning(ps[0])] + PiecesMeaning(ps[1..])
  }

  function Quoted(ps: seq<Piece>): string {
    "\"" + PiecesText(ps) + "\""
  }

  // ---- numbers --------------------------------------------------------------------------------

  /** The number a digit run denotes. */
  function DigitsValue(digits: string): nat
    requires AllDigits(digits)
  {
    if digits == "" then 0
    else DigitsValue(digits[..|digits| - 1]) * 10 + (digits[|digits| - 1] as int - '0' as int)
  }

  function Signed(negative: bool, magnitude: nat): int {
    var m: int := magnitude;
    if negative then -m else m
  }

  // ---- values, members, documents -----------------------------------------------------------------

  /** A string in an array with the whitespace around it. */
  datatype Item = Item(lead: string, pieces: seq<Piece>, trail: string)

  predicate ValidItem(item: Item) {
    AllWs(item.lead) && ValidPieces(item.pieces) && AllWs(item.trail)
  }

  function ItemText(item: Item): string {
    item.lead + Quoted(item.pieces) + item.trail
  }

  predicate ValidItems(items: seq<Item>) {
    forall i :: 0 <= i < |items| ==> ValidItem(items[i])
  }

  /** Items from the first to the closing bracket. */
  function ItemsText(items: seq<Item>): string
    requires items != []
  {
    if |items| == 1 then ItemText(items[0]) + "]" else ItemText(items[0]) + "," + ItemsText(items[1..])
  }

  function ItemsMeaning(items: seq<Item>): seq<string>
    requires ValidItems(items)
  {
    if items == [] then [] else [PiecesMeaning(items[0].pieces)] + ItemsMeaning(items[1..])
  }

  datatype ValueText =
    | StringText(pieces: seq<Piece>)
    | ArrayText(items: seq<Item>)
    | EmptyArrayText(space: string)
    | NullText
    | BoolText(value: bool)
    | NumberText(negative: bool, digits: string)

  predicate ValidValue(v: ValueText) {
    match v
    case StringText(pieces) => ValidPieces(pieces)
    case ArrayText(items) => items != [] && ValidItems(items)
    case EmptyArrayText(space) => AllWs(space)
    case NumberText(negative, digits) =>
      digits != "" && AllDigits(digits) && INT64_MIN <= Signed(negative, DigitsValue(digits)) <= INT64_MAX
    case _ => true
  }

  function ValueToText(v: ValueText): string
    requires ValidValue(v)
  {
    match v
    case StringText(pieces) => Quoted(pieces)
    case ArrayText(items) => "[" + ItemsText(items)
    case EmptyArrayText(space) => "[" + space + "]"
    case NullText => "null"
    case BoolText(value) => if value then "true" else "false"
    case NumberText(negative, digits) => (if negative then "-" else "") + digits
  }

  function ValueMeaning(v: ValueText): JsonValue
    requires ValidValue(v)
  {
    match v
    case StringText(pieces) => JString(PiecesMeaning(pieces))
    case ArrayText(items) => JArray(ItemsMeaning(items))
    case EmptyArrayText(_) => JArray([])
    case NullText => JNull
    case BoolText(value) => JBool(value)
    case NumberText(negative, digits) => JNumber(Signed(negative, DigitsValue(digits)))
  }

  /** A key and its value with all whitespace between the tokens. */
  datatype Member = Member(lead: string, key: seq<Piece>, beforeColon: string, afterColon: string, value: ValueText,
                           trail: string)

  predicate ValidMember(m: Member) {
    && AllWs(m.lead) && AllWs(m.beforeColon) && AllWs(m.afterColon) && AllWs(m.trail)
    && ValidPieces(m.key) && ValidValue(m.value)
  }

  predicate ValidMembers(ms: seq<Member>) {
    forall i :: 0 <= i < |ms| ==> ValidMember(ms[i])
  }

  function MemberText(m: Member): string
    requires ValidMember(m)
  {
    m.lead + Quoted(m.key) + m.beforeColon + ":" + m.afterColon + ValueToText(m.value) + m.trail
  }

  /** Members from the first to the closing brace. */
  function MembersText(ms: seq<Member>): string
    requires ms != [] && ValidMembers(ms)
  {
    if |ms| == 1 then MemberText(ms[0]) + "}" else MemberText(ms[0]) + "," + MembersText(ms[1..])
  }

  type Pairs = seq<(string, JsonValue)>

  function MembersMeaning(ms: seq<Member>): Pairs
    requires ValidMembers(ms)
  {
    if ms == [] then [] else [(PiecesMeaning(ms[0].key), ValueMeaning(ms[0].value))] + MembersMeaning(ms[1..])
  }

  /** A later member with the same key replaces an earlier one. */
  function LastWins(pairs: Pairs): JsonObject {
    if pairs == [] then map[]
    else LastWins(pairs[..|pairs| - 1])[pairs[|pairs| - 1].0 := pairs[|pairs| - 1].1]
  }

  /** A whole text: `inner` is the whitespace of an empty object. */
  datatype Document = Document(lead: string, inner: string, members: seq<Member>, trail: string)

  predicate ValidDocument(d: Document) {
    && AllWs(d.lead) && AllWs(d.inner) && AllWs(d.trail) && ValidMembers(d.members)
    && (d.members != [] ==> d.inner == "")
  }

  function DocumentText(d: Document): string
    requires ValidDocument(d)
  {
    d.lead + "{" + (if d.members == [] then d.inner + "}" else MembersText(d.members)) + d.trail
  }

  function DocumentMeaning(d: Document): JsonObject
    requires ValidDocument(d)
  {
    LastWins(MembersMeaning(d.members))
  }

  // ---- regrouping concatenations ------------------------------------------------------------------

  lemma Regroup(a: string, b: string, c: string, d: string)
    ensures a + (b + c + d) == a + b + (c + d)
  {
  }

  lemma Flatten(a: string, b: string, c: string, d: string)
    ensures a + b + c + d == a + (b + (c + d)) && a + b + d == a + (b + d)
  {
  }

  lemma Associate(a: string, b: string, c: string)
    ensures a + b + c == a + (b + c)
  {
  }

  /** Seven parts and a rest, taken apart two by two. */
  lemma TakeApart(a: string, b: string, c: string, d: string, e: string, f: string, g: string, h: string)
    ensures a + b + c + d + e + f + g + h == a + b + (c + d + (e + f + (g + h)))
  {
    Associate(a + b + c + d + e + f, g, h);
    Associate(a + b + c + d, e, f);
    Associate(a + b + c + d, e + f, g + h);
    Associate(a + b, c, d);
    Associate(a + b, c + d, e + f + (g + h));
  }

  lemma RegroupAll(a: string, b: string, c: string, d: string)
    ensures a + (b + (c + d)) == a + (b + c) + d
    ensures c == "" ==> b + (c + d) == b + d && b + c == b
  {
  }
}
