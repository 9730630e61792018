/** The printers of the core CLI and the way back through the reader. */
module JsonPrinter {
  import opened Common
  import opened JsonText
  import opened JsonReader

  // ---- strings --------------------------------------------------------------------------------

  /** How json_escape writes one character. */
  function PieceOf(ch: char): Piece {
    match ch
    case '\\' => Escaped('\\')
    case '"' => Escaped('"')
    case '\n' => Escaped('n')
    case '\r' => Escaped('r')
    case '\t' => Escaped('t')
    case _ => Raw(ch)
  }

  function PiecesOf(s: string): seq<Piece> {
    if s == "" then [] else [PieceOf(s[0])] + PiecesOf(s[1..])
  }

  /** Escaping writes a literal that means the string. */
  lemma {:induction false} PiecesOfMeans(s: string)
    ensures ValidPieces(PiecesOf(s)) && PiecesMeaning(PiecesOf(s)) == s
  {
    if s != "" {
      PiecesOfMeans(s[1..]);
      var ps := PiecesOf(s);
      assert ps[0] == PieceOf(s[0]) && ps[1..] == PiecesOf(s[1..]);
      assert ValidPiece(ps[0]) && PieceMeaning(ps[0]) == s[0];
      assert s == [s[0]] + s[1..];
    }
  }

  lemma {:induction false} PiecesTextSnoc(s: string, ch: char)
    ensures PiecesText(PiecesOf(s + [ch])) == PiecesText(PiecesOf(s)) + PieceText(PieceOf(ch))
  {
    if s == "" {
      assert s + [ch] == [ch] && PiecesOf([ch]) == [PieceOf(ch)];
      assert PiecesText([PieceOf(ch)]) == PieceText(PieceOf(ch)) + "";
    } else {
      PiecesTextSnoc(s[1..], ch);
      assert (s + [ch])[1..] == s[1..] + [ch];
      assert PiecesOf(s + [ch])[1..] == PiecesOf(s[1..] + [ch]) && PiecesOf(s)[1..] == PiecesOf(s[1..]);
      Flatten(PieceText(PieceOf(s[0])), PiecesText(PiecesOf(s[1..])), "", PieceText(PieceOf(ch)));
    }
  }

  method JsonEscape(value: string) returns (escaped: string)
    ensures escaped == PiecesText(PiecesOf(value))
  {
    escaped := "";
    for index := 0 to |value|
      invariant escaped == PiecesText(PiecesOf(value[..index]))
    {
      var ch := value[index];
      PiecesTextSnoc(value[..index], ch);
      assert value[..index] + [ch] == value[..index + 1];
      match ch {
        case '\\' => escaped := escaped + "\\\\";
        case '"' => escaped := escaped + "\\\"";
        case '\n' => escaped := escaped + "\\n";
        case '\r' => escaped := escaped + "\\r";
        case '\t' => escaped := escaped + "\\t";
        case _ => escaped := escaped + [ch];
      }
    }
    assert value[..|value|] == value;
  }

  function StringToJson(value: string): string {
    Quoted(PiecesOf(value))
  }

  method JsonString(value: string) returns (text: string)
    ensures text == StringToJson(value)
  {
    var escaped := JsonEscape(value);
    text := "\"" + escaped + "\"";
  }

  // ---- arrays ---------------------------------------------------------------------------------

  /** The comma-separated strings of an array, without its brackets. */
  function JoinStrings(values: seq<string>): string {
    if values == [] then ""
    else if |values| == 1 then StringToJson(values[0])
    else JoinStrings(values[..|values| - 1]) + "," + StringToJson(values[|values| - 1])
  }

  function ArrayToJson(values: seq<string>): string {
    "[" + JoinStrings(values) + "]"
  }

  method JsonStringArray(values: seq<string>) returns (output: string)
    ensures output == ArrayToJson(values)
  {
    output := "[";
    for index := 0 to |values|
      invariant output == "[" + JoinStrings(values[..index])
    {
      assert values[..index + 1][..index] == values[..index];
      if index != 0 {
        output := output + [','];
      }
      var text := JsonString(values[index]);
      Flatten("[", JoinStrings(values[..index]), ",", text);
      output := output + text;
    }
    assert values[..|values|] == values;
    output := output + [']'];
  }

  function ItemsOf(values: seq<string>): seq<Item> {
    seq(|values|, i requires 0 <= i < |values| => Item("", PiecesOf(values[i]), ""))
  }

  lemma CompactItemText(s: string)
    ensures ItemText(Item("", PiecesOf(s), "")) == StringToJson(s)
  {
  }

  lemma JoinLast(values: seq<string>, last: string)
    requires values != []
    ensures JoinStrings(values + [last]) == JoinStrings(values) + "," + StringToJson(last)
  {
    assert (values + [last])[..|values|] == values;
  }

  lemma CommaMoves(a: string, b: string, c: string)
    ensures a + "," + b + "," + c == a + "," + (b + "," + c)
  {
  }

  /** Joining from the front and from the back gives the same text. */
  lemma {:induction false} JoinFront(first: string, values: seq<string>)
    requires values != []
    ensures JoinStrings([first] + values) == StringToJson(first) + "," + JoinStrings(values)
    decreases |values|
  {
    var n := |values| - 1;
    var front, last := values[..n], values[n];
    assert values == front + [last];
    assert [first] + values == [first] + front + [last];
    JoinLast([first] + front, last);
    if n == 0 {
      assert [first] + front == [first];
    } else {
      JoinFront(first, front);
      JoinLast(front, last);
      CommaMoves(StringToJson(first), JoinStrings(front), StringToJson(last));
    }
  }

  lemma {:induction false} CompactItemsText(values: seq<string>)
    requires values != []
    ensures ItemsText(ItemsOf(values)) == JoinStrings(values) + "]"
  {
    var items := ItemsOf(values);
    CompactItemText(values[0]);
    if |values| > 1 {
      assert items[1..] == ItemsOf(values[1..]);
      CompactItemsText(values[1..]);
      JoinFront(values[0], values[1..]);
      assert [values[0]] + values[1..] == values;
      Flatten(StringToJson(values[0]), ",", JoinStrings(values[1..]), "]");
    }
  }

  // ---- numbers --------------------------------------------------------------------------------

  function DigitChar(d: nat): (ch: char)
    requires d < 10
    ensures IsDigit(ch) && ch as int - '0' as int == d
  {
    ('0' as int + d) as char
  }

  function NatText(n: nat): (s: string)
    ensures s != "" && AllDigits(s)
  {
    if n < 10 then [DigitChar(n)] else NatText(n / 10) + [DigitChar(n % 10)]
  }

  /** std::to_string. */
  function NumberToJson(n: int): string {
    if n < 0 then "-" + NatText(-n) else NatText(n)
  }

  lemma {:induction false} NatTextMeans(n: nat)
    ensures DigitsValue(NatText(n)) == n
  {
    var s := NatText(n);
    if n >= 10 {
      NatTextMeans(n / 10);
      assert s[..|s| - 1] == NatText(n / 10) && s[|s| - 1] == DigitChar(n % 10);
    } else {
      assert s[..0] == "";
    }
  }

  // ---- any value, any whitespace ----------------------------------------------------------------

  predicate Printable(j: JsonValue) {
    j.JNumber? ==> INT64_MIN <= j.number <= INT64_MAX
  }

  /** `v` is the value as the printers write it, with any whitespace inside an array. */
  predicate Prints(v: ValueText, j: JsonValue) {
    match j
    case JString(text) => v == StringText(PiecesOf(text))
    case JArray(items) =>
      if items == [] then v.EmptyArrayText? && AllWs(v.space)
      else
        && v.ArrayText? && |v.items| == |items|
        && forall i :: 0 <= i < |items| ==>
            v.items[i].pieces == PiecesOf(items[i]) && AllWs(v.items[i].lead) && AllWs(v.items[i].trail)
    case JNull => v == NullText
    case JBool(value) => v == BoolText(value)
    case JNumber(n) => v == NumberText(n < 0, NatText(if n < 0 then -n else n))
  }

  lemma {:induction false} PrintedItemsMean(items: seq<Item>, values: seq<string>)
    requires |items| == |values|
    requires forall i :: 0 <= i < |items| ==>
            items[i].pieces == PiecesOf(values[i]) && AllWs(items[i].lead) && AllWs(items[i].trail)
    ensures ValidItems(items) && ItemsMeaning(items) == values
  {
    if items != [] {
      PrintedItemsMean(items[1..], values[1..]);
      PiecesOfMeans(values[0]);
      assert items == [items[0]] + items[1..] && values == [values[0]] + values[1..];
    }
  }

  lemma PrintedValueMeans(v: ValueText, j: JsonValue)
    requires Printable(j) && Prints(v, j)
    ensures ValidValue(v) && ValueMeaning(v) == j
  {
    match j
    case JString(text) => PiecesOfMeans(text);
    case JArray(items) =>
      if items != [] {
        PrintedItemsMean(v.items, items);
      }
    case JNumber(n) => NatTextMeans(if n < 0 then -n else n);
    case _ =>
  }

  predicate PrintsMember(m: Member, pair: (string, JsonValue)) {
    && AllWs(m.lead) && AllWs(m.beforeColon) && AllWs(m.afterColon) && AllWs(m.trail)
    && m.key == PiecesOf(pair.0) && Prints(m.value, pair.1)
  }

  lemma {:induction false} PrintedMembersMean(ms: seq<Member>, pairs: Pairs)
    requires |ms| == |pairs|
    requires forall i :: 0 <= i < |ms| ==> Printable(pairs[i].1) && PrintsMember(ms[i], pairs[i])
    ensures ValidMembers(ms) && MembersMeaning(ms) == pairs
  {
    if ms != [] {
      PrintedMembersMean(ms[1..], pairs[1..]);
      PiecesOfMeans(pairs[0].0);
      PrintedValueMeans(ms[0].value, pairs[0].1);
      assert ms == [ms[0]] + ms[1..] && pairs == [pairs[0]] + pairs[1..];
    }
  }

  /**
   Any list of keys and values, printed by the printers with any whitespace between the tokens, is
   read back whole as the map in which the last value of each key wins.
   */
  lemma PrintedReadsBack(d: Document, pairs: Pairs)
    requires AllWs(d.lead) && AllWs(d.trail) && (if pairs == [] then AllWs(d.inner) else d.inner == "")
    requires |d.members| == |pairs|
    requires forall i :: 0 <= i < |pairs| ==> Printable(pairs[i].1) && PrintsMember(d.members[i], pairs[i])
    ensures ValidDocument(d) && ReadObject(DocumentText(d)) == Some(LastWins(pairs))
  {
    PrintedMembersMean(d.members, pairs);
    ReadsDocument(d);
  }

  // ---- the objects the CLI answers with ------------------------------------------------------------

  function ValueToJson(j: JsonValue): string {
    match j
    case JString(text) => StringToJson(text)
    case JArray(items) => ArrayToJson(items)
    case JNull => "null"
    case JBool(value) => if value then "true" else "false"
    case JNumber(n) => NumberToJson(n)
  }

  /** A key that json_escape would leave as it is, as the CLI's literal keys are. */
  predicate PlainKey(key: string) {
    forall i :: 0 <= i < |key| ==> PieceOf(key[i]).Raw?
  }

  function FieldText(pair: (string, JsonValue)): string {
    "\"" + pair.0 + "\":" + ValueToJson(pair.1)
  }

  /** Fields from the first to the closing brace. */
  function FieldsText(pairs: Pairs): string
    requires pairs != []
  {
    if |pairs| == 1 then FieldText(pairs[0]) + "}" else FieldText(pairs[0]) + "," + FieldsText(pairs[1..])
  }

  function FlatObject(pairs: Pairs): string
    requires pairs != []
  {
    "{" + FieldsText(pairs)
  }

  lemma RawPiece(ch: char)
    requires PieceOf(ch).Raw?
    ensures PieceOf(ch) == Raw(ch)
  {
  }

  lemma ConsPiece(p: Piece, ps: seq<Piece>)
    ensures PiecesText([p] + ps) == PieceText(p) + PiecesText(ps)
  {
    assert ([p] + ps)[1..] == ps;
  }

  lemma {:induction false} PlainKeyText(key: string)
    requires PlainKey(key)
    ensures PiecesText(PiecesOf(key)) == key
  {
    if key != "" {
      PlainKeyText(key[1..]);
      RawPiece(key[0]);
      ConsPiece(Raw(key[0]), PiecesOf(key[1..]));
      assert key == [key[0]] + key[1..];
    }
  }

  /** The grammar's text of a value that the printers write without whitespace. */
  function CompactValue(j: JsonValue): ValueText {
    match j
    case JString(text) => StringText(PiecesOf(text))
    case JArray(items) => if items == [] then EmptyArrayText("") else ArrayText(ItemsOf(items))
    case JNull => NullText
    case JBool(value) => BoolText(value)
    case JNumber(n) => NumberText(n < 0, NatText(if n < 0 then -n else n))
  }

  lemma CompactValueText(j: JsonValue)
    requires Printable(j)
    ensures Prints(CompactValue(j), j) && ValidValue(CompactValue(j)) && ValueToText(CompactValue(j)) == ValueToJson(j)
  {
    PrintedValueMeans(CompactValue(j), j);
    if j.JArray? && j.items != [] {
      CompactItemsText(j.items);
      Flatten("[", JoinStrings(j.items), "", "]");
    }
  }

  function CompactMember(pair: (string, JsonValue)): Member {
    Member("", PiecesOf(pair.0), "", "", CompactValue(pair.1), "")
  }

  function CompactMembers(pairs: Pairs): seq<Member> {
    seq(|pairs|, i requires 0 <= i < |pairs| => CompactMember(pairs[i]))
  }

  predicate PrintablePair(pair: (string, JsonValue)) {
    PlainKey(pair.0) && Printable(pair.1)
  }

  lemma CompactMemberText(pair: (string, JsonValue))
    requires PrintablePair(pair)
    ensures PrintsMember(CompactMember(pair), pair)
    ensures ValidMember(CompactMember(pair)) && MemberText(CompactMember(pair)) == FieldText(pair)
  {
    CompactValueText(pair.1);
    PlainKeyText(pair.0);
    PiecesOfMeans(pair.0);
    CompactText(PiecesText(PiecesOf(pair.0)), ValueToText(CompactValue(pair.1)));
  }

  lemma CompactText(key: string, value: string)
    ensures "" + ("\"" + key + "\"") + "" + ":" + "" + value + "" == "\"" + key + "\":" + value
  {
    assert "\"" + ":" == "\":";
    Associate("\"" + key, "\"", ":");
  }

  lemma {:induction false} CompactMembersText(pairs: Pairs)
    requires pairs != []
    requires forall i :: 0 <= i < |pairs| ==> PrintablePair(pairs[i])
    ensures ValidMembers(CompactMembers(pairs)) && MembersText(CompactMembers(pairs)) == FieldsText(pairs)
  {
    var ms := CompactMembers(pairs);
    forall i | 0 <= i < |pairs| ensures ValidMember(ms[i]) {
      CompactMemberText(pairs[i]);
    }
    CompactMemberText(pairs[0]);
    if |pairs| > 1 {
      CompactTail(pairs);
      CompactMembersText(pairs[1..]);
    }
  }

  lemma CompactTail(pairs: Pairs)
    requires |pairs| > 1
    ensures CompactMembers(pairs)[0] == CompactMember(pairs[0])
    ensures CompactMembers(pairs)[1..] == CompactMembers(pairs[1..])
  {
  }

  lemma CompactDocumentText(pairs: Pairs)
    requires pairs != []
    requires forall i :: 0 <= i < |pairs| ==> PrintablePair(pairs[i])
    ensures ValidMembers(CompactMembers(pairs))
    ensures DocumentText(Document("", "", CompactMembers(pairs), "")) == FlatObject(pairs)
  {
    CompactMembersText(pairs);
    NothingAround(FieldsText(pairs));
  }

  lemma NothingAround(body: string)
    ensures "" + "{" + body + "" == "{" + body
  {
  }

  lemma CompactPrints(pairs: Pairs, i: nat)
    requires i < |pairs| && PrintablePair(pairs[i])
    ensures Printable(pairs[i].1) && PrintsMember(CompactMembers(pairs)[i], pairs[i])
  {
    CompactMemberText(pairs[i]);
  }

  /** Every object the CLI prints is read back as its fields, the last of a repeated key winning. */
  lemma FlatObjectReadsBack(pairs: Pairs)
    requires pairs != []
    requires forall i :: 0 <= i < |pairs| ==> PrintablePair(pairs[i])
    ensures ReadObject(FlatObject(pairs)) == Some(LastWins(pairs))
  {
    CompactDocumentText(pairs);
    forall i | 0 <= i < |pairs| ensures Printable(pairs[i].1) && PrintsMember(CompactMembers(pairs)[i], pairs[i]) {
      CompactPrints(pairs, i);
    }
    PrintedReadsBack(Document("", "", CompactMembers(pairs), ""), pairs);
  }

  // ---- the same text, written from left to right ------------------------------------------------------

  /** `text` holds the first `k` fields of the object and nothing behind them. */
  predicate WrittenUpTo(text: string, pairs: Pairs, k: nat)
    requires 0 < k <= |pairs|
  {
    FlatObject(pairs) == if k == |pairs| then text + "}" else text + "," + FieldsText(pairs[k..])
  }

  lemma NextField(text: string, pairs: Pairs, k: nat, field: string)
    requires 0 < k < |pairs| && WrittenUpTo(text, pairs, k) && field == FieldText(pairs[k])
    ensures WrittenUpTo(text + "," + field, pairs, k + 1)
  {
    if k + 1 < |pairs| {
      assert pairs[k..][1..] == pairs[k + 1..];
      CommaMoves(text, field, FieldsText(pairs[k + 1..]));
    } else {
      CommaMovesOver(text, field, "}");
    }
  }

  lemma CommaMovesOver(a: string, b: string, c: string)
    ensures a + "," + b + c == a + "," + (b + c)
  {
  }

  lemma FirstField(pairs: Pairs, field: string)
    requires pairs != [] && field == FieldText(pairs[0])
    ensures WrittenUpTo("{" + field, pairs, 1)
  {
    if |pairs| > 1 {
      CommaMovesBrace(field, FieldsText(pairs[1..]));
    }
  }

  lemma CommaMovesBrace(a: string, b: string)
    ensures "{" + (a + "," + b) == "{" + a + "," + b
  {
  }

  method BeginObject(key: string, value: string, ghost pairs: Pairs) returns (text: string)
    requires pairs != [] && pairs[0].0 == key && value == ValueToJson(pairs[0].1)
    ensures WrittenUpTo(text, pairs, 1)
  {
    var field := "\"" + key + "\":" + value;
    FirstField(pairs, field);
    text := "{" + field;
  }

  method AddField(before: string, key: string, value: string, ghost pairs: Pairs, ghost k: nat) returns (text: string)
    requires 0 < k < |pairs| && pairs[k].0 == key && value == ValueToJson(pairs[k].1) && WrittenUpTo(before, pairs, k)
    ensures WrittenUpTo(text, pairs, k + 1)
  {
    var field := "\"" + key + "\":" + value;
    NextField(before, pairs, k, field);
    text := before + "," + field;
  }
}
