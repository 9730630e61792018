/** The reader as functions on the text still to be read, and what it accepts. */
module JsonReader {
  import opened Common
  import opened JsonText

  function SkipWs(s: string): (r: string)
    ensures |r| <= |s|
  {
    if s != "" && IsWs(s[0]) then SkipWs(s[1..]) else s
  }

  /** Skip whitespace, then take one expected character. */
  function Expect(s: string, ch: char): (r: Option<string>)
    ensures r.Some? ==> |r.value| < |s|
  {
    var t := SkipWs(s);
    if t != "" && t[0] == ch then Some(t[1..]) else None
  }

  /** The characters up to the closing quote. */
  function StringBody(s: string): (r: Option<(string, string)>)
    ensures r.Some? ==> |r.value.1| < |s|
  {
    if s == "" then None
    else if s[0] == '"' then Some(("", s[1..]))
    else if s[0] != '\\' then
      match StringBody(s[1..])
      case None => None
      case Some((value, rest)) => Some(([s[0]] + value, rest))
    else if |s| == 1 || Unescape(s[1]) == None then None
    else
      match StringBody(s[2..])
      case None => None
      case Some((value, rest)) => Some(([Unescape(s[1]).value] + value, rest))
  }

  /** The five escapes and what they stand for; a backslash before any other letter is refused. */
  lemma EscapesAre(letter: char, t: string)
    ensures StringBody(['\\', letter] + t).Some? <==>
            letter in {'\\', '"', 'n', 'r', 't'} && StringBody(t).Some?
    ensures StringBody(['\\', letter] + t).Some? ==>
              var (value, rest) := StringBody(t).value;
              var meant := if letter == 'n' then '\n' else if letter == 'r' then '\r' else if letter == 't' then '\t'
                           else letter;
              StringBody(['\\', letter] + t) == Some(([meant] + value, rest))
  {
    assert (['\\', letter] + t)[2..] == t;
  }

  /** Any other character stands for itself, up to the closing quote. */
  lemma PlainCharactersAre(ch: char, t: string)
    ensures StringBody(['"'] + t) == Some(("", t))
    ensures ch != '"' && ch != '\\' ==>
              (StringBody([ch] + t).Some? <==> StringBody(t).Some?) &&
              (StringBody(t).Some? ==>
                 StringBody([ch] + t) == Some(([ch] + StringBody(t).value.0, StringBody(t).value.1)))
  {
    assert ([ch] + t)[1..] == t && (['"'] + t)[1..] == t;
  }

  function ReadString(s: string): (r: Option<(string, string)>)
    ensures r.Some? ==> |r.value.1| < |s|
  {
    match Expect(s, '"')
    case None => None
    case Some(t) => StringBody(t)
  }

  /** Array items after the opening bracket, at least one. */
  function ReadItems(s: string): (r: Option<(seq<string>, string)>)
    ensures r.Some? ==> |r.value.1| < |s|
    decreases |s|
  {
    match ReadString(s)
    case None => None
    case Some((value, rest)) =>
      if Expect(rest, ']').Some? then Some(([value], Expect(rest, ']').value))
      else if Expect(rest, ',') == None then None
      else
        match ReadItems(Expect(rest, ',').value)
        case None => None
        case Some((values, end)) => Some(([value] + values, end))
  }

  function ReadArray(s: string): (r: Option<(seq<string>, string)>)
    ensures r.Some? ==> |r.value.1| < |s|
  {
    match Expect(s, '[')
    case None => None
    case Some(t) => if Expect(t, ']').Some? then Some(([], Expect(t, ']').value)) else ReadItems(t)
  }

  /** The length of the digit run at the front. */
  function DigitRun(s: string): (n: nat)
    ensures n <= |s| && AllDigits(s[..n])
    ensures n < |s| ==> !IsDigit(s[n])
  {
    if s == "" || !IsDigit(s[0]) then 0 else 1 + DigitRun(s[1..])
  }

  /** A digit run after an optional sign, refused when its value is no 64-bit number. */
  function ReadDigits(negative: bool, t: string): (r: Option<(int, string)>)
    ensures r.Some? ==> |r.value.1| < |t|
  {
    var n := DigitRun(t);
    var value := Signed(negative, DigitsValue(t[..n]));
    if n == 0 || value < INT64_MIN || value > INT64_MAX then None else Some((value, t[n..]))
  }

  function ReadInteger(s: string): (r: Option<(int, string)>)
    ensures r.Some? ==> |r.value.1| < |s|
  {
    if s != "" && s[0] == '-' then ReadDigits(true, s[1..]) else ReadDigits(false, s)
  }

  /** A value with no whitespace in front. */
  function ReadBareValue(t: string): (r: Option<(JsonValue, string)>)
    ensures r.Some? ==> |r.value.1| < |t|
  {
    if t == "" then None
    else if t[0] == '"' then
      match ReadString(t) case None => None case Some((text, rest)) => Some((JString(text), rest))
    else if t[0] == '[' then
      match ReadArray(t) case None => None case Some((items, rest)) => Some((JArray(items), rest))
    else if "null" <= t then Some((JNull, t[4..]))
    else if "true" <= t then Some((JBool(true), t[4..]))
    else if "false" <= t then Some((JBool(false), t[5..]))
    else if t[0] == '-' || IsDigit(t[0]) then
      match ReadInteger(t) case None => None case Some((number, rest)) => Some((JNumber(number), rest))
    else None
  }

  function ReadValue(s: string): (r: Option<(JsonValue, string)>)
    ensures r.Some? ==> |r.value.1| < |s|
  {
    ReadBareValue(SkipWs(s))
  }

  function ReadPair(s: string): (r: Option<((string, JsonValue), string)>)
    ensures r.Some? ==> |r.value.1| < |s|
  {
    match ReadString(s)
    case None => None
    case Some((key, rest)) =>
      match Expect(rest, ':')
      case None => None
      case Some(t) =>
        match ReadValue(t)
        case None => None
        case Some((value, end)) => Some(((key, value), end))
  }

  /** Members after the opening brace, at least one. */
  function ReadMembers(s: string): (r: Option<(Pairs, string)>)
    ensures r.Some? ==> |r.value.1| < |s|
    decreases |s|
  {
    match ReadPair(s)
    case None => None
    case Some((pair, rest)) =>
      if Expect(rest, '}').Some? then Some(([pair], Expect(rest, '}').value))
      else if Expect(rest, ',') == None then None
      else
        match ReadMembers(Expect(rest, ',').value)
        case None => None
        case Some((pairs, end)) => Some(([pair] + pairs, end))
  }

  function ReadPairs(s: string): Option<(Pairs, string)> {
    match Expect(s, '{')
    case None => None
    case Some(t) => if Expect(t, '}').Some? then Some(([], Expect(t, '}').value)) else ReadMembers(t)
  }

  /** The whole text must be one object. */
  function ReadObject(s: string): Option<JsonObject> {
    match ReadPairs(s)
    case None => None
    case Some((pairs, rest)) => if SkipWs(rest) == "" then Some(LastWins(pairs)) else None
  }

  // ---- every document is read back ----------------------------------------------------------------

  lemma {:induction false} SkipsWs(ws: string, t: string)
    requires AllWs(ws) && (t == "" || !IsWs(t[0]))
    ensures SkipWs(ws + t) == t
  {
    if ws == "" {
      assert ws + t == t;
    } else {
      SkipsWs(ws[1..], t);
      assert (ws + t)[1..] == ws[1..] + t;
    }
  }

  lemma ExpectFinds(ws: string, ch: char, rest: string)
    requires AllWs(ws) && !IsWs(ch)
    ensures Expect(ws + [ch] + rest, ch) == Some(rest)
    ensures forall other :: other != ch ==> Expect(ws + [ch] + rest, other) == None
  {
    SkipsWs(ws, [ch] + rest);
    assert ws + [ch] + rest == ws + ([ch] + rest);
  }

  lemma {:induction false} ReadsPieces(ps: seq<Piece>, rest: string)
    requires ValidPieces(ps)
    ensures StringBody(PiecesText(ps) + "\"" + rest) == Some((PiecesMeaning(ps), rest))
  {
    if ps == [] {
      assert PiecesText(ps) + "\"" + rest == "\"" + rest;
    } else {
      var tail := PiecesText(ps[1..]) + "\"" + rest;
      ReadsPieces(ps[1..], rest);
      var s := PiecesText(ps) + "\"" + rest;
      assert ValidPiece(ps[0]);
      assert s == PieceText(ps[0]) + tail;
      match ps[0]
      case Raw(ch) => assert s[1..] == tail;
      case Escaped(letter) => assert s[2..] == tail;
    }
  }

  lemma ReadsString(ws: string, ps: seq<Piece>, rest: string)
    requires AllWs(ws) && ValidPieces(ps)
    ensures ReadString(ws + Quoted(ps) + rest) == Some((PiecesMeaning(ps), rest))
  {
    var tail := PiecesText(ps) + "\"" + rest;
    ExpectFinds(ws, '"', tail);
    assert ws + Quoted(ps) + rest == ws + ['"'] + tail;
    ReadsPieces(ps, rest);
  }

  lemma {:induction false} ReadsItems(items: seq<Item>, rest: string)
    requires items != [] && ValidItems(items)
    ensures ReadItems(ItemsText(items) + rest) == Some((ItemsMeaning(items), rest))
  {
    var item := items[0];
    assert ValidItem(item);
    var s := ItemsText(items) + rest;
    if |items| == 1 {
      var tail := item.trail + "]" + rest;
      assert s == item.lead + Quoted(item.pieces) + tail;
      ReadsString(item.lead, item.pieces, tail);
      ExpectFinds(item.trail, ']', rest);
      assert ItemsMeaning(items) == [PiecesMeaning(item.pieces)];
    } else {
      var more := ItemsText(items[1..]) + rest;
      var tail := item.trail + "," + more;
      assert s == item.lead + Quoted(item.pieces) + tail;
      ReadsString(item.lead, item.pieces, tail);
      ExpectFinds(item.trail, ',', more);
      ReadsItems(items[1..], rest);
    }
  }

  lemma {:induction false} DigitRunOf(digits: string, rest: string)
    requires AllDigits(digits) && (rest == "" || !IsDigit(rest[0]))
    ensures DigitRun(digits + rest) == |digits|
  {
    if digits == "" {
      assert digits + rest == rest;
    } else {
      assert (digits + rest)[1..] == digits[1..] + rest;
      DigitRunOf(digits[1..], rest);
    }
  }

  lemma ReadsDigits(negative: bool, digits: string, rest: string)
    requires ValidValue(NumberText(negative, digits)) && (rest == "" || !IsDigit(rest[0]))
    ensures ReadDigits(negative, digits + rest) == Some((Signed(negative, DigitsValue(digits)), rest))
  {
    DigitRunOf(digits, rest);
    var t := digits + rest;
    assert t[..|digits|] == digits && t[|digits|..] == rest;
  }

  lemma BareNumber(s: string)
    requires s != "" && (s[0] == '-' || IsDigit(s[0]))
    ensures ReadBareValue(s) ==
            match ReadInteger(s) case None => None case Some((number, rest)) => Some((JNumber(number), rest))
  {
    assert "null"[0] == 'n' && "true"[0] == 't' && "false"[0] == 'f';
  }

  lemma AfterSign(s: string, t: string)
    requires s == "-" + t
    ensures s != "" && s[0] == '-' && s[1..] == t
  {
  }

  lemma ReadsInteger(negative: bool, digits: string, rest: string)
    requires ValidValue(NumberText(negative, digits)) && (rest == "" || !IsDigit(rest[0]))
    ensures ReadInteger((if negative then "-" else "") + digits + rest) ==
            Some((Signed(negative, DigitsValue(digits)), rest))
  {
    ReadsDigits(negative, digits, rest);
    var t := digits + rest;
    if negative {
      Associate("-", digits, rest);
      AfterSign("-" + t, t);
    } else {
      assert "" + digits == digits;
      assert t[0] == digits[0];
    }
  }

  lemma ReadsNumber(negative: bool, digits: string, rest: string)
    requires ValidValue(NumberText(negative, digits)) && (rest == "" || !IsDigit(rest[0]))
    ensures ReadBareValue((if negative then "-" else "") + digits + rest) ==
            Some((JNumber(Signed(negative, DigitsValue(digits))), rest))
  {
    var s := (if negative then "-" else "") + digits + rest;
    ReadsInteger(negative, digits, rest);
    assert s[0] == if negative then '-' else digits[0];
    BareNumber(s);
  }

  /** A value starts with a character that no whitespace precedes. */
  lemma ValueStart(v: ValueText)
    requires ValidValue(v)
    ensures ValueToText(v) != "" && !IsWs(ValueToText(v)[0])
  {
  }

  lemma ReadsEmptyArray(space: string, rest: string)
    requires AllWs(space)
    ensures ReadArray("[" + space + "]" + rest) == Some(([], rest))
  {
    var tail := space + "]" + rest;
    assert "[" + space + "]" + rest == "" + "[" + tail;
    ExpectFinds("", '[', tail);
    ExpectFinds(space, ']', rest);
  }

  lemma ReadsArrayItems(items: seq<Item>, rest: string)
    requires items != [] && ValidItems(items)
    ensures ReadArray("[" + ItemsText(items) + rest) == Some((ItemsMeaning(items), rest))
  {
    var tail := ItemsText(items) + rest;
    assert "[" + ItemsText(items) + rest == "" + "[" + tail;
    ExpectFinds("", '[', tail);
    ReadsItems(items, rest);
    FirstItemIsNoBracket(items, rest);
  }

  lemma FirstItemIsNoBracket(items: seq<Item>, rest: string)
    requires items != [] && ValidItems(items)
    ensures Expect(ItemsText(items) + rest, ']') == None
  {
    var item := items[0];
    assert ValidItem(item);
    var s := ItemsText(items) + rest;
    var tail := s[|item.lead| + 1..];
    assert s == item.lead + ['"'] + tail;
    ExpectFinds(item.lead, '"', tail);
  }

  lemma ReadsLiteral(v: ValueText, rest: string)
    requires v.NullText? || v.BoolText?
    ensures ReadBareValue(ValueToText(v) + rest) == Some((ValueMeaning(v), rest))
  {
    var s := ValueToText(v) + rest;
    assert s[0] == 'n' || s[0] == 't' || s[0] == 'f';
    assert s[|ValueToText(v)|..] == rest;
  }

  lemma ReadsStringValue(pieces: seq<Piece>, rest: string)
    requires ValidPieces(pieces)
    ensures ReadBareValue(Quoted(pieces) + rest) == Some((JString(PiecesMeaning(pieces)), rest))
  {
    var s := Quoted(pieces) + rest;
    assert s == "" + Quoted(pieces) + rest;
    assert s[0] == '"';
    ReadsString("", pieces, rest);
  }

  lemma ReadsBareValue(v: ValueText, rest: string)
    requires ValidValue(v) && (rest == "" || !IsDigit(rest[0]))
    ensures ReadBareValue(ValueToText(v) + rest) == Some((ValueMeaning(v), rest))
  {
    match v
    case StringText(pieces) => ReadsStringValue(pieces, rest);
    case ArrayText(items) => ReadsArrayItems(items, rest);
    case EmptyArrayText(space) => ReadsEmptyArray(space, rest);
    case NumberText(negative, digits) => ReadsNumber(negative, digits, rest);
    case _ => ReadsLiteral(v, rest);
  }

  lemma ReadsValue(ws: string, v: ValueText, rest: string)
    requires AllWs(ws) && ValidValue(v) && (rest == "" || !IsDigit(rest[0]))
    ensures ReadValue(ws + ValueToText(v) + rest) == Some((ValueMeaning(v), rest))
  {
    var s := ValueToText(v) + rest;
    ValueStart(v);
    SkipsWs(ws, s);
    assert ws + ValueToText(v) + rest == ws + s;
    ReadsBareValue(v, rest);
  }

  lemma ReadsMember(m: Member, rest: string)
    requires ValidMember(m) && (rest == "" || !IsDigit(rest[0]))
    ensures ReadPair(MemberText(m) + rest) == Some(((PiecesMeaning(m.key), ValueMeaning(m.value)), m.trail + rest))
  {
    var third := m.trail + rest;
    var second := m.afterColon + ValueToText(m.value) + third;
    var first := m.beforeColon + ":" + second;
    TakeApart(m.lead, Quoted(m.key), m.beforeColon, ":", m.afterColon, ValueToText(m.value), m.trail, rest);
    ReadsString(m.lead, m.key, first);
    ExpectFinds(m.beforeColon, ':', second);
    ReadsValue(m.afterColon, m.value, third);
  }

  /** A member followed by its separator. */
  lemma ReadsMemberThen(m: Member, ch: char, rest: string)
    requires ValidMember(m) && !IsDigit(ch) && !IsWs(ch)
    ensures ReadPair(MemberText(m) + ([ch] + rest)) ==
            Some(((PiecesMeaning(m.key), ValueMeaning(m.value)), m.trail + [ch] + rest))
    ensures Expect(m.trail + [ch] + rest, ch) == Some(rest)
    ensures forall other :: other != ch ==> Expect(m.trail + [ch] + rest, other) == None
  {
    ReadsMember(m, [ch] + rest);
    assert m.trail + ([ch] + rest) == m.trail + [ch] + rest;
    ExpectFinds(m.trail, ch, rest);
  }

  lemma SplitsMembersText(ms: seq<Member>, rest: string)
    requires ms != [] && ValidMembers(ms)
    ensures MembersText(ms) + rest
         == MemberText(ms[0]) + if |ms| == 1 then ['}'] + rest else [','] + (MembersText(ms[1..]) + rest)
  {
    if |ms| == 1 {
      Flatten(MemberText(ms[0]), "}", "", rest);
    } else {
      Flatten(MemberText(ms[0]), ",", MembersText(ms[1..]), rest);
    }
  }

  lemma {:induction false} ReadsMembers(ms: seq<Member>, rest: string)
    requires ms != [] && ValidMembers(ms)
    ensures ReadMembers(MembersText(ms) + rest) == Some((MembersMeaning(ms), rest))
  {
    var m := ms[0];
    assert ValidMember(m);
    SplitsMembersText(ms, rest);
    if |ms| == 1 {
      ReadsMemberThen(m, '}', rest);
      assert MembersMeaning(ms) == [(PiecesMeaning(m.key), ValueMeaning(m.value))];
    } else {
      var more := MembersText(ms[1..]) + rest;
      ReadsMemberThen(m, ',', more);
      ReadsMembers(ms[1..], rest);
    }
  }

  lemma FirstMemberIsNoBrace(ms: seq<Member>, rest: string)
    requires ms != [] && ValidMembers(ms)
    ensures Expect(MembersText(ms) + rest, '}') == None
  {
    var m := ms[0];
    assert ValidMember(m);
    var s := MembersText(ms) + rest;
    var tail := s[|m.lead| + 1..];
    assert s == m.lead + ['"'] + tail;
    ExpectFinds(m.lead, '"', tail);
  }

  /** Every document, with any whitespace between its tokens, is read as what it means. */
  lemma ReadsDocument(d: Document)
    requires ValidDocument(d)
    ensures ReadObject(DocumentText(d)) == Some(DocumentMeaning(d))
  {
    var s := DocumentText(d);
    if d.members == [] {
      var tail := d.inner + "}" + d.trail;
      assert s == d.lead + "{" + tail;
      ExpectFinds(d.lead, '{', tail);
      ExpectFinds(d.inner, '}', d.trail);
    } else {
      var tail := MembersText(d.members) + d.trail;
      assert s == d.lead + "{" + tail;
      ExpectFinds(d.lead, '{', tail);
      FirstMemberIsNoBrace(d.members, d.trail);
      ReadsMembers(d.members, d.trail);
    }
    SkipsWs(d.trail, "");
    assert d.trail + "" == d.trail;
  }
}
