/** Every text the reader accepts is a document, and is read as what that document means. */
module JsonAccepts {
  import opened Common
  import opened JsonText
  import opened JsonReader

  lemma {:induction false} SplitWs(s: string) returns (ws: string)
    ensures AllWs(ws) && s == ws + SkipWs(s)
  {
    if s != "" && IsWs(s[0]) {
      var tail := SplitWs(s[1..]);
      ws := [s[0]] + tail;
      assert s == [s[0]] + s[1..];
    } else {
      ws := "";
      assert s == "" + s;
    }
  }

  lemma SplitExpect(s: string, ch: char) returns (ws: string)
    requires Expect(s, ch).Some?
    ensures AllWs(ws) && s == ws + [ch] + Expect(s, ch).value
  {
    ws := SplitWs(s);
    var t := SkipWs(s);
    assert t == [ch] + t[1..];
    assert ws + ([ch] + t[1..]) == ws + [ch] + t[1..];
  }

  lemma {:induction false} SplitBody(s: string) returns (ps: seq<Piece>)
    requires StringBody(s).Some?
    ensures ValidPieces(ps) && s == PiecesText(ps) + "\"" + StringBody(s).value.1
    ensures PiecesMeaning(ps) == StringBody(s).value.0
    decreases |s|
  {
    if s[0] == '"' {
      ps := [];
      assert s == "" + "\"" + s[1..];
    } else {
      var p := if s[0] != '\\' then Raw(s[0]) else Escaped(s[1]);
      var tail := s[|PieceText(p)|..];
      var more := SplitBody(tail);
      ps := [p] + more;
      assert ps[1..] == more;
      assert s == PieceText(p) + tail;
      assert PieceText(p) + (PiecesText(more) + "\"" + StringBody(tail).value.1)
          == PiecesText(ps) + "\"" + StringBody(tail).value.1;
    }
  }

  lemma SplitString(s: string) returns (ws: string, ps: seq<Piece>)
    requires ReadString(s).Some?
    ensures AllWs(ws) && ValidPieces(ps) && s == ws + Quoted(ps) + ReadString(s).value.1
    ensures PiecesMeaning(ps) == ReadString(s).value.0
  {
    ws := SplitExpect(s, '"');
    var t := Expect(s, '"').value;
    ps := SplitBody(t);
    var rest := StringBody(t).value.1;
    assert ws + ['"'] + (PiecesText(ps) + "\"" + rest) == ws + Quoted(ps) + rest;
  }

  lemma ConsItems(item: Item, more: seq<Item>)
    requires ValidItem(item) && ValidItems(more)
    ensures ValidItems([item] + more)
    ensures ItemsMeaning([item] + more) == [PiecesMeaning(item.pieces)] + ItemsMeaning(more)
    ensures ItemsText([item] + more) == ItemText(item) + if more == [] then "]" else "," + ItemsText(more)
  {
    assert ([item] + more)[1..] == more;
    if more != [] {
      assert ItemText(item) + "," + ItemsText(more) == ItemText(item) + ("," + ItemsText(more));
    }
  }

  /** One item and the character behind it. */
  lemma SplitItem(s: string, closing: char) returns (item: Item)
    requires ReadString(s).Some? && Expect(ReadString(s).value.1, closing).Some?
    ensures ValidItem(item) && PiecesMeaning(item.pieces) == ReadString(s).value.0
    ensures s == ItemText(item) + ([closing] + Expect(ReadString(s).value.1, closing).value)
  {
    var lead, pieces := SplitString(s);
    var rest := ReadString(s).value.1;
    var trail := SplitExpect(rest, closing);
    item := Item(lead, pieces, trail);
    Regroup(lead + Quoted(pieces), trail, [closing], Expect(rest, closing).value);
  }

  lemma {:induction false} SplitItems(s: string) returns (items: seq<Item>)
    requires ReadItems(s).Some?
    ensures items != [] && ValidItems(items) && s == ItemsText(items) + ReadItems(s).value.1
    ensures ItemsMeaning(items) == ReadItems(s).value.0
    decreases |s|
  {
    var rest := ReadString(s).value.1;
    var closing := if Expect(rest, ']').Some? then ']' else ',';
    var t := Expect(rest, closing).value;
    var item := SplitItem(s, closing);
    var more := [];
    if closing == ',' {
      more := SplitItems(t);
      RegroupAll(ItemText(item), ",", ItemsText(more), ReadItems(t).value.1);
    } else {
      RegroupAll(ItemText(item), "]", "", t);
    }
    ConsItems(item, more);
    items := [item] + more;
  }

  lemma SplitArray(s: string) returns (v: ValueText)
    requires ReadArray(s).Some? && s != "" && s[0] == '['
    ensures ValidValue(v) && s == ValueToText(v) + ReadArray(s).value.1
    ensures ValueMeaning(v) == JArray(ReadArray(s).value.0)
  {
    var t := Expect(s, '[').value;
    assert s == "[" + t;
    if Expect(t, ']').Some? {
      var space := SplitExpect(t, ']');
      v := EmptyArrayText(space);
      assert s == "[" + (space + "]" + Expect(t, ']').value);
    } else {
      var items := SplitItems(t);
      v := ArrayText(items);
      assert s == "[" + (ItemsText(items) + ReadItems(t).value.1);
    }
  }

  lemma SplitDigits(negative: bool, t: string) returns (digits: string)
    requires ReadDigits(negative, t).Some?
    ensures ValidValue(NumberText(negative, digits)) && t == digits + ReadDigits(negative, t).value.1
    ensures Signed(negative, DigitsValue(digits)) == ReadDigits(negative, t).value.0
  {
    digits := t[..DigitRun(t)];
  }

  lemma SplitNumber(s: string) returns (v: ValueText)
    requires ReadInteger(s).Some?
    ensures ValidValue(v) && s == ValueToText(v) + ReadInteger(s).value.1
    ensures ValueMeaning(v) == JNumber(ReadInteger(s).value.0)
  {
    var negative := s != "" && s[0] == '-';
    var t := if negative then s[1..] else s;
    var digits := SplitDigits(negative, t);
    v := NumberText(negative, digits);
    SignThenDigits(s, negative, digits, ReadDigits(negative, t).value.1);
  }

  lemma SignThenDigits(s: string, negative: bool, digits: string, rest: string)
    requires if negative then s != "" && s[0] == '-' && s[1..] == digits + rest else s == digits + rest
    ensures s == (if negative then "-" else "") + digits + rest
  {
    if negative {
      assert s == "-" + s[1..];
    }
  }

  lemma SplitLiteral(t: string, literal: string)
    requires literal <= t
    ensures t == literal + t[|literal|..]
  {
  }

  lemma SplitBareValue(t: string) returns (v: ValueText)
    requires ReadBareValue(t).Some?
    ensures ValidValue(v) && t == ValueToText(v) + ReadBareValue(t).value.1
    ensures ValueMeaning(v) == ReadBareValue(t).value.0
  {
    if t[0] == '"' {
      var ws, pieces := SplitString(t);
      assert ws == "";
      v := StringText(pieces);
    } else if t[0] == '[' {
      v := SplitArray(t);
    } else if "null" <= t {
      v := NullText;
      SplitLiteral(t, "null");
    } else if "true" <= t {
      v := BoolText(true);
      SplitLiteral(t, "true");
    } else if "false" <= t {
      v := BoolText(false);
      SplitLiteral(t, "false");
    } else {
      v := SplitNumber(t);
    }
  }

  /** The text of a member without whitespace behind it, as the reader takes it apart. */
  lemma PairText(m: Member, end: string)
    requires ValidMember(m) && m.trail == ""
    ensures MemberText(m) + end ==
            m.lead + Quoted(m.key) + (m.beforeColon + ":" + (m.afterColon + (ValueToText(m.value) + end)))
  {
    var value := ValueToText(m.value);
    TakeApart(m.lead, Quoted(m.key), m.beforeColon, ":", m.afterColon, value, "", end);
    assert "" + end == end;
    Associate(m.afterColon, value, end);
  }

  lemma SplitPair(s: string) returns (m: Member)
    requires ReadPair(s).Some?
    ensures ValidMember(m) && m.trail == "" && s == MemberText(m) + ReadPair(s).value.1
    ensures (PiecesMeaning(m.key), ValueMeaning(m.value)) == ReadPair(s).value.0
  {
    var lead, key := SplitString(s);
    var rest := ReadString(s).value.1;
    var beforeColon := SplitExpect(rest, ':');
    var t := Expect(rest, ':').value;
    var afterColon := SplitWs(t);
    var value := SplitBareValue(SkipWs(t));
    m := Member(lead, key, beforeColon, afterColon, value, "");
    var end := ReadValue(t).value.1;
    PairText(m, end);
  }

  /** The same member with the whitespace behind it. */
  lemma WithTrail(m: Member, trail: string)
    requires ValidMember(m) && m.trail == "" && AllWs(trail)
    ensures ValidMember(m.(trail := trail)) && MemberText(m.(trail := trail)) == MemberText(m) + trail
  {
  }

  lemma ConsMembers(m: Member, more: seq<Member>)
    requires ValidMember(m) && ValidMembers(more)
    ensures ValidMembers([m] + more)
    ensures MembersMeaning([m] + more) == [(PiecesMeaning(m.key), ValueMeaning(m.value))] + MembersMeaning(more)
    ensures MembersText([m] + more) == MemberText(m) + if more == [] then "}" else "," + MembersText(more)
  {
    assert ([m] + more)[1..] == more;
    if more != [] {
      assert MemberText(m) + "," + MembersText(more) == MemberText(m) + ("," + MembersText(more));
    }
  }

  /** One member and the character behind it. */
  lemma SplitMember(s: string, closing: char) returns (m: Member)
    requires ReadPair(s).Some? && Expect(ReadPair(s).value.1, closing).Some?
    ensures ValidMember(m) && (PiecesMeaning(m.key), ValueMeaning(m.value)) == ReadPair(s).value.0
    ensures s == MemberText(m) + ([closing] + Expect(ReadPair(s).value.1, closing).value)
  {
    var bare := SplitPair(s);
    var rest := ReadPair(s).value.1;
    var trail := SplitExpect(rest, closing);
    WithTrail(bare, trail);
    m := bare.(trail := trail);
    Regroup(MemberText(bare), trail, [closing], Expect(rest, closing).value);
  }

  lemma {:induction false} SplitMembers(s: string) returns (ms: seq<Member>)
    requires ReadMembers(s).Some?
    ensures ms != [] && ValidMembers(ms) && s == MembersText(ms) + ReadMembers(s).value.1
    ensures MembersMeaning(ms) == ReadMembers(s).value.0
    decreases |s|
  {
    var rest := ReadPair(s).value.1;
    var closing := if Expect(rest, '}').Some? then '}' else ',';
    var t := Expect(rest, closing).value;
    var m := SplitMember(s, closing);
    var more := [];
    if closing == ',' {
      more := SplitMembers(t);
      RegroupAll(MemberText(m), ",", MembersText(more), ReadMembers(t).value.1);
    } else {
      RegroupAll(MemberText(m), "}", "", t);
    }
    ConsMembers(m, more);
    ms := [m] + more;
  }

  lemma SplitDocument(s: string) returns (d: Document)
    requires ReadObject(s).Some?
    ensures ValidDocument(d) && DocumentText(d) == s && DocumentMeaning(d) == ReadObject(s).value
  {
    var lead := SplitExpect(s, '{');
    var t := Expect(s, '{').value;
    var rest := ReadPairs(s).value.1;
    var trail := SplitWs(rest);
    assert rest == trail;
    if Expect(t, '}').Some? {
      var inner := SplitExpect(t, '}');
      d := Document(lead, inner, [], trail);
      assert s == lead + "{" + (inner + "}" + trail);
    } else {
      var ms := SplitMembers(t);
      d := Document(lead, "", ms, trail);
      assert s == lead + "{" + (MembersText(ms) + trail);
    }
  }

  /** The reader accepts exactly the documents, and gives each the meaning of any way to read it. */
  lemma AcceptsExactlyDocuments(s: string, value: JsonObject)
    ensures ReadObject(s) == Some(value)
       <==> exists d: Document :: ValidDocument(d) && DocumentText(d) == s && DocumentMeaning(d) == value
  {
    if ReadObject(s) == Some(value) {
      var d := SplitDocument(s);
      assert ValidDocument(d) && DocumentText(d) == s && DocumentMeaning(d) == value;
    }
    forall d: Document | ValidDocument(d) && DocumentText(d) == s && DocumentMeaning(d) == value
      ensures ReadObject(s) == Some(value)
    {
      ReadsDocument(d);
    }
  }

  /** No text can be read in two ways. */
  lemma DocumentsUnambiguous(a: Document, b: Document)
    requires ValidDocument(a) && ValidDocument(b) && DocumentText(a) == DocumentText(b)
    ensures DocumentMeaning(a) == DocumentMeaning(b)
  {
    ReadsDocument(a);
    ReadsDocument(b);
  }
}
