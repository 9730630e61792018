/** The parser as an object that moves a position through its input. */
module JsonParser {
  import opened Common
  import opened JsonText
  import opened JsonReader

  newtype uint64 = x: int | 0 <= x < 0x1_0000_0000_0000_0000

  /** Further digits never make a number smaller, so giving up early is right. */
  lemma {:induction false} MoreDigitsNoSmaller(digits: string, n: nat)
    requires AllDigits(digits) && n <= |digits|
    ensures DigitsValue(digits[..n]) <= DigitsValue(digits)
    decreases |digits|
  {
    if n < |digits| {
      var shorter := digits[..|digits| - 1];
      MoreDigitsNoSmaller(shorter, n);
      assert shorter[..n] == digits[..n];
    } else {
      assert digits[..n] == digits;
    }
  }

  lemma {:induction false} DigitRunAtLeast(s: string, n: nat)
    requires n <= |s| && AllDigits(s[..n])
    ensures DigitRun(s) >= n
  {
    if n > 0 {
      assert s[..n][0] == s[0];
      assert s[1..][..n - 1] == s[..n][1..];
      DigitRunAtLeast(s[1..], n - 1);
    }
  }

  /** The largest magnitude a number may have. */
  function Limit(negative: bool): nat {
    if negative then 0x8000_0000_0000_0000 else 0x7fff_ffff_ffff_ffff
  }

  /** One more digit, unless the number would pass the limit. */
  method PushDigit(value: uint64, ch: char, maxValue: uint64) returns (ok: bool, next: uint64)
    requires IsDigit(ch) && value <= maxValue && maxValue >= 9
    ensures var exact := value as int * 10 + (ch as int - '0' as int);
            ok == (exact <= maxValue as int) && next as int == if ok then exact else value as int
  {
    var digit := (ch as int - '0' as int) as uint64;
    if value > (maxValue - digit) / 10 {
      return false, value;
    }
    return true, value * 10 + digit;
  }

  lemma NextDigit(t: string, n: nat)
    requires n < |t| && AllDigits(t[..n]) && IsDigit(t[n])
    ensures AllDigits(t[..n + 1])
    ensures DigitsValue(t[..n + 1]) == DigitsValue(t[..n]) * 10 + (t[n] as int - '0' as int)
  {
    assert t[..n + 1][..n] == t[..n];
  }

  /** A prefix beyond the limit decides the whole run. */
  lemma TooLarge(negative: bool, t: string, n: nat)
    requires n <= |t| && AllDigits(t[..n]) && DigitsValue(t[..n]) > Limit(negative)
    ensures ReadDigits(negative, t) == None
  {
    DigitRunAtLeast(t, n);
    var run := t[..DigitRun(t)];
    assert run[..n] == t[..n];
    MoreDigitsNoSmaller(run, n);
  }

  lemma Fits(negative: bool, t: string, n: nat)
    requires 0 < n <= |t| && AllDigits(t[..n]) && (n < |t| ==> !IsDigit(t[n])) && DigitsValue(t[..n]) <= Limit(negative)
    ensures ReadDigits(negative, t) == Some((Signed(negative, DigitsValue(t[..n])), t[n..]))
  {
    assert t == t[..n] + t[n..];
    DigitRunOf(t[..n], t[n..]);
  }

  class JsonParser {
    const input: string
    var position: nat

    ghost predicate Valid()
      reads this
    {
      position <= |input|
    }

    /** What is still to be read. */
    function Rest(): string
      requires Valid()
      reads this
    {
      input[position..]
    }

    constructor (input: string)
      ensures Valid() && this.input == input && Rest() == input
    {
      this.input := input;
      position := 0;
    }

    method SkipWhitespace()
      requires Valid()
      modifies this
      ensures Valid() && Rest() == SkipWs(old(Rest()))
    {
      while position < |input|
        invariant Valid() && SkipWs(Rest()) == SkipWs(old(Rest()))
      {
        var ch := input[position];
        if ch != ' ' && ch != '\n' && ch != '\r' && ch != '\t' {
          return;
        }
        assert Rest()[1..] == input[position + 1..];
        position := position + 1;
      }
    }

    method Consume(expected: char) returns (ok: bool)
      requires Valid()
      modifies this
      ensures Valid() && ok == Expect(old(Rest()), expected).Some?
      ensures Rest() == if ok then Expect(old(Rest()), expected).value else SkipWs(old(Rest()))
    {
      SkipWhitespace();
      if position < |input| && input[position] == expected {
        assert Rest()[1..] == input[position + 1..];
        position := position + 1;
        return true;
      }
      return false;
    }

    /** The whole object; None stands for the thrown parse error. */
    method ParseObject() returns (r: Option<JsonObject>)
      requires Valid()
      modifies this
      ensures Valid() && r == ReadObject(old(Rest()))
      ensures r.Some? ==> position == |input|
    {
      var isOpen := Consume('{');
      if !isOpen {
        return None;
      }
      ghost var members := Rest();
      SkipWhitespace();
      SkipWsTwice(members);
      var result: JsonObject := map[];
      var closed := Consume('}');
      if !closed {
        ReadMembersSkips(members);
        var read := ParseMembers();
        if read == None {
          return None;
        }
        result := read.value;
      }
      SkipWhitespace();
      if position != |input| {
        return None;
      }
      return Some(result);
    }

    /** The loop over the members. */
    method ParseMembers() returns (r: Option<JsonObject>)
      requires Valid()
      modifies this
      ensures Valid() && r.Some? == ReadMembers(old(Rest())).Some?
      ensures r.Some? ==>
              r.value == LastWins(ReadMembers(old(Rest())).value.0) && Rest() == ReadMembers(old(Rest())).value.1
    {
      var result: JsonObject := map[];
      ghost var done: Pairs := [];
      PrependNothing(ReadMembers(Rest()));
      while true
        invariant Valid() && result == LastWins(done)
        invariant ReadMembers(old(Rest())) == Prepend(done, ReadMembers(Rest()))
        decreases |input| - position
      {
        ghost var before := done;
        var pair := ParsePair();
        if pair == None {
          return None;
        }
        ghost var rest := Rest();
        LastWinsSnoc(done, pair.value);
        done := done + [pair.value];
        result := result[pair.value.0 := pair.value.1];
        SkipWhitespace();
        SkipWsTwice(rest);
        var closed := Consume('}');
        if closed {
          return Some(result);
        }
        var more := Consume(',');
        if !more {
          return None;
        }
        PrependSnoc(before, pair.value, ReadMembers(Rest()));
      }
    }

    method ParsePair() returns (r: Option<(string, JsonValue)>)
      requires Valid()
      modifies this
      ensures Valid() && r.Some? == ReadPair(old(Rest())).Some?
      ensures r.Some? ==> (r.value, Rest()) == ReadPair(old(Rest())).value
    {
      var key := ParseString();
      if key == None {
        return None;
      }
      var colon := Consume(':');
      if !colon {
        return None;
      }
      var value := ParseValue();
      if value == None {
        return None;
      }
      return Some((key.value, value.value));
    }

    method ParseValue() returns (r: Option<JsonValue>)
      requires Valid()
      modifies this
      ensures Valid() && r.Some? == ReadValue(old(Rest())).Some?
      ensures r.Some? ==> (r.value, Rest()) == ReadValue(old(Rest())).value
    {
      SkipWhitespace();
      if position >= |input| {
        return None;
      }
      if input[position] == '"' {
        var text := ParseString();
        return if text == None then None else Some(JString(text.value));
      }
      if input[position] == '[' {
        var items := ParseStringArray();
        return if items == None then None else Some(JArray(items.value));
      }
      r := ParseLiteral();
      if r == None {
        r := ParseNumber();
      }
    }

    /** One of the three literals, or nothing read. */
    method ParseLiteral() returns (r: Option<JsonValue>)
      requires Valid()
      modifies this
      ensures Valid() && r.Some? == ("null" <= old(Rest()) || "true" <= old(Rest()) || "false" <= old(Rest()))
      ensures r.None? ==> Rest() == old(Rest())
      ensures r.Some? ==>
                (r.value, Rest()) == if "null" <= old(Rest()) then (JNull, old(Rest())[4..])
                                     else if "true" <= old(Rest()) then (JBool(true), old(Rest())[4..])
                                     else (JBool(false), old(Rest())[5..])
    {
      var literal := ConsumeLiteral("null");
      if literal {
        return Some(JNull);
      }
      literal := ConsumeLiteral("true");
      if literal {
        return Some(JBool(true));
      }
      literal := ConsumeLiteral("false");
      if literal {
        return Some(JBool(false));
      }
      return None;
    }

    /** A number, if one starts here. */
    method ParseNumber() returns (r: Option<JsonValue>)
      requires Valid() && position < |input|
      modifies this
      ensures Valid()
      ensures r.Some? == ((old(Rest())[0] == '-' || IsDigit(old(Rest())[0])) && ReadInteger(old(Rest())).Some?)
      ensures r.Some? ==>
              (r.value, Rest()) == (JNumber(ReadInteger(old(Rest())).value.0), ReadInteger(old(Rest())).value.1)
    {
      if input[position] == '-' || IsDigit(input[position]) {
        var number := ParseInteger();
        return if number == None then None else Some(JNumber(number.value));
      }
      return None;
    }

    method ConsumeLiteral(literal: string) returns (ok: bool)
      requires Valid()
      modifies this
      ensures Valid() && ok == (literal <= old(Rest()))
      ensures Rest() == if ok then old(Rest())[|literal|..] else old(Rest())
    {
      if |input| - position < |literal| || input[position..position + |literal|] != literal {
        return false;
      }
      assert Rest()[..|literal|] == literal;
      position := position + |literal|;
      return true;
    }

    method ParseStringArray() returns (r: Option<seq<string>>)
      requires Valid()
      modifies this
      ensures Valid() && r.Some? == ReadArray(old(Rest())).Some?
      ensures r.Some? ==> (r.value, Rest()) == ReadArray(old(Rest())).value
    {
      var isOpen := Consume('[');
      if !isOpen {
        return None;
      }
      ghost var items := Rest();
      SkipWhitespace();
      SkipWsTwice(items);
      var closed := Consume(']');
      if closed {
        return Some([]);
      }
      ReadItemsSkips(items);
      r := ParseItems();
    }

    /** The loop over the strings of an array. */
    method ParseItems() returns (r: Option<seq<string>>)
      requires Valid()
      modifies this
      ensures Valid() && r.Some? == ReadItems(old(Rest())).Some?
      ensures r.Some? ==> (r.value, Rest()) == ReadItems(old(Rest())).value
    {
      var values: seq<string> := [];
      PrependNothing(ReadItems(Rest()));
      while true
        invariant Valid()
        invariant ReadItems(old(Rest())) == Prepend(values, ReadItems(Rest()))
        decreases |input| - position
      {
        var value := ParseString();
        if value == None {
          return None;
        }
        ghost var rest := Rest();
        ghost var before := values;
        values := values + [value.value];
        SkipWhitespace();
        SkipWsTwice(rest);
        var closed := Consume(']');
        if closed {
          return Some(values);
        }
        var more := Consume(',');
        if !more {
          return None;
        }
        PrependSnoc(before, value.value, ReadItems(Rest()));
      }
    }

    /** An optional minus sign and a digit run. */
    method ParseInteger() returns (r: Option<int>)
      requires Valid() && position < |input|
      modifies this
      ensures Valid() && r.Some? == ReadInteger(old(Rest())).Some?
      ensures r.Some? ==> (r.value, Rest()) == ReadInteger(old(Rest())).value
    {
      var negative := false;
      if input[position] == '-' {
        negative := true;
        assert Rest()[1..] == input[position + 1..];
        position := position + 1;
      }
      if position >= |input| || !IsDigit(input[position]) {
        return None;
      }
      r := ParseDigits(negative);
    }

    method ParseDigits(negative: bool) returns (r: Option<int>)
      requires Valid() && position < |input| && IsDigit(input[position])
      modifies this
      ensures Valid() && r.Some? == ReadDigits(negative, old(Rest())).Some?
      ensures r.Some? ==> (r.value, Rest()) == ReadDigits(negative, old(Rest())).value
    {
      var maxValue: uint64 := if negative then 0x8000_0000_0000_0000 else 0x7fff_ffff_ffff_ffff;
      var ok, value, n := ScanDigits(maxValue);
      if !ok {
        TooLarge(negative, old(Rest()), n);
        return None;
      }
      Fits(negative, old(Rest()), n);
      if negative && value == maxValue {
        return Some(INT64_MIN);
      }
      return Some(if negative then -(value as int) else value as int);
    }

    /** The digit loop, in unsigned 64-bit arithmetic that never overflows; `n` digits decide the answer. */
    method ScanDigits(maxValue: uint64) returns (ok: bool, value: uint64, ghost n: nat)
      requires Valid() && maxValue >= 9
      modifies this
      ensures Valid() && n <= |old(Rest())| && AllDigits(old(Rest())[..n])
      ensures !ok ==> DigitsValue(old(Rest())[..n]) > maxValue as int
      ensures ok ==> value as int == DigitsValue(old(Rest())[..n]) <= maxValue as int && Rest() == old(Rest())[n..]
      ensures ok ==> (n < |old(Rest())| ==> !IsDigit(old(Rest())[n]))
    {
      ghost var t := Rest();
      value, n := 0, 0;
      while position < |input| && IsDigit(input[position])
        invariant Valid() && n <= |t| && Rest() == t[n..]
        invariant AllDigits(t[..n]) && value as int == DigitsValue(t[..n]) <= maxValue as int
        decreases |input| - position
      {
        assert t[n] == input[position] && t[n..][1..] == t[n + 1..] && input[position..][1..] == input[position + 1..];
        NextDigit(t, n);
        n := n + 1;
        ok, value := PushDigit(value, input[position], maxValue);
        if !ok {
          return;
        }
        position := position + 1;
      }
      ok := true;
    }

    /** A quoted string with its escapes resolved. */
    method ParseString() returns (r: Option<string>)
      requires Valid()
      modifies this
      ensures Valid() && r.Some? == ReadString(old(Rest())).Some?
      ensures r.Some? ==> (r.value, Rest()) == ReadString(old(Rest())).value
    {
      SkipWhitespace();
      if position >= |input| || input[position] != '"' {
        return None;
      }
      assert Rest()[1..] == input[position + 1..];
      position := position + 1;
      r := ParseStringBody();
    }

    method ParseStringBody() returns (r: Option<string>)
      requires Valid()
      modifies this
      ensures Valid() && r.Some? == StringBody(old(Rest())).Some?
      ensures r.Some? ==> (r.value, Rest()) == StringBody(old(Rest())).value
    {
      var value := "";
      PrependNothing(StringBody(Rest()));
      while position < |input|
        invariant Valid()
        invariant StringBody(old(Rest())) == Prepend(value, StringBody(Rest()))
      {
        ghost var before := value;
        assert Rest()[1..] == input[position + 1..];
        var ch := input[position];
        position := position + 1;
        if ch == '"' {
          assert value + "" == value;
          return Some(value);
        }
        if ch != '\\' {
          value := value + [ch];
          PrependSnoc(before, ch, StringBody(Rest()));
          continue;
        }
        if position >= |input| {
          return None;
        }
        var escaped := input[position];
        position := position + 1;
        match escaped {
          case '\\' => value := value + ['\\'];
          case '"' => value := value + ['"'];
          case 'n' => value := value + ['\n'];
          case 'r' => value := value + ['\r'];
          case 't' => value := value + ['\t'];
          case _ => return None;
        }
        PrependSnoc(before, value[|value| - 1], StringBody(Rest()));
      }
      return None;
    }
  }

  // ---- how the accumulators follow the recursion -------------------------------------------------

  lemma SkipWsTwice(s: string)
    ensures SkipWs(SkipWs(s)) == SkipWs(s)
    ensures forall ch :: Expect(SkipWs(s), ch) == Expect(s, ch)
  {
  }

  lemma ReadItemsSkips(s: string)
    ensures ReadItems(SkipWs(s)) == ReadItems(s)
  {
    SkipWsTwice(s);
  }

  lemma ReadMembersSkips(s: string)
    ensures ReadMembers(SkipWs(s)) == ReadMembers(s)
  {
    SkipWsTwice(s);
  }

  lemma LastWinsSnoc(pairs: Pairs, pair: (string, JsonValue))
    ensures LastWins(pairs + [pair]) == LastWins(pairs)[pair.0 := pair.1]
  {
    assert (pairs + [pair])[..|pairs|] == pairs;
  }

  /** The result of reading more, with what was read before put in front. */
  function Prepend<T>(done: seq<T>, r: Option<(seq<T>, string)>): Option<(seq<T>, string)> {
    match r
    case None => None
    case Some((more, end)) => Some((done + more, end))
  }

  lemma PrependNothing<T>(r: Option<(seq<T>, string)>)
    ensures Prepend([], r) == r
  {
    if r.Some? {
      assert [] + r.value.0 == r.value.0;
    }
  }

  lemma PrependSnoc<T>(done: seq<T>, x: T, r: Option<(seq<T>, string)>)
    ensures Prepend(done + [x], r) == Prepend(done, Prepend([x], r))
  {
    if r.Some? {
      assert done + [x] + r.value.0 == done + ([x] + r.value.0);
    }
  }
}
