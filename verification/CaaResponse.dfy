/** Parsing the response to a CAA query. */
module CaaResponse {
  import opened Common
  import opened DnsWire

  datatype Dnssec = Indeterminate | Secure | Bogus

  datatype LookupResult = LookupResult(records: seq<CaaRecord>, dnssec: Dnssec)

  datatype DnsError = InvalidRequest | ResponseCode(rcode: int)

  /** The result and whether the name was found to have an answer. */
  type Outcome = Result<(LookupResult, bool), DnsError>

  const SERVFAIL: int := 2
  const NXDOMAIN: int := 3

  /** Bit 0x0020 of the flags: the resolver vouches for the data. */
  predicate Authenticated(flags: int) {
    (flags / 32) % 2 != 0
  }

  /** The low four bits of the flags. */
  function Rcode(flags: int): int {
    flags % 16
  }

  function StatusOf(flags: int): Dnssec {
    if Authenticated(flags) then Secure else Indeterminate
  }

  function ParseResponse(m: Bytes, id: Word): Outcome {
    if |m| < HEADER_LENGTH || GetWord(m, 0) != id then Err(InvalidRequest)
    else
      var flags := GetWord(m, 2);
      var rcode := Rcode(flags);
      if rcode == SERVFAIL then Ok((LookupResult([], Bogus), true))
      else if rcode == NXDOMAIN then Ok((LookupResult([], StatusOf(flags)), false))
      else if rcode != 0 then Err(ResponseCode(rcode))
      else
        match ReadSections(m)
        case None => Err(InvalidRequest)
        case Some(bodies) => Ok((LookupResult(Records(bodies), StatusOf(flags)), Records(bodies) != []))
  }

  /** The answers of a message with a complete header. */
  function ReadSections(m: Bytes): Option<seq<Body>>
    requires |m| >= HEADER_LENGTH
  {
    match ReadMany(ReadQuestion, m, HEADER_LENGTH, GetWord(m, 4))
    case None => None
    case Some((_, offset)) => First(ReadMany(ReadAnswer, m, offset, GetWord(m, 6)))
  }

  function First<T>(r: Option<(seq<T>, nat)>): Option<seq<T>> {
    match r
    case None => None
    case Some((items, _)) => Some(items)
  }

  /**
   What a caller may conclude from the bytes of the header: when a name counts as found, and what the low four bits
   and the bit of value 32 in byte 3 say about the DNSSEC status.
   */
  lemma OutcomeMeans(m: Bytes, id: Word)
    requires IsBytes(m)
    ensures |m| < 12 || m[0] as int != id / 256 || m[1] as int != id % 256 ==>
              ParseResponse(m, id) == Err(InvalidRequest)
    ensures ParseResponse(m, id).Ok? ==>
              var (result, found) := ParseResponse(m, id).value;
              var code := m[3] as int % 16;
              && (found <==> result.dnssec == Bogus || result.records != [])
              && (result.dnssec == Bogus <==> code == 2)
              && (result.dnssec == Secure <==> code != 2 && m[3] as int % 64 >= 32)
              && (code == 3 ==> !found && result.records == []) && (code == 0 || code == 2 || code == 3)
    ensures |m| >= 12 && m[0] as int == id / 256 && m[1] as int == id % 256 ==>
              var code := m[3] as int % 16;
              code != 0 && code != 2 && code != 3 ==> ParseResponse(m, id) == Err(ResponseCode(code))
  {
    if |m| >= 12 {
      FlagBits(m[2], m[3]);
    }
  }

  lemma FlagBits(high: char, low: char)
    requires high as int < 256 && low as int < 256
    ensures var flags := high as int * 256 + low as int;
            Rcode(flags) == low as int % 16 && (Authenticated(flags) <==> low as int % 64 >= 32)
  {
  }

  // ---- exactly the well-formed messages -----------------------------------------------------------

  /** How a message is made up: questions from byte 12 to `middle`, answers from there to `end`, then anything. */
  datatype Layout = Layout(questions: seq<Question>, middle: nat, answers: seq<Answer>, end: nat)

  /** The message holds as many questions and answers as its header announces, and they are well formed. */
  predicate LaidOut(m: Bytes, l: Layout) {
    && |m| >= HEADER_LENGTH && GetWord(m, 4) == |l.questions| && GetWord(m, 6) == |l.answers|
    && QuestionsAt(m, HEADER_LENGTH, l.questions, l.middle) && AnswersAt(m, l.middle, l.answers, l.end)
  }

  lemma ReadsMessage(m: Bytes, l: Layout)
    requires LaidOut(m, l)
    ensures ReadSections(m) == Some(Bodies(l.answers))
  {
    ReadsQuestions(m, HEADER_LENGTH, l.questions, l.middle);
    ReadsAnswers(m, l.middle, l.answers, l.end);
  }

  lemma SplitMessage(m: Bytes) returns (l: Layout)
    requires |m| >= HEADER_LENGTH && IsBytes(m) && ReadSections(m).Some?
    ensures LaidOut(m, l) && ReadSections(m) == Some(Bodies(l.answers))
  {
    var middle := ReadMany(ReadQuestion, m, HEADER_LENGTH, GetWord(m, 4)).value.1;
    var end := ReadMany(ReadAnswer, m, middle, GetWord(m, 6)).value.1;
    var questions := SplitQuestions(m, HEADER_LENGTH, GetWord(m, 4));
    var answers := SplitAnswers(m, middle, GetWord(m, 6));
    l := Layout(questions, middle, answers, end);
  }

  /**
   With a matching id and response code 0, parsing succeeds exactly on the well-formed messages, and
   returns their class-IN CAA records in answer order.
   */
  lemma ParsesExactlyMessages(m: Bytes, id: Word, records: seq<CaaRecord>, status: Dnssec)
    requires IsBytes(m) && |m| >= HEADER_LENGTH && GetWord(m, 0) == id && Rcode(GetWord(m, 2)) == 0
    ensures ParseResponse(m, id) == Ok((LookupResult(records, status), records != [])) <==>
              status == StatusOf(GetWord(m, 2)) && exists l :: LaidOut(m, l) && Records(Bodies(l.answers)) == records
    ensures ParseResponse(m, id).Err? <==> !exists l :: LaidOut(m, l)
  {
    forall l | LaidOut(m, l) ensures ReadSections(m) == Some(Bodies(l.answers)) {
      ReadsMessage(m, l);
    }
    if ReadSections(m).Some? {
      var l := SplitMessage(m);
    }
  }

  // ---- the parser -----------------------------------------------------------------------------------

  method SkipDnsName(message: Bytes, start: nat) returns (r: Option<nat>)
    ensures r == SkipName(message, start)
  {
    var offset := start;
    while true
      invariant SkipName(message, start) == SkipName(message, offset)
      decreases |message| - offset
    {
      if offset >= |message| {
        return None;
      }
      var length := message[offset] as int;
      if length == 0 {
        return Some(offset + 1);
      }
      if length >= 0xc0 {
        if offset + 1 >= |message| {
          return None;
        }
        return Some(offset + 2);
      }
      if offset + 1 + length > |message| {
        return None;
      }
      offset := offset + 1 + length;
    }
  }

  /** The part of an answer that follows its name: the record in it, if any, and where the answer ends. */
  method ParseBody(message: Bytes, at: nat) returns (r: Option<(seq<CaaRecord>, nat)>, ghost body: Body)
    ensures r.None? ==> ReadBody(message, at) == None
    ensures r.Some? ==> ReadBody(message, at) == Some((body, r.value.1)) && r.value.0 == RecordIn(body)
  {
    body := Body(0, 0, [], []);
    if at + 10 > |message| {
      return None, body;
    }
    var rrType := GetWord(message, at);
    var rrClass := GetWord(message, at + 2);
    var length := GetWord(message, at + 8);
    var offset := at + 10;
    if offset + length > |message| {
      return None, body;
    }
    body := ReadBody(message, at).value.0;
    var records := [];
    if rrType == TYPE_CAA && rrClass == CLASS_IN && length >= 2 {
      var data := message[offset..offset + length];
      var tagLength := data[1] as int;
      if 2 + tagLength <= |data| {
        records := [CaaRecord(data[0], data[2..2 + tagLength], data[2 + tagLength..])];
      }
    }
    var end: nat := offset + length;
    return Some((records, end)), body;
  }

  /** Where the items end. */
  function End<T>(r: Option<(seq<T>, nat)>): Option<nat> {
    match r
    case None => None
    case Some((_, end)) => Some(end)
  }

  lemma EndCons<T>(item: T, more: Option<(seq<T>, nat)>)
    ensures End(Cons(item, more)) == End(more)
  {
  }

  lemma NoItem<T>(read: Reader<T>, m: Bytes, offset: nat, count: nat)
    requires count > 0 && read(m, offset) == None
    ensures ReadMany(read, m, offset, count) == None
  {
  }

  method ParseQuestions(message: Bytes, start: nat, count: nat) returns (r: Option<nat>)
    ensures r == End(ReadMany(ReadQuestion, message, start, count))
  {
    var offset: nat := start;
    for i := 0 to count
      invariant End(ReadMany(ReadQuestion, message, start, count)) ==
              End(ReadMany(ReadQuestion, message, offset, count - i))
    {
      var next := SkipDnsName(message, offset);
      if next.None? || next.value + 4 > |message| {
        NoItem(ReadQuestion, message, offset, count - i);
        return None;
      }
      ghost var item := message[next.value..next.value + 4];
      NextItem(ReadQuestion, message, offset, count - i, item, next.value + 4);
      EndCons(item, ReadMany(ReadQuestion, message, next.value + 4, count - i - 1));
      offset := next.value + 4;
    }
    return Some(offset);
  }

  /** The records read so far with those still to come. */
  function Collect(done: seq<CaaRecord>, r: Option<(seq<Body>, nat)>): Option<seq<CaaRecord>> {
    match r
    case None => None
    case Some((bodies, _)) => Some(done + Records(bodies))
  }

  lemma CollectCons(done: seq<CaaRecord>, body: Body, more: Option<(seq<Body>, nat)>)
    ensures Collect(done, Cons(body, more)) == Collect(done + RecordIn(body), more)
  {
    if more.Some? {
      assert ([body] + more.value.0)[1..] == more.value.0;
      assert done + RecordIn(body) + Records(more.value.0) == done + (RecordIn(body) + Records(more.value.0));
    }
  }

  lemma CollectNothing(done: seq<CaaRecord>, end: nat)
    ensures Collect(done, Some(([], end))) == Some(done)
  {
    assert done + Records([]) == done;
  }

  method ParseAnswer(message: Bytes, offset: nat) returns (r: Option<(seq<CaaRecord>, nat)>, ghost body: Body)
    ensures r.None? ==> ReadAnswer(message, offset) == None
    ensures r.Some? ==> ReadAnswer(message, offset) == Some((body, r.value.1)) && r.value.0 == RecordIn(body)
  {
    var next := SkipDnsName(message, offset);
    if next.None? {
      return None, Body(0, 0, [], []);
    }
    r, body := ParseBody(message, next.value);
  }

  /** One round of the answer loop, with `left` answers to go. */
  method NextRecord(message: Bytes, offset: nat, left: nat, records: seq<CaaRecord>, ghost all: Option<seq<CaaRecord>>)
    returns (r: Option<(seq<CaaRecord>, nat)>)
    requires left > 0 && all == Collect(records, ReadMany(ReadAnswer, message, offset, left))
    ensures r.None? ==> all == None
    ensures r.Some? ==> all == Collect(r.value.0, ReadMany(ReadAnswer, message, r.value.1, left - 1))
  {
    var parsed, body := ParseAnswer(message, offset);
    if parsed.None? {
      NoItem(ReadAnswer, message, offset, left);
      return None;
    }
    var (found, next) := parsed.value;
    NextItem(ReadAnswer, message, offset, left, body, next);
    CollectCons(records, body, ReadMany(ReadAnswer, message, next, left - 1));
    return Some((records + found, next));
  }

  method ParseAnswers(message: Bytes, start: nat, count: nat) returns (r: Option<seq<CaaRecord>>)
    ensures r == Collect([], ReadMany(ReadAnswer, message, start, count))
  {
    ghost var all := Collect([], ReadMany(ReadAnswer, message, start, count));
    var offset: nat, records := start, [];
    for i := 0 to count
      invariant all == Collect(records, ReadMany(ReadAnswer, message, offset, count - i))
    {
      var next := NextRecord(message, offset, count - i, records, all);
      if next.None? {
        return None;
      }
      records, offset := next.value.0, next.value.1;
    }
    CollectNothing(records, offset);
    return Some(records);
  }

  method ParseSections(message: Bytes) returns (r: Option<seq<CaaRecord>>)
    requires |message| >= HEADER_LENGTH
    ensures r.None? ==> ReadSections(message) == None
    ensures r.Some? ==> ReadSections(message).Some? && r.value == Records(ReadSections(message).value)
  {
    var offset := ParseQuestions(message, HEADER_LENGTH, GetWord(message, 4));
    if offset.None? {
      return None;
    }
    r := ParseAnswers(message, offset.value, GetWord(message, 6));
    assert forall bodies :: [] + Records(bodies) == Records(bodies);
  }

  method ParseCaaResponse(message: Bytes, id: Word) returns (outcome: Outcome)
    ensures outcome == ParseResponse(message, id)
  {
    if |message| < HEADER_LENGTH || GetWord(message, 0) != id {
      return Err(InvalidRequest);
    }
    var flags := GetWord(message, 2);
    var status := Indeterminate;
    if Authenticated(flags) {
      status := Secure;
    }
    var rcode := Rcode(flags);
    if rcode == SERVFAIL {
      return Ok((LookupResult([], Bogus), true));
    }
    if rcode == NXDOMAIN {
      return Ok((LookupResult([], status), false));
    }
    if rcode != 0 {
      return Err(ResponseCode(rcode));
    }
    var records := ParseSections(message);
    if records.None? {
      return Err(InvalidRequest);
    }
    return Ok((LookupResult(records.value, status), |records.value| > 0));
  }
}
