/** DNS messages on the wire, as far as a CAA lookup reads them. */
module DnsWire {
  import opened Common

  /** A byte is a character below 256. */
  type Bytes = string
  type Word = n: int | 0 <= n < 65536

  const TYPE_CAA: Word := 257
  const CLASS_IN: Word := 1
  const HEADER_LENGTH: nat := 12

  predicate IsBytes(s: Bytes) {
    forall i :: 0 <= i < |s| ==> s[i] as int < 256
  }

  function PutWord(w: Word): Bytes {
    [(w / 256) as char, (w % 256) as char]
  }

  function GetWord(s: Bytes, at: nat): int
    requires at + 2 <= |s|
  {
    s[at] as int * 256 + s[at + 1] as int
  }

  /** `chunk` is what the message holds at `offset`. */
  predicate At(m: Bytes, offset: nat, chunk: Bytes) {
    offset + |chunk| <= |m| && m[offset..offset + |chunk|] == chunk
  }

  lemma AtSplit(m: Bytes, offset: nat, a: Bytes, b: Bytes)
    ensures At(m, offset, a + b) <==> At(m, offset, a) && At(m, offset + |a|, b)
  {
    var mid, end := offset + |a|, offset + |a| + |b|;
    if end <= |m| {
      var x, y := m[offset..mid], m[mid..end];
      assert m[offset..end] == x + y;
      SameHalves(x, y, a, b);
    }
  }

  lemma SameHalves(x: Bytes, y: Bytes, a: Bytes, b: Bytes)
    requires |x| == |a|
    ensures x + y == a + b <==> x == a && y == b
  {
    if x + y == a + b {
      assert x == (x + y)[..|x|] == (a + b)[..|a|] == a;
      assert y == (x + y)[|x|..] == (a + b)[|a|..] == b;
    }
  }

  // ---- what is written --------------------------------------------------------------------------

  datatype Ending = Root | Pointer(high: char, low: char)

  /** A name: labels, ended by the root or by a compression pointer. */
  datatype Name = Name(labels: seq<Bytes>, ending: Ending)

  /** A length byte with both high bits set would be a pointer. */
  predicate ValidLabel(part: Bytes) {
    1 <= |part| < 0xc0
  }

  predicate ValidName(n: Name) {
    && (forall i :: 0 <= i < |n.labels| ==> ValidLabel(n.labels[i]))
    && (n.ending.Pointer? ==> n.ending.high as int >= 0xc0)
  }

  function LabelBytes(part: Bytes): Bytes
    requires ValidLabel(part)
  {
    [|part| as char] + part
  }

  function EndingBytes(e: Ending): Bytes {
    match e
    case Root => ['\0']
    case Pointer(high, low) => [high, low]
  }

  function NameBytes(n: Name): Bytes
    requires ValidName(n)
    decreases |n.labels|
  {
    if n.labels == [] then EndingBytes(n.ending)
    else LabelBytes(n.labels[0]) + NameBytes(Name(n.labels[1..], n.ending))
  }

  /** A question: a name and four bytes of type and class. */
  datatype Question = Question(name: Name, typeAndClass: Bytes)

  predicate ValidQuestion(q: Question) {
    ValidName(q.name) && |q.typeAndClass| == 4
  }

  function QuestionBytes(q: Question): Bytes
    requires ValidQuestion(q)
  {
    NameBytes(q.name) + q.typeAndClass
  }

  /** The questions stand one after the other from `offset` to `end`. */
  predicate QuestionsAt(m: Bytes, offset: nat, qs: seq<Question>, end: nat)
    decreases |qs|
  {
    if qs == [] then end == offset
    else
      && ValidQuestion(qs[0]) && At(m, offset, QuestionBytes(qs[0]))
      && QuestionsAt(m, offset + |QuestionBytes(qs[0])|, qs[1..], end)
  }

  /** What an answer says about its name. */
  datatype Body = Body(rrType: int, rrClass: int, ttl: Bytes, data: Bytes)

  predicate ValidBody(b: Body) {
    0 <= b.rrType < 65536 && 0 <= b.rrClass < 65536 && |b.ttl| == 4 && |b.data| < 65536
  }

  datatype Answer = Answer(name: Name, body: Body)

  predicate ValidAnswer(a: Answer) {
    ValidName(a.name) && ValidBody(a.body)
  }

  /** The ten bytes between an answer's name and its data. */
  function FixedBytes(b: Body): Bytes
    requires ValidBody(b)
  {
    PutWord(b.rrType) + PutWord(b.rrClass) + b.ttl + PutWord(|b.data|)
  }

  function AnswerBytes(a: Answer): Bytes
    requires ValidAnswer(a)
  {
    NameBytes(a.name) + FixedBytes(a.body) + a.body.data
  }

  /** The answers stand one after the other from `offset` to `end`. */
  predicate AnswersAt(m: Bytes, offset: nat, answers: seq<Answer>, end: nat)
    decreases |answers|
  {
    if answers == [] then end == offset
    else
      && ValidAnswer(answers[0]) && At(m, offset, AnswerBytes(answers[0]))
      && AnswersAt(m, offset + |AnswerBytes(answers[0])|, answers[1..], end)
  }

  // ---- what a CAA record says ---------------------------------------------------------------------

  datatype CaaRecord = CaaRecord(flag: char, tag: Bytes, value: Bytes)

  /** The data of a CAA record: flag, tag length, tag, value. */
  predicate CaaData(data: Bytes, r: CaaRecord) {
    |r.tag| < 256 && data == [r.flag, |r.tag| as char] + r.tag + r.value
  }

  function RecordIn(b: Body): seq<CaaRecord> {
    if b.rrType == TYPE_CAA && b.rrClass == CLASS_IN && |b.data| >= 2 && 2 + b.data[1] as int <= |b.data| then
      [CaaRecord(b.data[0], b.data[2..2 + b.data[1] as int], b.data[2 + b.data[1] as int..])]
    else []
  }

  /** An answer yields a record exactly when it is a class-IN CAA answer whose data spells that record. */
  lemma RecordInIff(b: Body, r: CaaRecord)
    requires IsBytes(b.data)
    ensures RecordIn(b) == [r] <==> b.rrType == 257 && b.rrClass == 1 && CaaData(b.data, r)
    ensures RecordIn(b) == [] || exists found :: RecordIn(b) == [found]
  {
    if RecordIn(b) == [r] {
      var n := b.data[1] as int;
      assert b.data == [b.data[0], b.data[1]] + b.data[2..2 + n] + b.data[2 + n..];
    } else if CaaData(b.data, r) {
      assert b.data[2..2 + b.data[1] as int] == r.tag;
      assert b.data[2 + b.data[1] as int..] == r.value;
    }
  }

  /** The records of several answers, in their order. */
  function Records(bodies: seq<Body>): seq<CaaRecord> {
    if bodies == [] then [] else RecordIn(bodies[0]) + Records(bodies[1..])
  }

  function Bodies(answers: seq<Answer>): seq<Body> {
    if answers == [] then [] else [answers[0].body] + Bodies(answers[1..])
  }

  // ---- reading --------------------------------------------------------------------------------------

  /** Where the name at `offset` ends. */
  function SkipName(m: Bytes, offset: nat): (r: Option<nat>)
    ensures r.Some? ==> offset < r.value <= |m|
    decreases |m| - offset
  {
    if offset >= |m| then None
    else if m[offset] == '\0' then Some(offset + 1)
    else if m[offset] as int >= 0xc0 then (if offset + 1 >= |m| then None else Some(offset + 2))
    else if offset + 1 + m[offset] as int > |m| then None
    else SkipName(m, offset + 1 + m[offset] as int)
  }

  /** The type and class of the question at `offset`, and where it ends. */
  function ReadQuestion(m: Bytes, offset: nat): (r: Option<(Bytes, nat)>)
    ensures r.Some? ==> offset < r.value.1 <= |m|
  {
    match SkipName(m, offset)
    case None => None
    case Some(n) => if n + 4 > |m| then None else Some((m[n..n + 4], n + 4))
  }

  /** The body of an answer whose name ends at `n`, and where the answer ends. */
  function ReadBody(m: Bytes, n: nat): (r: Option<(Body, nat)>)
    ensures r.Some? ==> n < r.value.1 <= |m|
  {
    if n + 10 > |m| then None
    else
      var length := GetWord(m, n + 8);
      if n + 10 + length > |m| then None
      else Some((Body(GetWord(m, n), GetWord(m, n + 2), m[n + 4..n + 8], m[n + 10..n + 10 + length]), n + 10 + length))
  }

  function ReadAnswer(m: Bytes, offset: nat): (r: Option<(Body, nat)>)
    ensures r.Some? ==> offset < r.value.1 <= |m|
  {
    match SkipName(m, offset)
    case None => None
    case Some(n) => ReadBody(m, n)
  }

  type Reader<!T> = (Bytes, nat) -> Option<(T, nat)>

  /** Read `count` items one after the other: the items and where they end. */
  function ReadMany<T>(read: Reader<T>, m: Bytes, offset: nat, count: nat): Option<(seq<T>, nat)>
    decreases count
  {
    if count == 0 then Some(([], offset))
    else
      match read(m, offset)
      case None => None
      case Some((item, next)) => Cons(item, ReadMany(read, m, next, count - 1))
  }

  /** One more item in front of the rest. */
  function Cons<T>(item: T, more: Option<(seq<T>, nat)>): Option<(seq<T>, nat)> {
    match more
    case None => None
    case Some((items, end)) => Some(([item] + items, end))
  }

  // ---- everything well formed is read -----------------------------------------------------------------

  lemma {:induction false} SkipsName(m: Bytes, offset: nat, n: Name)
    requires ValidName(n) && At(m, offset, NameBytes(n))
    ensures SkipName(m, offset) == Some(offset + |NameBytes(n)|)
    decreases |n.labels|
  {
    if n.labels == [] {
      AtFirst(m, offset, EndingBytes(n.ending));
    } else {
      var part, tail := n.labels[0], Name(n.labels[1..], n.ending);
      AtSplit(m, offset, LabelBytes(part), NameBytes(tail));
      AtFirst(m, offset, LabelBytes(part));
      SkipsName(m, offset + 1 + |part|, tail);
    }
  }

  lemma AtFirst(m: Bytes, offset: nat, chunk: Bytes)
    requires At(m, offset, chunk) && chunk != []
    ensures m[offset] == chunk[0]
  {
    assert m[offset..offset + |chunk|][0] == m[offset];
  }

  lemma NextItem<T>(read: Reader<T>, m: Bytes, offset: nat, count: nat, item: T, next: nat)
    requires count > 0 && read(m, offset) == Some((item, next))
    ensures ReadMany(read, m, offset, count) == Cons(item, ReadMany(read, m, next, count - 1))
  {
  }

  lemma ReadsQuestion(m: Bytes, offset: nat, q: Question)
    requires ValidQuestion(q) && At(m, offset, QuestionBytes(q))
    ensures ReadQuestion(m, offset) == Some((q.typeAndClass, offset + |QuestionBytes(q)|))
  {
    AtSplit(m, offset, NameBytes(q.name), q.typeAndClass);
    SkipsName(m, offset, q.name);
  }

  /** Items that begin where the one before ends are read one after the other. */
  lemma {:induction false} ReadsChain<T>(read: Reader<T>, m: Bytes, starts: seq<nat>, items: seq<T>)
    requires |starts| == |items| + 1
    requires forall k :: 0 <= k < |items| ==> read(m, starts[k]) == Some((items[k], starts[k + 1]))
    ensures ReadMany(read, m, starts[0], |items|) == Some((items, starts[|items|]))
    decreases |items|
  {
    if items != [] {
      assert read(m, starts[0]) == Some((items[0], starts[1]));
      ReadsChain(read, m, starts[1..], items[1..]);
      assert items == [items[0]] + items[1..];
    }
  }

  /** Where the questions begin, and where the last one ends. */
  lemma {:induction false} QuestionStarts(m: Bytes, offset: nat, qs: seq<Question>, end: nat) returns (starts: seq<nat>)
    requires QuestionsAt(m, offset, qs, end)
    ensures |starts| == |qs| + 1 && starts[0] == offset && starts[|qs|] == end
    ensures forall k :: 0 <= k < |qs| ==> ReadQuestion(m, starts[k]) == Some((qs[k].typeAndClass, starts[k + 1]))
    decreases |qs|
  {
    if qs == [] {
      starts := [offset];
    } else {
      ReadsQuestion(m, offset, qs[0]);
      var more := QuestionStarts(m, offset + |QuestionBytes(qs[0])|, qs[1..], end);
      starts := [offset] + more;
    }
  }

  function TypesAndClasses(qs: seq<Question>): seq<Bytes> {
    seq(|qs|, k requires 0 <= k < |qs| => qs[k].typeAndClass)
  }

  lemma ReadsQuestions(m: Bytes, offset: nat, qs: seq<Question>, end: nat)
    requires QuestionsAt(m, offset, qs, end)
    ensures ReadMany(ReadQuestion, m, offset, |qs|) == Some((TypesAndClasses(qs), end))
  {
    var starts := QuestionStarts(m, offset, qs, end);
    ReadsChain(ReadQuestion, m, starts, TypesAndClasses(qs));
  }

  /** The words and bytes at the fixed places of an answer. */
  lemma ReadsBody(m: Bytes, n: nat, b: Body)
    requires ValidBody(b) && At(m, n, FixedBytes(b)) && At(m, n + 10, b.data)
    ensures ReadBody(m, n) == Some((b, n + 10 + |b.data|))
  {
    var f := FixedBytes(b);
    var fixed := m[n..n + 10];
    assert forall i :: 0 <= i < 10 ==> m[n + i] == fixed[i];
    assert m[n + 4..n + 8] == fixed[4..8] == b.ttl;
  }

  lemma ReadsAnswer(m: Bytes, offset: nat, a: Answer)
    requires ValidAnswer(a) && At(m, offset, AnswerBytes(a))
    ensures ReadAnswer(m, offset) == Some((a.body, offset + |AnswerBytes(a)|))
  {
    var name, f, data := NameBytes(a.name), FixedBytes(a.body), a.body.data;
    AtSplit(m, offset, name + f, data);
    AtSplit(m, offset, name, f);
    SkipsName(m, offset, a.name);
    ReadsBody(m, offset + |name|, a.body);
  }

  /** Where the answers begin, and where the last one ends. */
  lemma {:induction false} AnswerStarts(m: Bytes, offset: nat, answers: seq<Answer>, end: nat)
    returns (starts: seq<nat>)
    requires AnswersAt(m, offset, answers, end)
    ensures |starts| == |answers| + 1 && starts[0] == offset && starts[|answers|] == end
    ensures forall k :: 0 <= k < |answers| ==> ReadAnswer(m, starts[k]) == Some((answers[k].body, starts[k + 1]))
    decreases |answers|
  {
    if answers == [] {
      starts := [offset];
    } else {
      ReadsAnswer(m, offset, answers[0]);
      var more := AnswerStarts(m, offset + |AnswerBytes(answers[0])|, answers[1..], end);
      starts := [offset] + more;
    }
  }

  lemma {:induction false} BodyAt(answers: seq<Answer>, k: nat)
    requires k < |answers|
    ensures |Bodies(answers)| == |answers| && Bodies(answers)[k] == answers[k].body
  {
    if |answers| > 1 {
      BodyAt(answers[1..], if k > 0 then k - 1 else 0);
    }
  }

  lemma ReadsAnswers(m: Bytes, offset: nat, answers: seq<Answer>, end: nat)
    requires AnswersAt(m, offset, answers, end)
    ensures ReadMany(ReadAnswer, m, offset, |answers|) == Some((Bodies(answers), end))
  {
    var starts := AnswerStarts(m, offset, answers, end);
    forall k | 0 <= k < |answers|
      ensures |Bodies(answers)| == |answers| && Bodies(answers)[k] == answers[k].body
    {
      BodyAt(answers, k);
    }
    ReadsChain(ReadAnswer, m, starts, Bodies(answers));
  }

  // ---- everything read is well formed -------------------------------------------------------------------

  lemma ConsLabel(part: Bytes, tail: Name)
    requires ValidLabel(part) && ValidName(tail)
    ensures ValidName(Name([part] + tail.labels, tail.ending))
    ensures NameBytes(Name([part] + tail.labels, tail.ending)) == LabelBytes(part) + NameBytes(tail)
  {
    assert ([part] + tail.labels)[1..] == tail.labels;
  }

  /** The name at `offset` fills the bytes up to `end`. */
  predicate Fills(m: Bytes, offset: nat, chunk: Bytes, end: nat) {
    At(m, offset, chunk) && end == offset + |chunk|
  }

  lemma FillsBoth(m: Bytes, offset: nat, a: Bytes, mid: nat, b: Bytes, end: nat)
    requires Fills(m, offset, a, mid) && Fills(m, mid, b, end)
    ensures Fills(m, offset, a + b, end)
  {
    AtSplit(m, offset, a, b);
  }

  lemma {:induction false} SplitName(m: Bytes, offset: nat) returns (n: Name)
    requires SkipName(m, offset).Some?
    ensures ValidName(n) && Fills(m, offset, NameBytes(n), SkipName(m, offset).value)
    decreases |m| - offset
  {
    if m[offset] == '\0' {
      n := Name([], Root);
    } else if m[offset] as int >= 0xc0 {
      n := Name([], Pointer(m[offset], m[offset + 1]));
    } else {
      var next := offset + 1 + m[offset] as int;
      var part := m[offset + 1..next];
      var tail := SplitName(m, next);
      n := Name([part] + tail.labels, tail.ending);
      ConsLabel(part, tail);
      assert m[offset..next] == LabelBytes(part);
      FillsBoth(m, offset, LabelBytes(part), next, NameBytes(tail), SkipName(m, offset).value);
    }
  }

  lemma SplitQuestion(m: Bytes, offset: nat) returns (q: Question)
    requires ReadQuestion(m, offset).Some?
    ensures ValidQuestion(q) && Fills(m, offset, QuestionBytes(q), ReadQuestion(m, offset).value.1)
  {
    var n := SkipName(m, offset).value;
    var name := SplitName(m, offset);
    q := Question(name, m[n..n + 4]);
    FillsBoth(m, offset, NameBytes(name), n, q.typeAndClass, n + 4);
  }

  lemma {:induction false} SplitQuestions(m: Bytes, offset: nat, count: nat) returns (qs: seq<Question>)
    requires ReadMany(ReadQuestion, m, offset, count).Some?
    ensures |qs| == count && QuestionsAt(m, offset, qs, ReadMany(ReadQuestion, m, offset, count).value.1)
    decreases count
  {
    if count == 0 {
      qs := [];
    } else {
      var q := SplitQuestion(m, offset);
      var more := SplitQuestions(m, ReadQuestion(m, offset).value.1, count - 1);
      qs := [q] + more;
      assert qs[1..] == more;
    }
  }

  lemma WordBack(m: Bytes, at: nat)
    requires at + 2 <= |m| && IsBytes(m)
    ensures 0 <= GetWord(m, at) < 65536 && PutWord(GetWord(m, at)) == m[at..at + 2]
  {
  }

  lemma SplitBody(m: Bytes, n: nat)
    requires ReadBody(m, n).Some? && IsBytes(m)
    ensures var (b, end) := ReadBody(m, n).value;
            ValidBody(b) && Fills(m, n, FixedBytes(b), n + 10) && Fills(m, n + 10, b.data, end)
  {
    var (b, end) := ReadBody(m, n).value;
    WordBack(m, n);
    WordBack(m, n + 2);
    WordBack(m, n + 8);
    assert m[n..n + 10] == m[n..n + 2] + m[n + 2..n + 4] + m[n + 4..n + 8] + m[n + 8..n + 10];
  }

  lemma SplitAnswer(m: Bytes, offset: nat) returns (a: Answer)
    requires ReadAnswer(m, offset).Some? && IsBytes(m)
    ensures ValidAnswer(a) && a.body == ReadAnswer(m, offset).value.0
    ensures Fills(m, offset, AnswerBytes(a), ReadAnswer(m, offset).value.1)
  {
    var n := SkipName(m, offset).value;
    var name := SplitName(m, offset);
    SplitBody(m, n);
    var (body, end) := ReadBody(m, n).value;
    a := Answer(name, body);
    FillsBoth(m, offset, NameBytes(name), n, FixedBytes(body), n + 10);
    FillsBoth(m, offset, NameBytes(name) + FixedBytes(body), n + 10, body.data, end);
  }

  lemma {:induction false} SplitAnswers(m: Bytes, offset: nat, count: nat) returns (answers: seq<Answer>)
    requires ReadMany(ReadAnswer, m, offset, count).Some? && IsBytes(m)
    ensures |answers| == count && AnswersAt(m, offset, answers, ReadMany(ReadAnswer, m, offset, count).value.1)
    ensures Bodies(answers) == ReadMany(ReadAnswer, m, offset, count).value.0
    decreases count
  {
    if count == 0 {
      answers := [];
    } else {
      var a := SplitAnswer(m, offset);
      var more := SplitAnswers(m, ReadAnswer(m, offset).value.1, count - 1);
      answers := [a] + more;
      ConsAnswers(m, offset, a, more, ReadMany(ReadAnswer, m, offset, count).value.1);
    }
  }

  lemma ConsAnswers(m: Bytes, offset: nat, a: Answer, more: seq<Answer>, end: nat)
    requires ValidAnswer(a) && At(m, offset, AnswerBytes(a)) && AnswersAt(m, offset + |AnswerBytes(a)|, more, end)
    ensures AnswersAt(m, offset, [a] + more, end) && Bodies([a] + more) == [a.body] + Bodies(more)
  {
    assert ([a] + more)[1..] == more;
  }
}
