/** Building a CAA query and climbing from a name towards the root. */
module CaaLookup {
  import opened Common
  import opened DnsWire
  import opened CaaResponse

  const DOT: char := '.'
  const MAX_LABEL: nat := 63
  const NUL: Bytes := ['\0']

  /** The first dot, or the length if there is none. */
  function FirstDot(s: Bytes): (d: nat)
    ensures d <= |s| && (d < |s| ==> s[d] == DOT)
  {
    FirstDotFrom(s, 0)
  }

  function FirstDotFrom(s: Bytes, i: nat): (d: nat)
    requires i <= |s|
    ensures i <= d <= |s| && (d < |s| ==> s[d] == DOT)
    decreases |s| - i
  {
    if i == |s| || s[i] == DOT then i else FirstDotFrom(s, i + 1)
  }

  /** One trailing dot is dropped. */
  function TrimDot(s: Bytes): Bytes {
    if s != [] && s[|s| - 1] == DOT then s[..|s| - 1] else s
  }

  /** The labels between the dots. */
  function Split(s: Bytes): (labels: seq<Bytes>)
    ensures labels != []
    decreases |s|
  {
    var d := FirstDot(s);
    if d == |s| then [s] else [s[..d]] + Split(s[d + 1..])
  }

  function JoinDots(labels: seq<Bytes>): Bytes
    requires labels != []
  {
    if |labels| == 1 then labels[0] else labels[0] + [DOT] + JoinDots(labels[1..])
  }

  lemma JoinCons(first: Bytes, more: seq<Bytes>)
    requires more != []
    ensures JoinDots([first] + more) == first + [DOT] + JoinDots(more)
  {
    assert ([first] + more)[1..] == more;
  }

  lemma CutAtDot(s: Bytes, d: nat)
    requires d < |s| && s[d] == DOT
    ensures s == s[..d] + [DOT] + s[d + 1..]
  {
  }

  lemma {:induction false} JoinSplit(s: Bytes)
    ensures JoinDots(Split(s)) == s
    decreases |s|
  {
    var d := FirstDot(s);
    if d < |s| {
      JoinSplit(s[d + 1..]);
      JoinCons(s[..d], Split(s[d + 1..]));
      CutAtDot(s, d);
    }
  }

  /** No label holds a dot. */
  lemma {:induction false} LabelsHaveNoDot(s: Bytes)
    ensures forall k :: 0 <= k < |Split(s)| ==> DOT !in Split(s)[k]
    decreases |s|
  {
    var d := FirstDot(s);
    NoDotBefore(s, 0);
    if d < |s| {
      LabelsHaveNoDot(s[d + 1..]);
    }
  }

  lemma {:induction false} NoDotBefore(s: Bytes, i: nat)
    requires i <= |s|
    ensures forall k :: i <= k < FirstDotFrom(s, i) ==> s[k] != DOT
    decreases |s| - i
  {
    if i < |s| && s[i] != DOT {
      NoDotBefore(s, i + 1);
    }
  }

  // ---- the query --------------------------------------------------------------------------------

  predicate QueryLabel(part: Bytes) {
    1 <= |part| <= MAX_LABEL
  }

  predicate QueryLabels(labels: seq<Bytes>) {
    forall i :: 0 <= i < |labels| ==> QueryLabel(labels[i])
  }

  /** Recursion desired, one question. */
  function QueryHeader(id: Word): Bytes {
    PutWord(id) + PutWord(0x0100) + PutWord(1) + ['\0', '\0', '\0', '\0', '\0', '\0']
  }

  /** Type 257 and class 1. */
  const QUERY_TAIL: Bytes := PutWord(TYPE_CAA) + PutWord(CLASS_IN)

  function LabelsBytes(labels: seq<Bytes>): Bytes
    requires QueryLabels(labels)
  {
    if labels == [] then [] else LabelBytes(labels[0]) + LabelsBytes(labels[1..])
  }

  lemma Assoc(a: Bytes, b: Bytes, c: Bytes)
    ensures a + b + c == a + (b + c)
  {
  }

  lemma {:induction false} LabelsBytesSnoc(labels: seq<Bytes>, part: Bytes)
    requires QueryLabels(labels) && QueryLabel(part)
    ensures QueryLabels(labels + [part]) && LabelsBytes(labels + [part]) == LabelsBytes(labels) + LabelBytes(part)
  {
    if labels != [] {
      LabelsBytesSnoc(labels[1..], part);
      assert (labels + [part])[1..] == labels[1..] + [part];
      Assoc(LabelBytes(labels[0]), LabelsBytes(labels[1..]), LabelBytes(part));
    } else {
      assert [part][1..] == [];
      assert LabelBytes(part) + [] == LabelBytes(part);
    }
  }

  lemma {:induction false} LabelsThenRoot(labels: seq<Bytes>)
    requires QueryLabels(labels)
    ensures ValidName(Name(labels, Root)) && NameBytes(Name(labels, Root)) == LabelsBytes(labels) + NUL
  {
    if labels != [] {
      LabelsThenRoot(labels[1..]);
      Assoc(LabelBytes(labels[0]), LabelsBytes(labels[1..]), NUL);
    }
  }

  function Query(id: Word, labels: seq<Bytes>): Bytes
    requires QueryLabels(labels)
  {
    QueryHeader(id) + LabelsBytes(labels) + NUL + QUERY_TAIL
  }

  /** Where the bytes of label `k` begin, counted from the first. */
  function LabelStart(labels: seq<Bytes>, k: nat): nat
    requires k <= |labels|
  {
    if k == 0 then 0 else LabelStart(labels, k - 1) + 1 + |labels[k - 1]|
  }

  /** Every label stands behind its length, right after the one before it. */
  lemma {:induction false} LabelsStandInOrder(labels: seq<Bytes>, k: nat)
    requires QueryLabels(labels) && k <= |labels|
    ensures |LabelsBytes(labels[..k])| == LabelStart(labels, k)
    ensures k < |labels| ==>
              var at, bytes := LabelStart(labels, k), LabelsBytes(labels[..k + 1]);
              at < |bytes| && bytes[at] as int == |labels[k]| && bytes[at + 1..] == labels[k]
    decreases k
  {
    if k > 0 {
      LabelsStandInOrder(labels, k - 1);
      assert labels[..k] == labels[..k - 1] + [labels[k - 1]];
      LabelsBytesSnoc(labels[..k - 1], labels[k - 1]);
    }
    if k < |labels| {
      assert labels[..k + 1] == labels[..k] + [labels[k]];
      LabelsBytesSnoc(labels[..k], labels[k]);
      var front, bytes := LabelsBytes(labels[..k]), LabelsBytes(labels[..k + 1]);
      assert bytes == front + ([|labels[k]| as char] + labels[k]);
    }
  }

  /** The bytes of a query: the id, recursion desired, one question and no other section; type 257 and class 1. */
  lemma QueryBytes(id: Word, labels: seq<Bytes>)
    requires QueryLabels(labels)
    ensures Query(id, labels) ==
            [(id / 256) as char, (id % 256) as char, 1 as char, 0 as char, 0 as char, 1 as char, 0 as char, 0 as char,
             0 as char, 0 as char, 0 as char, 0 as char] +
            LabelsBytes(labels) + [0 as char, 1 as char, 1 as char, 0 as char, 1 as char]
  {
    Assoc(QueryHeader(id) + LabelsBytes(labels), NUL, QUERY_TAIL);
    assert NUL + QUERY_TAIL == [0 as char, 1 as char, 1 as char, 0 as char, 1 as char];
  }

  /** A name is asked for as it is written, but for one dot at its end. */
  lemma AsksForTheName(name: Bytes)
    requires name != [] && name[|name| - 1] != '.'
    ensures JoinDots(Split(TrimDot(name))) == name && Suffix(Split(TrimDot(name)), 0) == name
    ensures JoinDots(Split(TrimDot(name + "."))) == name && Suffix(Split(TrimDot(name + ".")), 0) == name
  {
    assert (name + ".")[..|name|] == name;
    JoinSplit(name);
    FirstSuffix(name);
  }

  method BuildCaaQuery(name: Bytes, id: Word) returns (r: Result<Bytes, DnsError>)
    ensures r.Ok? <==> forall i :: 0 <= i < |Split(TrimDot(name))| ==> 1 <= |Split(TrimDot(name))[i]| <= 63
    ensures r.Ok? ==> QueryLabels(Split(TrimDot(name))) && r.value == Query(id, Split(TrimDot(name)))
    ensures r.Err? ==> r.error == InvalidRequest
    ensures name != [] && name[|name| - 1] != '.' ==> JoinDots(Split(TrimDot(name))) == name
    ensures name != [] && name[|name| - 1] == '.' ==> JoinDots(Split(TrimDot(name))) + "." == name
  {
    JoinSplit(TrimDot(name));
    var out := QueryHeader(id);
    var labels := Split(TrimDot(name));
    for i := 0 to |labels|
      invariant QueryLabels(labels[..i])
      invariant out == QueryHeader(id) + LabelsBytes(labels[..i])
    {
      var part := labels[i];
      if |part| == 0 || |part| > MAX_LABEL {
        return Err(InvalidRequest);
      }
      assert labels[..i + 1] == labels[..i] + [part];
      LabelsBytesSnoc(labels[..i], part);
      Assoc(QueryHeader(id), LabelsBytes(labels[..i]), LabelBytes(part));
      out := out + LabelBytes(part);
    }
    assert labels[..|labels|] == labels;
    return Ok(out + NUL + QUERY_TAIL);
  }

  /** Skipping the name of a query lands on its type and class, which are all that is left. */
  lemma QueryNameEndsAtTypeAndClass(id: Word, labels: seq<Bytes>)
    requires QueryLabels(labels)
    ensures var q := Query(id, labels);
            && SkipName(q, HEADER_LENGTH) == Some(|q| - 4)
            && GetWord(q, |q| - 4) == 257 && GetWord(q, |q| - 2) == 1
  {
    var q, header, body := Query(id, labels), QueryHeader(id), LabelsBytes(labels);
    assert At(q, 0, q);
    AtSplit(q, 0, header + body + NUL, QUERY_TAIL);
    Assoc(header, body, NUL);
    AtSplit(q, 0, header, body + NUL);
    LabelsThenRoot(labels);
    SkipsName(q, HEADER_LENGTH, Name(labels, Root));
    var tail := q[|q| - 4..|q|];
    assert tail == QUERY_TAIL;
    assert forall i :: 0 <= i < 4 ==> q[|q| - 4 + i] == tail[i];
  }

  lemma SameQueryLabels(id: Word, a: seq<Bytes>, b: seq<Bytes>)
    requires QueryLabels(a) && QueryLabels(b) && Query(id, a) == Query(id, b)
    ensures LabelsBytes(a) == LabelsBytes(b)
  {
    SameHalves(QueryHeader(id) + LabelsBytes(a) + NUL, QUERY_TAIL, QueryHeader(id) + LabelsBytes(b) + NUL, QUERY_TAIL);
    SameHalves(QueryHeader(id) + LabelsBytes(a), NUL, QueryHeader(id) + LabelsBytes(b), NUL);
    SameHalves(QueryHeader(id), LabelsBytes(a), QueryHeader(id), LabelsBytes(b));
  }

  lemma {:induction false} LabelsUnambiguous(a: seq<Bytes>, b: seq<Bytes>)
    requires QueryLabels(a) && QueryLabels(b) && LabelsBytes(a) == LabelsBytes(b)
    ensures a == b
  {
    if a != [] && b != [] {
      var x, y := LabelBytes(a[0]), LabelBytes(b[0]);
      assert LabelsBytes(a)[0] as int == |a[0]| && LabelsBytes(b)[0] as int == |b[0]|;
      SameHalves(x, LabelsBytes(a[1..]), y, LabelsBytes(b[1..]));
      assert a[0] == x[1..] && b[0] == y[1..];
      LabelsUnambiguous(a[1..], b[1..]);
      assert a == [a[0]] + a[1..] && b == [b[0]] + b[1..];
    }
  }

  /** A query determines the name it asks for. */
  lemma QueryDeterminesName(id: Word, a: Bytes, b: Bytes)
    requires QueryLabels(Split(TrimDot(a))) && QueryLabels(Split(TrimDot(b)))
    requires Query(id, Split(TrimDot(a))) == Query(id, Split(TrimDot(b)))
    ensures TrimDot(a) == TrimDot(b)
    ensures a == b || a + "." == b || a == b + "."
  {
    SameLabelsSameName(id, TrimDot(a), TrimDot(b));
    OneDotAtMost(a);
    OneDotAtMost(b);
  }

  lemma SameLabelsSameName(id: Word, a: Bytes, b: Bytes)
    requires QueryLabels(Split(a)) && QueryLabels(Split(b)) && Query(id, Split(a)) == Query(id, Split(b))
    ensures a == b
  {
    SameQueryLabels(id, Split(a), Split(b));
    LabelsUnambiguous(Split(a), Split(b));
    JoinSplit(a);
    JoinSplit(b);
  }

  lemma OneDotAtMost(s: Bytes)
    ensures s == TrimDot(s) || s == TrimDot(s) + "."
  {
  }

  // ---- the climb --------------------------------------------------------------------------------

  type Answered = Result<LookupResult, DnsError>

  const NO_ANSWER: Answered := Ok(LookupResult([], Indeterminate))

  predicate NotFound(o: Outcome) {
    o.Ok? && !o.value.1
  }

  function AnswerOf(o: Outcome): Answered {
    match o
    case Err(e) => Err(e)
    case Ok(pair) => Ok(pair.0)
  }

  /** What is left of a name after its first `k` labels: the name itself, then what follows each dot in turn. */
  function Suffix(labels: seq<Bytes>, k: nat): Bytes
    requires k < |labels|
  {
    JoinDots(labels[k..])
  }

  /** The first dot of a non-last suffix ends its first label. */
  lemma SuffixCut(name: Bytes, labels: seq<Bytes>, k: nat, rest: Bytes)
    requires k < |labels| && Split(name) == labels[k..] && FirstDot(name) < |name| && rest == name[FirstDot(name) + 1..]
    ensures k + 1 < |labels| && Split(rest) == labels[k + 1..]
  {
    TailOf(labels, k, name[..FirstDot(name)], Split(rest));
  }

  lemma TailOf(labels: seq<Bytes>, k: nat, first: Bytes, more: seq<Bytes>)
    requires k < |labels| && labels[k..] == [first] + more && more != []
    ensures k + 1 < |labels| && more == labels[k + 1..]
  {
    assert |labels| - k == 1 + |more|;
    assert more == ([first] + more)[1..] == labels[k..][1..];
  }

  lemma LastSuffix(name: Bytes, labels: seq<Bytes>, k: nat)
    requires k < |labels| && Split(name) == labels[k..] && FirstDot(name) == |name|
    ensures k + 1 == |labels|
  {
    assert Split(name) == [name];
  }

  /** The climb from the `k`-th suffix on. */
  function Climb(lookup: Bytes -> Outcome, labels: seq<Bytes>, k: nat): Answered
    requires k < |labels|
    decreases |labels| - k
  {
    var name := Suffix(labels, k);
    if name == [] then NO_ANSWER
    else if NotFound(lookup(name)) && k + 1 < |labels| then Climb(lookup, labels, k + 1)
    else AnswerOf(lookup(name))
  }

  method LookupCaa(lookup: Bytes -> Outcome, dnsName: Bytes) returns (r: Answered, calls: nat)
    ensures r == Climb(lookup, Split(TrimDot(dnsName)), 0)
    ensures calls <= |Split(TrimDot(dnsName))|
    ensures dnsName != [] && dnsName[|dnsName| - 1] != '.' ==> Suffix(Split(TrimDot(dnsName)), 0) == dnsName
    ensures dnsName != [] && dnsName[|dnsName| - 1] == '.' ==> Suffix(Split(TrimDot(dnsName)), 0) + "." == dnsName
  {
    r, calls := ClimbFrom(lookup, TrimDot(dnsName));
    FirstSuffix(TrimDot(dnsName));
  }

  /** The loop that cuts one label after the other. */
  method ClimbFrom(lookup: Bytes -> Outcome, start: Bytes) returns (r: Answered, calls: nat)
    ensures r == Climb(lookup, Split(start), 0) && calls <= |Split(start)|
  {
    var name := start;
    ghost var labels := Split(name);
    calls := 0;
    while name != []
      invariant calls < |labels| && Split(name) == labels[calls..]
      invariant Climb(lookup, labels, 0) == Climb(lookup, labels, calls)
      decreases |labels| - calls
    {
      JoinSplit(name);
      var outcome := lookup(name);
      if outcome.Err? {
        return Err(outcome.error), calls + 1;
      }
      var (result, found) := outcome.value;
      if found {
        return Ok(result), calls + 1;
      }
      var d := FirstDot(name);
      if d == |name| {
        LastSuffix(name, labels, calls);
        return Ok(result), calls + 1;
      }
      SuffixCut(name, labels, calls, name[d + 1..]);
      name := name[d + 1..];
      calls := calls + 1;
    }
    JoinSplit(name);
    return NO_ANSWER, calls;
  }

  /**
   The climb answers for one suffix after only not-found answers for all longer ones: the longest that is
   found or fails, or else the last. Nothing is asked for an empty rest, as after a trailing dot.
   */
  lemma {:induction false} ClimbsToLongest(lookup: Bytes -> Outcome, labels: seq<Bytes>, i: nat) returns (k: nat)
    requires i < |labels|
    ensures i <= k < |labels|
    ensures forall j :: i <= j < k ==> NotFound(lookup(Suffix(labels, j)))
    ensures var u := Suffix(labels, k);
            if u == [] then Climb(lookup, labels, i) == Ok(LookupResult([], Indeterminate))
            else Climb(lookup, labels, i) == AnswerOf(lookup(u)) && (k + 1 == |labels| || !NotFound(lookup(u)))
    decreases |labels| - i
  {
    var u := Suffix(labels, i);
    if u != [] && NotFound(lookup(u)) && i + 1 < |labels| {
      k := ClimbsToLongest(lookup, labels, i + 1);
    } else {
      k := i;
    }
  }

  /** The first suffix is the name itself. */
  lemma FirstSuffix(name: Bytes)
    ensures Suffix(Split(name), 0) == name
  {
    JoinSplit(name);
    assert Split(name)[0..] == Split(name);
  }
}
