/** The order in which due messages are handed out. */
module OutboxListing {
  import opened Common
  import opened OutboxModel

  function DueAt(m: Message): int {
    if m.status == Processing then m.deadline else m.availableAt
  }

  /** The comparison of the listing: due time, creation time, id. */
  predicate Less(a: Message, b: Message) {
    if DueAt(a) != DueAt(b) then DueAt(a) < DueAt(b)
    else if a.createdAt != b.createdAt then a.createdAt < b.createdAt
    else StringLess(a.id, b.id)
  }

  /** What is due at `now`: pending and available, or leased with a deadline that has passed. */
  predicate IsDue(m: Message, now: int) {
    || (m.status == Pending && m.availableAt <= now)
    || (m.status == Processing && m.deadline != 0 && m.deadline <= now)
  }

  /** The order in the fields: available or expired earlier, or created earlier, or the smaller id. */
  predicate HandedOutBefore(a: Message, b: Message) {
    var x := if a.status == Processing then a.deadline else a.availableAt;
    var y := if b.status == Processing then b.deadline else b.availableAt;
    x < y || (x == y && (a.createdAt < b.createdAt || (a.createdAt == b.createdAt && StringLess(a.id, b.id))))
  }

  lemma OrderInFields()
    ensures forall a, b :: Less(a, b) <==> HandedOutBefore(a, b)
    ensures forall m, now :: Due(m, now) <==> IsDue(m, now)
  {
  }

  /** Messages with different ids are always ordered one way. */
  lemma LessTotal(a: Message, b: Message)
    requires a.id != b.id
    ensures Less(a, b) != Less(b, a)
  {
    StringLessTotal(a.id, b.id);
  }

  lemma LessTransitive(a: Message, b: Message, c: Message)
    requires Less(a, b) && Less(b, c)
    ensures Less(a, c)
  {
    if DueAt(a) == DueAt(b) == DueAt(c) && a.createdAt == b.createdAt == c.createdAt {
      StringLessTransitive(a.id, b.id, c.id);
    }
  }

  /** Strictly ascending, hence also without repetition. */
  ghost predicate Sorted(s: seq<Message>) {
    forall i, j :: 0 <= i < j < |s| ==> Less(s[i], s[j])
  }

  /** Put a message with a new id at its place in a sorted list. */
  method Insert(s: seq<Message>, m: Message) returns (r: seq<Message>)
    requires Sorted(s) && forall i :: 0 <= i < |s| ==> s[i].id != m.id
    ensures Sorted(r) && |r| == |s| + 1
    ensures forall x :: x in r <==> x in s || x == m
  {
    var k := 0;
    while k < |s| && Less(s[k], m)
      invariant 0 <= k <= |s|
      invariant forall i :: 0 <= i < k ==> Less(s[i], m)
    {
      k := k + 1;
    }
    r := s[..k] + [m] + s[k..];
    forall i | k <= i < |s|
      ensures Less(m, s[i])
    {
      LessTotal(s[k], m);
      if k < i {
        LessTransitive(m, s[k], s[i]);
      }
    }
    assert s == s[..k] + s[k..];
    forall i, j | 0 <= i < j < |r|
      ensures Less(r[i], r[j])
    {
      if i < k && k < j {
        LessTransitive(r[i], m, r[j]);
      }
    }
  }

  /** The messages due at `now`, earliest first, at most `limit` of them. */
  method ListDue(outbox: map<string, Message>, now: int, limit: int) returns (due: seq<Message>)
    requires forall id :: id in outbox ==> outbox[id].id == id
    ensures Sorted(due)
    ensures forall i, j :: 0 <= i < j < |due| ==> HandedOutBefore(due[i], due[j])
    ensures forall m :: m in due ==> m.id in outbox && outbox[m.id] == m
    ensures forall m :: m in due ==> Due(m, now) && IsDue(m, now)
    ensures |due| <= if limit <= 0 then 0 else limit
    ensures limit > 0 ==>
              forall id :: id in outbox && IsDue(outbox[id], now) && outbox[id] !in due
                        ==> |due| == limit && forall m :: m in due ==> HandedOutBefore(m, outbox[id])
  {
    due := [];
    if limit <= 0 {
      return;
    }
    var todo := outbox.Keys;
    while todo != {}
      invariant todo <= outbox.Keys
      invariant Sorted(due)
      invariant forall m :: m in due ==> m.id in outbox && m.id !in todo && outbox[m.id] == m && Due(m, now)
      invariant forall id :: id in outbox && id !in todo && Due(outbox[id], now) ==> outbox[id] in due
      decreases todo
    {
      var id :| id in todo;
      if Due(outbox[id], now) {
        due := Insert(due, outbox[id]);
      }
      todo := todo - {id};
    }
    if |due| > limit {
      due := Truncate(due, limit);
    }
    OrderInFields();
  }

  /** The first `limit` entries of a sorted list come before all the others. */
  method Truncate(due: seq<Message>, limit: nat) returns (r: seq<Message>)
    requires Sorted(due) && limit < |due|
    ensures Sorted(r) && |r| == limit && forall m :: m in r ==> m in due
    ensures forall x, m :: x in due && x !in r && m in r ==> Less(m, x)
  {
    r := due[..limit];
    forall x, m | x in due && x !in r && m in r
      ensures Less(m, x)
    {
      var i :| 0 <= i < |due| && due[i] == x;
      var j :| 0 <= j < limit && due[j] == m;
    }
  }
}
