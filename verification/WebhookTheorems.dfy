/** Any number of handler runs, for any messages, over a fixed endpoint list. */
module WebhookTheorems {
  import opened Common
  import opened WebhookHandler

  // ---- keys -------------------------------------------------------------------------------------

  predicate NoNul(s: string) {
    forall i :: 0 <= i < |s| ==> s[i] != '\0'
  }

  lemma KeyParts(messageId: string, endpointId: string)
    ensures var key := Key(messageId, endpointId);
            && |key| == |messageId| + 1 + |endpointId| && key[|messageId|] == '\0'
            && key[..|messageId|] == messageId && key[|messageId| + 1..] == endpointId
  {
  }

  /** One message id, followed by a NUL, starts the other. */
  predicate Collide(m1: string, m2: string) {
    m1 + "\0" <= m2 || m2 + "\0" <= m1
  }

  /** Deliveries of two messages can share a key exactly when their ids collide. */
  lemma KeysCollideIff(m1: string, m2: string)
    requires m1 != m2
    ensures (exists e1, e2 :: Key(m1, e1) == Key(m2, e2)) <==> Collide(m1, m2)
  {
    forall e1, e2 | Key(m1, e1) == Key(m2, e2) ensures Collide(m1, m2) {
      CollisionIsPrefix(m1, e1, m2, e2);
    }
    if m1 + "\0" <= m2 {
      Collides(m1, m2);
    }
    if m2 + "\0" <= m1 {
      Collides(m2, m1);
    }
  }

  lemma CollisionIsPrefix(m1: string, e1: string, m2: string, e2: string)
    requires Key(m1, e1) == Key(m2, e2) && m1 != m2
    ensures Collide(m1, m2)
  {
    KeyParts(m1, e1);
    KeyParts(m2, e2);
    var key := Key(m1, e1);
    if |m1| < |m2| {
      assert key[..|m2|][..|m1| + 1] == m1 + "\0";
    } else if |m2| < |m1| {
      assert key[..|m1|][..|m2| + 1] == m2 + "\0";
    }
  }

  lemma Collides(m1: string, m2: string)
    requires m1 + "\0" <= m2
    ensures Key(m1, m2[|m1| + 1..] + "\0") == Key(m2, "")
  {
    assert m2 == m1 + "\0" + m2[|m1| + 1..];
  }

  /** A key names one delivery among those of messages whose ids do not collide. */
  lemma KeyUnambiguous(m1: string, e1: string, m2: string, e2: string)
    requires Key(m1, e1) == Key(m2, e2) && (m1 == m2 || !Collide(m1, m2))
    ensures m1 == m2 && e1 == e2
  {
    if m1 != m2 {
      CollisionIsPrefix(m1, e1, m2, e2);
    }
    KeyParts(m1, e1);
    KeyParts(m2, e2);
  }

  /** Ids without a NUL never collide. */
  lemma NoNulNoCollision(m1: string, m2: string)
    requires NoNul(m1) && NoNul(m2)
    ensures !Collide(m1, m2)
  {
    NulInside(m1, m2);
    NulInside(m2, m1);
  }

  lemma NulInside(m1: string, m2: string)
    ensures m1 + "\0" <= m2 ==> !NoNul(m2)
  {
    if m1 + "\0" <= m2 {
      assert m2[|m1|] == (m1 + "\0")[|m1|];
    }
  }

  // ---- counting posts ---------------------------------------------------------------------------

  function CountPosts(posts: seq<Post>, messageId: string, endpointId: string): nat {
    if posts == [] then 0
    else
      CountPosts(posts[..|posts| - 1], messageId, endpointId) +
      (if posts[|posts| - 1].messageId == messageId && posts[|posts| - 1].endpointId == endpointId then 1 else 0)
  }

  function CountAccepted(posts: seq<Post>, messageId: string, endpointId: string): nat {
    if posts == [] then 0
    else
      CountAccepted(posts[..|posts| - 1], messageId, endpointId) +
      (if posts[|posts| - 1] == Post(messageId, endpointId, true) then 1 else 0)
  }

  lemma CountSnoc(posts: seq<Post>, p: Post, messageId: string, endpointId: string)
    ensures CountPosts(posts + [p], messageId, endpointId) ==
            CountPosts(posts, messageId, endpointId) +
            (if p.messageId == messageId && p.endpointId == endpointId then 1 else 0)
    ensures CountAccepted(posts + [p], messageId, endpointId) ==
            CountAccepted(posts, messageId, endpointId) + (if p == Post(messageId, endpointId, true) then 1 else 0)
  {
    assert (posts + [p])[..|posts|] == posts;
  }

  // ---- the invariant of one message -----------------------------------------------------------------

  predicate DistinctEndpoints(endpoints: seq<Endpoint>) {
    forall i, j :: 0 <= i < j < |endpoints| ==> endpoints[i].id != endpoints[j].id
  }

  predicate Done(d: Deliveries, m: Message, e: Endpoint) {
    Get(d, m.id, e.id).status == Succeeded
  }

  predicate Tried(d: Deliveries, m: Message, e: Endpoint) {
    Key(m.id, e.id) in d
  }

  /** Only after every earlier matching endpoint has succeeded is a matching endpoint tried. */
  predicate InOrder(endpoints: seq<Endpoint>, m: Message, d: Deliveries) {
    forall i, j ::
      0 <= i < j < |endpoints| && Matches(endpoints[i], m.eventType) && Matches(endpoints[j], m.eventType) &&
      Tried(d, m, endpoints[j]) ==>
        Done(d, m, endpoints[i])
  }

  /** The stored delivery counts the posts, and at most one of them was accepted. */
  predicate Counted(m: Message, e: Endpoint, d: Deliveries, posts: seq<Post>) {
    && Get(d, m.id, e.id).attemptCount == CountPosts(posts, m.id, e.id)
    && CountAccepted(posts, m.id, e.id) == (if Done(d, m, e) then 1 else 0)
  }

  predicate Inv(endpoints: seq<Endpoint>, m: Message, d: Deliveries, posts: seq<Post>) {
    && InOrder(endpoints, m, d)
    && forall i :: 0 <= i < |endpoints| ==> Counted(m, endpoints[i], d, posts)
  }

  /** The matching endpoints before position `i` have all succeeded. */
  predicate DoneBefore(endpoints: seq<Endpoint>, m: Message, d: Deliveries, i: nat)
    requires i <= |endpoints|
  {
    forall j :: 0 <= j < i && Matches(endpoints[j], m.eventType) ==> Done(d, m, endpoints[j])
  }

  // ---- one post -----------------------------------------------------------------------------------

  /** Recording a delivery changes that delivery alone. */
  lemma RecordFrame(d: Deliveries, m: Message, e: Endpoint, status: Status, lastError: string, now: int,
                    messageId: string, endpointId: string)
    requires messageId == m.id || !Collide(messageId, m.id)
    ensures var after := Record(d, m, e, status, lastError, now);
            var was, got := Get(d, messageId, endpointId), Get(after, messageId, endpointId);
            if messageId == m.id && endpointId == e.id then
              got.status == status && got.attemptCount == was.attemptCount + 1
            else
              got == was && (Key(messageId, endpointId) in after <==> Key(messageId, endpointId) in d)
  {
    if Key(messageId, endpointId) == Key(m.id, e.id) {
      KeyUnambiguous(messageId, endpointId, m.id, e.id);
    }
  }

  lemma PostKeepsOrder(endpoints: seq<Endpoint>, i: nat, m: Message, d: Deliveries, status: Status, lastError: string,
                       now: int)
    requires DistinctEndpoints(endpoints) && i < |endpoints| && Matches(endpoints[i], m.eventType)
    requires InOrder(endpoints, m, d) && DoneBefore(endpoints, m, d, i) && !Done(d, m, endpoints[i])
    ensures InOrder(endpoints, m, Record(d, m, endpoints[i], status, lastError, now))
    ensures DoneBefore(endpoints, m, Record(d, m, endpoints[i], status, lastError, now), i)
  {
    var after := Record(d, m, endpoints[i], status, lastError, now);
    forall j | 0 <= j < |endpoints| && j != i
      ensures Get(after, m.id, endpoints[j].id) == Get(d, m.id, endpoints[j].id)
      ensures Tried(after, m, endpoints[j]) <==> Tried(d, m, endpoints[j])
    {
      RecordFrame(d, m, endpoints[i], status, lastError, now, m.id, endpoints[j].id);
    }
  }

  lemma PostKeepsCount(m: Message, e: Endpoint, posted: Message, target: Endpoint, d: Deliveries, posts: seq<Post>,
                       ok: bool, lastError: string, now: int)
    requires m == posted || (m.id != posted.id && !Collide(m.id, posted.id))
    requires Counted(m, e, d, posts) && (m == posted && e.id == target.id ==> !Done(d, m, e))
    ensures Counted(m, e, Record(d, posted, target, if ok then Succeeded else Failed, lastError, now),
                    posts + [Post(posted.id, target.id, ok)])
  {
    RecordFrame(d, posted, target, if ok then Succeeded else Failed, lastError, now, m.id, e.id);
    CountSnoc(posts, Post(posted.id, target.id, ok), m.id, e.id);
  }

  lemma PostKeepsInv(endpoints: seq<Endpoint>, i: nat, m: Message, d: Deliveries, posts: seq<Post>, ok: bool,
                     lastError: string, now: int)
    requires DistinctEndpoints(endpoints) && i < |endpoints| && Matches(endpoints[i], m.eventType)
    requires Inv(endpoints, m, d, posts) && DoneBefore(endpoints, m, d, i) && !Done(d, m, endpoints[i])
    ensures var after := Record(d, m, endpoints[i], if ok then Succeeded else Failed, lastError, now);
            && Inv(endpoints, m, after, posts + [Post(m.id, endpoints[i].id, ok)])
            && DoneBefore(endpoints, m, after, i)
            && (ok ==> DoneBefore(endpoints, m, after, i + 1))
  {
    var status := if ok then Succeeded else Failed;
    var after := Record(d, m, endpoints[i], status, lastError, now);
    PostKeepsOrder(endpoints, i, m, d, status, lastError, now);
    var log := posts + [Post(m.id, endpoints[i].id, ok)];
    forall j | 0 <= j < |endpoints| ensures Counted(m, endpoints[j], after, log) {
      PostKeepsCount(m, endpoints[j], m, endpoints[i], d, posts, ok, lastError, now);
    }
  }

  // ---- one run ------------------------------------------------------------------------------------

  /** What a run from position `i` on achieves for its own message. */
  predicate RunGood(endpoints: seq<Endpoint>, i: nat, m: Message, d: Deliveries, posts: seq<Post>, o: Outside)
    requires i <= |endpoints|
  {
    var r := RunFrom(endpoints, i, m, d, o);
    && Inv(endpoints, m, r.deliveries, posts + r.posts)
    && (r.error == None <==> DoneBefore(endpoints, m, r.deliveries, |endpoints|))
  }

  predicate Skips(e: Endpoint, m: Message, d: Deliveries) {
    !Matches(e, m.eventType) || Done(d, m, e)
  }

  lemma RunSkip(endpoints: seq<Endpoint>, i: nat, m: Message, d: Deliveries, o: Outside)
    requires i < |endpoints| && Skips(endpoints[i], m, d)
    ensures RunFrom(endpoints, i, m, d, o) == RunFrom(endpoints, i + 1, m, d, o)
  {
  }

  lemma RunFails(endpoints: seq<Endpoint>, i: nat, m: Message, d: Deliveries, o: Outside)
    requires i < |endpoints| && !Skips(endpoints[i], m, d) && o.failure(endpoints[i].id).Some?
    ensures var e := endpoints[i]; var error := o.failure(e.id).value;
            RunFrom(endpoints, i, m, d, o) ==
                Run(Record(d, m, e, Failed, error, o.clock(e.id)), [Post(m.id, e.id, false)], Some(error))
  {
  }

  lemma RunGoesOn(endpoints: seq<Endpoint>, i: nat, m: Message, d: Deliveries, posts: seq<Post>, o: Outside)
    requires i < |endpoints| && !Skips(endpoints[i], m, d) && o.failure(endpoints[i].id).None?
    ensures var e := endpoints[i];
            var more := RunFrom(endpoints, i + 1, m, Record(d, m, e, Succeeded, "", o.clock(e.id)), o);
            var r := RunFrom(endpoints, i, m, d, o);
            && r.deliveries == more.deliveries && r.error == more.error
            && posts + r.posts == posts + [Post(m.id, e.id, true)] + more.posts
  {
    var e := endpoints[i];
    var more := RunFrom(endpoints, i + 1, m, Record(d, m, e, Succeeded, "", o.clock(e.id)), o);
    assert posts + [Post(m.id, e.id, true)] + more.posts == posts + ([Post(m.id, e.id, true)] + more.posts);
  }

  lemma FailedRunGood(endpoints: seq<Endpoint>, i: nat, m: Message, d: Deliveries, posts: seq<Post>, o: Outside)
    requires DistinctEndpoints(endpoints) && i < |endpoints| && !Skips(endpoints[i], m, d)
    requires o.failure(endpoints[i].id).Some?
    requires Inv(endpoints, m, d, posts) && DoneBefore(endpoints, m, d, i)
    ensures RunGood(endpoints, i, m, d, posts, o)
  {
    var e := endpoints[i];
    var error, now := o.failure(e.id).value, o.clock(e.id);
    RunFails(endpoints, i, m, d, o);
    PostKeepsInv(endpoints, i, m, d, posts, false, error, now);
    RecordFrame(d, m, e, Failed, error, now, m.id, e.id);
  }

  /** A run keeps the invariant of its message and succeeds exactly when every matching endpoint has. */
  lemma {:induction false} RunKeepsInv(endpoints: seq<Endpoint>, i: nat, m: Message, d: Deliveries, posts: seq<Post>,
                                       o: Outside)
    requires DistinctEndpoints(endpoints) && i <= |endpoints|
    requires Inv(endpoints, m, d, posts) && DoneBefore(endpoints, m, d, i)
    ensures RunGood(endpoints, i, m, d, posts, o)
    decreases |endpoints| - i
  {
    if i == |endpoints| {
      assert posts + [] == posts;
    } else if Skips(endpoints[i], m, d) {
      RunSkip(endpoints, i, m, d, o);
      RunKeepsInv(endpoints, i + 1, m, d, posts, o);
    } else if o.failure(endpoints[i].id).Some? {
      FailedRunGood(endpoints, i, m, d, posts, o);
    } else {
      var e := endpoints[i];
      var now := o.clock(e.id);
      PostKeepsInv(endpoints, i, m, d, posts, true, "", now);
      RunKeepsInv(endpoints, i + 1, m, Record(d, m, e, Succeeded, "", now), posts + [Post(m.id, e.id, true)], o);
      RunGoesOn(endpoints, i, m, d, posts, o);
    }
  }

  predicate OtherGood(endpoints: seq<Endpoint>, i: nat, m: Message, other: Message, d: Deliveries, posts: seq<Post>,
                      o: Outside)
    requires i <= |endpoints|
  {
    var r := RunFrom(endpoints, i, other, d, o);
    Inv(endpoints, m, r.deliveries, posts + r.posts)
  }

  /** A run for another message leaves the invariant of this one alone. */
  lemma {:induction false} OtherRunKeepsInv(endpoints: seq<Endpoint>, i: nat, m: Message, other: Message,
                                            d: Deliveries, posts: seq<Post>, o: Outside)
    requires i <= |endpoints| && m.id != other.id && !Collide(m.id, other.id) && Inv(endpoints, m, d, posts)
    ensures OtherGood(endpoints, i, m, other, d, posts, o)
    decreases |endpoints| - i
  {
    if i == |endpoints| {
      assert posts + [] == posts;
    } else {
      var e := endpoints[i];
      var failure, now := o.failure(e.id), o.clock(e.id);
      if Skips(e, other, d) {
        RunSkip(endpoints, i, other, d, o);
        OtherRunKeepsInv(endpoints, i + 1, m, other, d, posts, o);
      } else if failure.Some? {
        RunFails(endpoints, i, other, d, o);
        OtherPostKeepsInv(endpoints, m, other, e, d, posts, false, failure.value, now);
      } else {
        OtherPostKeepsInv(endpoints, m, other, e, d, posts, true, "", now);
        OtherRunKeepsInv(endpoints, i + 1, m, other, Record(d, other, e, Succeeded, "", now),
                         posts + [Post(other.id, e.id, true)], o);
        RunGoesOn(endpoints, i, other, d, posts, o);
      }
    }
  }

  lemma OtherPostKeepsInv(endpoints: seq<Endpoint>, m: Message, other: Message, e: Endpoint, d: Deliveries,
                          posts: seq<Post>, ok: bool, lastError: string, now: int)
    requires m.id != other.id && !Collide(m.id, other.id) && Inv(endpoints, m, d, posts)
    ensures Inv(endpoints, m, Record(d, other, e, if ok then Succeeded else Failed, lastError, now),
                posts + [Post(other.id, e.id, ok)])
  {
    var status := if ok then Succeeded else Failed;
    var after, log := Record(d, other, e, status, lastError, now), posts + [Post(other.id, e.id, ok)];
    forall j | 0 <= j < |endpoints|
      ensures Counted(m, endpoints[j], after, log)
      ensures Done(after, m, endpoints[j]) == Done(d, m, endpoints[j])
      ensures Tried(after, m, endpoints[j]) == Tried(d, m, endpoints[j])
    {
      PostKeepsCount(m, endpoints[j], other, e, d, posts, ok, lastError, now);
      RecordFrame(d, other, e, status, lastError, now, m.id, endpoints[j].id);
    }
  }

  // ---- any number of runs ---------------------------------------------------------------------------

  datatype Call = Call(message: Message, decodes: bool, outside: Outside)

  /** Deliveries and posts after the first `n` calls; the error of the last one. */
  function After(endpoints: seq<Endpoint>, calls: seq<Call>, n: nat): Run
    requires n <= |calls|
  {
    if n == 0 then Run(map[], [], None)
    else
      var before := After(endpoints, calls, n - 1);
      var c := calls[n - 1];
      var r := Handle(endpoints, c.message, c.decodes, before.deliveries, c.outside);
      r.(posts := before.posts + r.posts)
  }

  /** The message `m` comes with its own id only, and no other id in the run collides with it. */
  predicate WellNamed(calls: seq<Call>, m: Message) {
    forall i :: 0 <= i < |calls| ==> calls[i].message == m || NamedApart(calls[i].message.id, m.id)
  }

  predicate NamedApart(a: string, b: string) {
    a != b && !Collide(b, a)
  }

  lemma {:induction false} CallsKeepInv(endpoints: seq<Endpoint>, calls: seq<Call>, n: nat, m: Message)
    requires DistinctEndpoints(endpoints) && n <= |calls| && WellNamed(calls, m)
    ensures Inv(endpoints, m, After(endpoints, calls, n).deliveries, After(endpoints, calls, n).posts)
  {
    if n > 0 {
      CallsKeepInv(endpoints, calls, n - 1, m);
      var before, c := After(endpoints, calls, n - 1), calls[n - 1];
      if !c.decodes {
        assert before.posts + [] == before.posts;
      } else if c.message == m {
        RunKeepsInv(endpoints, 0, m, before.deliveries, before.posts, c.outside);
      } else {
        OtherRunKeepsInv(endpoints, 0, m, c.message, before.deliveries, before.posts, c.outside);
      }
    }
  }

  /** The endpoints that have succeeded are always a prefix of the matching ones. */
  lemma SucceededIsPrefix(endpoints: seq<Endpoint>, calls: seq<Call>, n: nat, m: Message, i: nat, j: nat)
    requires DistinctEndpoints(endpoints) && n <= |calls| && WellNamed(calls, m)
    requires i < j < |endpoints| && Matches(endpoints[i], m.eventType) && Matches(endpoints[j], m.eventType)
    ensures Done(After(endpoints, calls, n).deliveries, m, endpoints[j]) ==>
            Done(After(endpoints, calls, n).deliveries, m, endpoints[i])
  {
    CallsKeepInv(endpoints, calls, n, m);
  }

  /** The attempt count of an endpoint is its number of posts, at most one of which was accepted. */
  lemma PostsAccounted(endpoints: seq<Endpoint>, calls: seq<Call>, n: nat, m: Message, i: nat)
    requires DistinctEndpoints(endpoints) && n <= |calls| && WellNamed(calls, m) && i < |endpoints|
    ensures var after, id := After(endpoints, calls, n), endpoints[i].id;
            && Get(after.deliveries, m.id, id).attemptCount == CountPosts(after.posts, m.id, id)
            && CountAccepted(after.posts, m.id, id) <= 1
  {
    CallsKeepInv(endpoints, calls, n, m);
    assert Counted(m, endpoints[i], After(endpoints, calls, n).deliveries, After(endpoints, calls, n).posts);
  }

  /** A call reports success exactly when the payload decodes and every matching endpoint has accepted the message. */
  lemma SuccessIffAllAccepted(endpoints: seq<Endpoint>, calls: seq<Call>, n: nat)
    requires DistinctEndpoints(endpoints) && 0 < n <= |calls| && WellNamed(calls, calls[n - 1].message)
    ensures var after, m := After(endpoints, calls, n), calls[n - 1].message;
            after.error == None <==>
            calls[n - 1].decodes && forall i :: 0 <= i < |endpoints| && Matches(endpoints[i], m.eventType) ==>
                CountAccepted(after.posts, m.id, endpoints[i].id) == 1
  {
    var c, before := calls[n - 1], After(endpoints, calls, n - 1);
    CallsKeepInv(endpoints, calls, n - 1, c.message);
    CallsKeepInv(endpoints, calls, n, c.message);
    RunKeepsInv(endpoints, 0, c.message, before.deliveries, before.posts, c.outside);
    var after := After(endpoints, calls, n);
    assert forall i :: 0 <= i < |endpoints| ==> Counted(c.message, endpoints[i], after.deliveries, after.posts);
  }

  // ---- why ids must not collide -----------------------------------------------------------------------

  /**
   For any two ids that collide there are messages, two endpoints and two runs after which one message counts an
   attempt that was never posted, and its run reports success.
   */
  lemma CollidingIdsMiscount(id1: string, id2: string) returns (endpoints: seq<Endpoint>, calls: seq<Call>)
    requires id1 + "\0" <= id2
    ensures DistinctEndpoints(endpoints) && |endpoints| == 2 && |calls| == 2
    ensures calls[0].message.id == id1 && calls[1].message.id == id2
    ensures var after := After(endpoints, calls, 2);
            && after.error == None && Matches(endpoints[1], calls[1].message.eventType)
            && Get(after.deliveries, id2, endpoints[1].id).attemptCount == 1
            && CountPosts(after.posts, id2, endpoints[1].id) == 0
  {
    var o := Outside(_ => None, _ => 1);
    var tail := id2[|id1| + 1..] + "\0";
    var m1, m2 := Message(id1, "one"), Message(id2, "two");
    var e1, e2 := Endpoint(tail, true, true, ["one"]), Endpoint("", true, true, ["two"]);
    endpoints, calls := [e1, e2], [Call(m1, true, o), Call(m2, true, o)];
    Collides(id1, id2);
    var d := Record(map[], m1, e1, Succeeded, "", 1);
    assert Get(d, id2, "") == Get(d, id1, tail);
    FirstRun(endpoints, m1, o);
    SecondRun(endpoints, m2, d, o);
    AfterTwo(endpoints, calls, [Post(id1, tail, true)], d);
  }

  /** The first message goes to the first endpoint only. */
  lemma FirstRun(endpoints: seq<Endpoint>, m: Message, o: Outside)
    requires |endpoints| == 2 && Matches(endpoints[0], m.eventType) && !Matches(endpoints[1], m.eventType)
    requires o.failure(endpoints[0].id) == None
    ensures RunFrom(endpoints, 0, m, map[], o) ==
            Run(Record(map[], m, endpoints[0], Succeeded, "", o.clock(endpoints[0].id)),
                [Post(m.id, endpoints[0].id, true)], None)
  {
    var d := Record(map[], m, endpoints[0], Succeeded, "", o.clock(endpoints[0].id));
    assert RunFrom(endpoints, 2, m, d, o) == Run(d, [], None);
    assert RunFrom(endpoints, 1, m, d, o) == Run(d, [], None);
  }

  /** The second message matches the second endpoint, whose delivery already reads as succeeded. */
  lemma SecondRun(endpoints: seq<Endpoint>, m: Message, d: Deliveries, o: Outside)
    requires |endpoints| == 2 && !Matches(endpoints[0], m.eventType) && Done(d, m, endpoints[1])
    ensures RunFrom(endpoints, 0, m, d, o) == Run(d, [], None)
  {
    assert RunFrom(endpoints, 2, m, d, o) == Run(d, [], None);
    assert RunFrom(endpoints, 1, m, d, o) == Run(d, [], None);
  }

  lemma AfterTwo(endpoints: seq<Endpoint>, calls: seq<Call>, posts: seq<Post>, d: Deliveries)
    requires |calls| == 2 && calls[0].decodes && calls[1].decodes && |posts| == 1
    requires RunFrom(endpoints, 0, calls[0].message, map[], calls[0].outside) == Run(d, posts, None)
    requires RunFrom(endpoints, 0, calls[1].message, d, calls[1].outside) == Run(d, [], None)
    requires posts[0].messageId != calls[1].message.id
    ensures After(endpoints, calls, 2) == Run(d, posts, None)
    ensures forall endpointId :: CountPosts(posts, calls[1].message.id, endpointId) == 0
  {
    assert After(endpoints, calls, 0) == Run(map[], [], None);
    assert [] + posts == posts;
    assert After(endpoints, calls, 1) == Run(d, posts, None);
    assert posts + [] == posts;
    assert posts[..0] == [];
  }
}
