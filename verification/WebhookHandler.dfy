/** Delivering an outbox message to its webhook endpoints. */
module WebhookHandler {
  import opened Common

  datatype Endpoint = Endpoint(id: string, isWebhook: bool, active: bool, eventTypes: seq<string>)

  datatype Message = Message(id: string, eventType: string)

  /** Unset is the status of a delivery that was never recorded. */
  datatype Status = Unset | Failed | Succeeded

  datatype Delivery = Delivery(messageId: string, endpointId: string, status: Status, attemptCount: int,
                               lastError: string, createdAt: int, updatedAt: int)

  type Deliveries = map<string, Delivery>

  const NO_DELIVERY: Delivery := Delivery("", "", Unset, 0, "", ZERO_TIME, ZERO_TIME)

  /** One request that went out, and whether the endpoint accepted it. */
  datatype Post = Post(messageId: string, endpointId: string, ok: bool)

  /** What the outside decides in one run: the error of a post to an endpoint, and the clock when it is recorded. */
  datatype Outside = Outside(failure: string -> Option<string>, clock: string -> int)

  datatype Run = Run(deliveries: Deliveries, posts: seq<Post>, error: Option<string>)

  predicate Matches(e: Endpoint, eventType: string) {
    e.isWebhook && e.active && (e.eventTypes == [] || eventType in e.eventTypes)
  }

  method EndpointMatches(e: Endpoint, eventType: string) returns (r: bool)
    ensures r == Matches(e, eventType)
    ensures r <==> e.isWebhook && e.active && (e.eventTypes == [] || eventType in e.eventTypes)
  {
    if !e.isWebhook || !e.active {
      return false;
    }
    if |e.eventTypes| == 0 {
      return true;
    }
    for i := 0 to |e.eventTypes|
      invariant eventType !in e.eventTypes[..i]
    {
      if e.eventTypes[i] == eventType {
        return true;
      }
    }
    return false;
  }

  function Key(messageId: string, endpointId: string): string {
    messageId + "\0" + endpointId
  }

  function Get(d: Deliveries, messageId: string, endpointId: string): Delivery {
    var key := Key(messageId, endpointId);
    if key in d then d[key] else NO_DELIVERY
  }

  function Record(d: Deliveries, m: Message, e: Endpoint, status: Status, lastError: string, now: int): Deliveries {
    var current := Get(d, m.id, e.id);
    var createdAt := if current.createdAt == ZERO_TIME then now else current.createdAt;
    d[Key(m.id, e.id) := Delivery(m.id, e.id, status, current.attemptCount + 1, lastError, createdAt, now)]
  }

  /** The run over the endpoints from position `i` on. */
  function RunFrom(endpoints: seq<Endpoint>, i: nat, m: Message, d: Deliveries, o: Outside): Run
    requires i <= |endpoints|
    decreases |endpoints| - i
  {
    if i == |endpoints| then Run(d, [], None)
    else
      var e := endpoints[i];
      if !Matches(e, m.eventType) || Get(d, m.id, e.id).status == Succeeded then RunFrom(endpoints, i + 1, m, d, o)
      else
        match o.failure(e.id)
        case Some(error) => Run(Record(d, m, e, Failed, error, o.clock(e.id)), [Post(m.id, e.id, false)], Some(error))
        case None =>
          var more := RunFrom(endpoints, i + 1, m, Record(d, m, e, Succeeded, "", o.clock(e.id)), o);
          more.(posts := [Post(m.id, e.id, true)] + more.posts)
  }

  /** An endpoint of that id is an active webhook that lists the event type, or lists none. */
  predicate PostAllowed(endpoints: seq<Endpoint>, m: Message, endpointId: string) {
    exists i ::
      && 0 <= i < |endpoints| && endpoints[i].id == endpointId && endpoints[i].isWebhook && endpoints[i].active
      && (endpoints[i].eventTypes == [] || m.eventType in endpoints[i].eventTypes)
  }

  /** Nothing else is ever posted to. */
  lemma {:induction false} PostsAllowed(endpoints: seq<Endpoint>, i: nat, m: Message, d: Deliveries, o: Outside)
    requires i <= |endpoints|
    ensures forall p :: p in RunFrom(endpoints, i, m, d, o).posts ==>
              p.messageId == m.id && PostAllowed(endpoints, m, p.endpointId)
    decreases |endpoints| - i
  {
    if i < |endpoints| {
      var e := endpoints[i];
      if !Matches(e, m.eventType) || Get(d, m.id, e.id).status == Succeeded {
        PostsAllowed(endpoints, i + 1, m, d, o);
      } else if o.failure(e.id) == None {
        PostsAllowed(endpoints, i + 1, m, Record(d, m, e, Succeeded, "", o.clock(e.id)), o);
      }
    }
  }

  const BAD_PAYLOAD: string := "decode outbox payload"

  /** A run; a payload that does not decode ends it before any post. */
  function Handle(endpoints: seq<Endpoint>, m: Message, decodes: bool, d: Deliveries, o: Outside): Run {
    if !decodes then Run(d, [], Some(BAD_PAYLOAD)) else RunFrom(endpoints, 0, m, d, o)
  }

  class Handler {
    var deliveries: Deliveries
    ghost var posts: seq<Post>

    constructor ()
      ensures deliveries == map[] && posts == []
    {
      deliveries, posts := map[], [];
    }

    method HandleOutboxMessage(endpoints: seq<Endpoint>, m: Message, decodes: bool, o: Outside)
      returns (error: Option<string>)
      modifies this
      ensures var r := Handle(endpoints, m, decodes, old(deliveries), o);
              deliveries == r.deliveries && error == r.error && posts == old(posts) + r.posts
      ensures !decodes ==>
                error == Some("decode outbox payload") && deliveries == old(deliveries) && posts == old(posts)
      ensures forall p :: p in posts && p !in old(posts) ==>
                p.messageId == m.id && PostAllowed(endpoints, m, p.endpointId)
    {
      PostsAllowed(endpoints, 0, m, deliveries, o);
      if !decodes {
        return Some(BAD_PAYLOAD);
      }
      ghost var whole := RunFrom(endpoints, 0, m, deliveries, o);
      ghost var sent: seq<Post> := [];
      for i := 0 to |endpoints|
        invariant posts == old(posts) + sent
        invariant var left := RunFrom(endpoints, i, m, deliveries, o);
                  whole == left.(posts := sent + left.posts)
      {
        var e := endpoints[i];
        var matches := EndpointMatches(e, m.eventType);
        if matches {
          var delivery := Get(deliveries, m.id, e.id);
          if delivery.status != Succeeded {
            var failure := o.failure(e.id);
            ghost var left := RunFrom(endpoints, i, m, deliveries, o);
            assert sent + left.posts == sent + [left.posts[0]] + left.posts[1..];
            posts := posts + [Post(m.id, e.id, failure.None?)];
            sent := sent + [Post(m.id, e.id, failure.None?)];
            if failure.Some? {
              RecordDelivery(m, e, delivery, Failed, failure.value, o.clock(e.id));
              return failure;
            }
            RecordDelivery(m, e, delivery, Succeeded, "", o.clock(e.id));
          }
        }
      }
      return None;
    }

    method RecordDelivery(m: Message, e: Endpoint, current: Delivery, status: Status, lastError: string, now: int)
      requires current == Get(deliveries, m.id, e.id)
      modifies this`deliveries
      ensures deliveries == Record(old(deliveries), m, e, status, lastError, now)
      ensures var after := Get(deliveries, m.id, e.id);
              && after.status == status && after.lastError == lastError && after.updatedAt == now
              && after.attemptCount == current.attemptCount + 1
              && after.createdAt == (if current.createdAt != ZERO_TIME then current.createdAt else now)
      ensures forall messageId, endpointId :: Key(messageId, endpointId) != Key(m.id, e.id) ==>
                Get(deliveries, messageId, endpointId) == Get(old(deliveries), messageId, endpointId)
    {
      var createdAt := current.createdAt;
      if createdAt == ZERO_TIME {
        createdAt := now;
      }
      var delivery := Delivery(m.id, e.id, status, current.attemptCount + 1, lastError, createdAt, now);
      deliveries := deliveries[Key(m.id, e.id) := delivery];
    }
  }
}
