/** The uniqueness rules of the in-memory store, inside and outside transactions. */
module StoreUniqueness {
  import opened Common

  datatype Responder = Responder(id: string, issuerId: string, status: string, createdAt: int)

  datatype Crl = Crl(id: string, issuerId: string, distributionPoint: string, number: int)

  datatype Account = Account(id: string, status: string, thumbprint: string)

  datatype Tables = Tables(responders: map<string, Responder>, crls: map<string, Crl>, accounts: map<string, Account>)

  datatype StoreError = NotFound | InvalidTransition

  const ACTIVE: string := "active"

  const NO_TABLES: Tables := Tables(map[], map[], map[])

  // ---- the rules --------------------------------------------------------------------------------

  predicate IsActive(r: Responder, issuerId: string) {
    r.issuerId == issuerId && r.status == ACTIVE
  }

  predicate SameNumber(a: Crl, b: Crl) {
    a.issuerId == b.issuerId && a.distributionPoint == b.distributionPoint && a.number == b.number
  }

  predicate SameThumbprint(a: Account, b: Account) {
    a.thumbprint == b.thumbprint && a.thumbprint != ""
  }

  /** Every row is stored under its own id. */
  predicate WellKeyed(t: Tables) {
    && (forall id :: id in t.responders ==> t.responders[id].id == id)
    && (forall id :: id in t.crls ==> t.crls[id].id == id)
    && (forall id :: id in t.accounts ==> t.accounts[id].id == id)
  }

  predicate OneActivePerIssuer(rs: map<string, Responder>) {
    forall a, b :: a in rs && b in rs && rs[b].status == ACTIVE && IsActive(rs[a], rs[b].issuerId) ==> a == b
  }

  predicate NumbersUnique(crls: map<string, Crl>) {
    forall a, b :: a in crls && b in crls && SameNumber(crls[a], crls[b]) ==> a == b
  }

  predicate ThumbprintsUnique(accounts: map<string, Account>) {
    forall a, b :: a in accounts && b in accounts && SameThumbprint(accounts[a], accounts[b]) ==> a == b
  }

  predicate Valid(t: Tables) {
    WellKeyed(t) && OneActivePerIssuer(t.responders) && NumbersUnique(t.crls) && ThumbprintsUnique(t.accounts)
  }

  // ---- the mutators -----------------------------------------------------------------------------

  datatype Op =
    | CreateResponder(responder: Responder)
    | UpdateResponder(responder: Responder, currentStatus: string)
    | CreateCrl(crl: Crl)
    | CreateAccount(account: Account)
    | UpdateAccount(account: Account, currentStatus: string)

  predicate AnyActive(rs: map<string, Responder>, issuerId: string) {
    exists id :: id in rs && IsActive(rs[id], issuerId)
  }

  predicate OtherActive(rs: map<string, Responder>, r: Responder) {
    exists id :: id in rs && IsActive(rs[id], r.issuerId) && rs[id].id != r.id
  }

  predicate NumberTaken(crls: map<string, Crl>, c: Crl) {
    exists id :: id in crls && crls[id].id != c.id && SameNumber(crls[id], c)
  }

  predicate ThumbprintTaken(accounts: map<string, Account>, a: Account) {
    exists id :: id in accounts && accounts[id].id != a.id && SameThumbprint(accounts[id], a)
  }

  /** Why an operation is refused, if it is. */
  function Refusal(t: Tables, op: Op): Option<StoreError> {
    match op
    case CreateResponder(r) =>
      if r.status == ACTIVE && AnyActive(t.responders, r.issuerId) then Some(InvalidTransition) else None
    case UpdateResponder(r, status) =>
      if r.id !in t.responders then Some(NotFound)
      else if t.responders[r.id].status != status then Some(InvalidTransition)
      else if r.status == ACTIVE && OtherActive(t.responders, r) then Some(InvalidTransition)
      else None
    case CreateCrl(c) => if NumberTaken(t.crls, c) then Some(InvalidTransition) else None
    case CreateAccount(a) => if ThumbprintTaken(t.accounts, a) then Some(InvalidTransition) else None
    case UpdateAccount(a, status) =>
      if a.id !in t.accounts then Some(NotFound)
      else if t.accounts[a.id].status != status || ThumbprintTaken(t.accounts, a) then Some(InvalidTransition)
      else None
  }

  function Written(t: Tables, op: Op): Tables {
    match op
    case CreateResponder(r) => t.(responders := t.responders[r.id := r])
    case UpdateResponder(r, _) => t.(responders := t.responders[r.id := r])
    case CreateCrl(c) => t.(crls := t.crls[c.id := c])
    case CreateAccount(a) => t.(accounts := t.accounts[a.id := a])
    case UpdateAccount(a, _) => t.(accounts := t.accounts[a.id := a])
  }

  function Apply(t: Tables, op: Op): Tables {
    if Refusal(t, op).None? then Written(t, op) else t
  }

  lemma ApplyKeepsValid(t: Tables, op: Op)
    requires Valid(t)
    ensures Valid(Apply(t, op))
  {
    if Refusal(t, op).None? {
      match op
      case CreateResponder(r) => ResponderKeepsValid(t, r);
      case UpdateResponder(r, _) => ResponderKeepsValid(t, r);
      case CreateCrl(c) => assert forall id :: id in t.crls && SameNumber(t.crls[id], c) ==> id == c.id;
      case CreateAccount(a) => AccountKeepsValid(t, a);
      case UpdateAccount(a, _) => AccountKeepsValid(t, a);
    }
  }

  lemma ResponderKeepsValid(t: Tables, r: Responder)
    requires Valid(t) && (r.status == ACTIVE ==> !OtherActive(t.responders, r))
    ensures Valid(t.(responders := t.responders[r.id := r]))
  {
    assert forall id :: id in t.responders && r.status == ACTIVE && IsActive(t.responders[id], r.issuerId) ==>
        id == r.id;
  }

  lemma AccountKeepsValid(t: Tables, a: Account)
    requires Valid(t) && !ThumbprintTaken(t.accounts, a)
    ensures Valid(t.(accounts := t.accounts[a.id := a]))
  {
    assert forall id :: id in t.accounts && SameThumbprint(t.accounts[id], a) ==> id == a.id;
  }

  // ---- histories ----------------------------------------------------------------------------------

  /** A single call, or a transaction: what its function calls on the copy, and whether it ends without an error. */
  datatype Event = Direct(op: Op) | Transaction(ops: seq<Op>, commits: bool)

  /** The tables after the first `n` operations of a list. */
  function Inside(t: Tables, ops: seq<Op>, n: nat): Tables
    requires n <= |ops|
  {
    if n == 0 then t else Apply(Inside(t, ops, n - 1), ops[n - 1])
  }

  function Step(t: Tables, e: Event): Tables {
    match e
    case Direct(op) => Apply(t, op)
    case Transaction(ops, commits) => if commits then Inside(t, ops, |ops|) else t
  }

  function After(events: seq<Event>, n: nat): Tables
    requires n <= |events|
  {
    if n == 0 then NO_TABLES else Step(After(events, n - 1), events[n - 1])
  }

  lemma {:induction false} InsideValid(t: Tables, ops: seq<Op>, n: nat)
    requires Valid(t) && n <= |ops|
    ensures Valid(Inside(t, ops, n))
  {
    if n > 0 {
      InsideValid(t, ops, n - 1);
      ApplyKeepsValid(Inside(t, ops, n - 1), ops[n - 1]);
    }
  }

  /** The rules in the fields of the rows. */
  predicate RulesHold(t: Tables) {
    && (forall a, b :: a in t.responders && b in t.responders && a != b &&
                       t.responders[a].status == "active" && t.responders[b].status == "active" ==>
          t.responders[a].issuerId != t.responders[b].issuerId)
    && (forall a, b :: a in t.crls && b in t.crls && a != b && t.crls[a].issuerId == t.crls[b].issuerId &&
                       t.crls[a].distributionPoint == t.crls[b].distributionPoint ==>
          t.crls[a].number != t.crls[b].number)
    && (forall a, b :: a in t.accounts && b in t.accounts && a != b && t.accounts[a].thumbprint != "" ==>
          t.accounts[a].thumbprint != t.accounts[b].thumbprint)
  }

  /** The rules hold in every state of the store. */
  lemma {:induction false} AlwaysValid(events: seq<Event>, n: nat)
    requires n <= |events|
    ensures Valid(After(events, n)) && RulesHold(After(events, n))
  {
    assert Valid(NO_TABLES);
    if n > 0 {
      AlwaysValid(events, n - 1);
      match events[n - 1]
      case Direct(op) => ApplyKeepsValid(After(events, n - 1), op);
      case Transaction(ops, commits) => InsideValid(After(events, n - 1), ops, |ops|);
    }
  }

  /** They also hold in every state a transaction sees. */
  lemma AlwaysValidInside(events: seq<Event>, n: nat, k: nat)
    requires n < |events| && events[n].Transaction? && k <= |events[n].ops|
    ensures Valid(Inside(After(events, n), events[n].ops, k)) && RulesHold(Inside(After(events, n), events[n].ops, k))
  {
    AlwaysValid(events, n);
    InsideValid(After(events, n), events[n].ops, k);
  }

  // ---- the checks -----------------------------------------------------------------------------------

  /** `a` counts as the later of two active responders. */
  predicate Later(a: Responder, b: Responder) {
    a.createdAt > b.createdAt || (a.createdAt == b.createdAt && StringLess(b.id, a.id))
  }

  lemma LaterTransitive(a: Responder, b: Responder, c: Responder)
    requires Later(a, b) && !Later(c, b)
    ensures !Later(c, a)
  {
    StringLessTotal(c.id, a.id);
    StringLessTotal(b.id, a.id);
    StringLessTotal(c.id, b.id);
    if c.createdAt == a.createdAt == b.createdAt && StringLess(a.id, c.id) {
      StringLessTransitive(b.id, a.id, c.id);
    }
  }

  method ActiveResponderByIssuer(rs: map<string, Responder>, issuerId: string) returns (active: Option<Responder>)
    ensures active.Some? <==> AnyActive(rs, issuerId)
    ensures active.Some? ==> exists id :: id in rs && rs[id] == active.value && IsActive(rs[id], issuerId)
    ensures active.Some? ==> forall id :: id in rs && IsActive(rs[id], issuerId) ==> !Later(rs[id], active.value)
    ensures active.None? <==> forall id :: id in rs ==> !(rs[id].issuerId == issuerId && rs[id].status == "active")
    ensures active.Some? ==> active.value.issuerId == issuerId && active.value.status == "active"
    ensures active.Some? ==>
              forall id :: id in rs && rs[id].issuerId == issuerId && rs[id].status == "active" ==>
                && rs[id].createdAt <= active.value.createdAt
                && (rs[id].createdAt == active.value.createdAt ==> !StringLess(active.value.id, rs[id].id))
  {
    active := None;
    var pending := rs.Keys;
    while pending != {}
      invariant pending <= rs.Keys
      invariant active.None? ==> forall id :: id in rs && id !in pending ==> !IsActive(rs[id], issuerId)
      invariant active.Some? ==> exists id :: id in rs && rs[id] == active.value && IsActive(rs[id], issuerId)
      invariant active.Some? ==> forall id :: id in rs && id !in pending && IsActive(rs[id], issuerId) ==>
              !Later(rs[id], active.value)
      decreases |pending|
    {
      var id :| id in pending;
      pending := pending - {id};
      var responder := rs[id];
      if IsActive(responder, issuerId) && (active.None? || Later(responder, active.value)) {
        if active.Some? {
          forall other | other in rs && !Later(rs[other], active.value) ensures !Later(rs[other], responder) {
            LaterTransitive(responder, active.value, rs[other]);
          }
        }
        StringLessTotal(responder.id, responder.id);
        active := Some(responder);
      }
    }
  }

  method NumberAvailable(crls: map<string, Crl>, candidate: Crl) returns (ok: bool)
    ensures ok == !NumberTaken(crls, candidate)
    ensures ok <==>
            forall id :: id in crls && crls[id].id != candidate.id ==>
              crls[id].issuerId != candidate.issuerId || crls[id].distributionPoint != candidate.distributionPoint ||
              crls[id].number != candidate.number
  {
    var pending := crls.Keys;
    while pending != {}
      invariant pending <= crls.Keys
      invariant forall id :: id in crls && id !in pending && SameNumber(crls[id], candidate) ==>
              crls[id].id == candidate.id
      decreases |pending|
    {
      var id :| id in pending;
      pending := pending - {id};
      if crls[id].id != candidate.id && SameNumber(crls[id], candidate) {
        return false;
      }
    }
    return true;
  }

  method ThumbprintAvailable(accounts: map<string, Account>, candidate: Account) returns (ok: bool)
    ensures ok == !ThumbprintTaken(accounts, candidate)
    ensures ok <==> candidate.thumbprint == "" ||
                    forall id :: id in accounts && accounts[id].id != candidate.id ==>
                      accounts[id].thumbprint != candidate.thumbprint
  {
    if candidate.thumbprint == "" {
      return true;
    }
    var pending := accounts.Keys;
    while pending != {}
      invariant pending <= accounts.Keys
      invariant forall id :: id in accounts && id !in pending && SameThumbprint(accounts[id], candidate) ==>
              accounts[id].id == candidate.id
      decreases |pending|
    {
      var id :| id in pending;
      pending := pending - {id};
      if accounts[id].id != candidate.id && accounts[id].thumbprint == candidate.thumbprint {
        assert SameThumbprint(accounts[id], candidate);
        return false;
      }
    }
    return true;
  }

  // ---- the store ------------------------------------------------------------------------------------

  class MemoryTables {
    var tables: Tables

    constructor ()
      ensures tables == NO_TABLES && Valid(tables)
    {
      tables := NO_TABLES;
    }

    constructor Clone(source: Tables)
      ensures tables == source
    {
      tables := source;
    }

    method CreateOcspResponder(r: Responder) returns (error: Option<StoreError>)
      requires Valid(tables)
      modifies this
      ensures Valid(tables) && error == Refusal(old(tables), CreateResponder(r))
      ensures tables == Apply(old(tables), CreateResponder(r))
      ensures error == None <==>
              r.status != "active" || forall id :: id in old(tables).responders ==>
                var other := old(tables).responders[id];
                other.issuerId != r.issuerId || other.status != "active"
      ensures error != None ==> error == Some(InvalidTransition) && tables == old(tables)
      ensures error == None ==> tables == old(tables).(responders := old(tables).responders[r.id := r])
    {
      ApplyKeepsValid(tables, CreateResponder(r));
      if r.status == ACTIVE {
        var active := ActiveResponderByIssuer(tables.responders, r.issuerId);
        if active.Some? {
          return Some(InvalidTransition);
        }
      }
      tables := tables.(responders := tables.responders[r.id := r]);
      return None;
    }

    /** It is enough to look at the latest active responder because there is at most one. */
    method UpdateOcspResponderIfStatus(r: Responder, currentStatus: string) returns (error: Option<StoreError>)
      requires Valid(tables)
      modifies this
      ensures Valid(tables) && error == Refusal(old(tables), UpdateResponder(r, currentStatus))
      ensures tables == Apply(old(tables), UpdateResponder(r, currentStatus))
      ensures error == Some(NotFound) <==> r.id !in old(tables).responders
      ensures error == None <==>
              && r.id in old(tables).responders && old(tables).responders[r.id].status == currentStatus
              && (r.status != "active" || forall id :: id in old(tables).responders && id != r.id ==>
                    var other := old(tables).responders[id];
                    other.issuerId != r.issuerId || other.status != "active")
      ensures error != None ==> tables == old(tables)
      ensures error == None ==> tables == old(tables).(responders := old(tables).responders[r.id := r])
    {
      ApplyKeepsValid(tables, UpdateResponder(r, currentStatus));
      if r.id !in tables.responders {
        return Some(NotFound);
      }
      if tables.responders[r.id].status != currentStatus {
        return Some(InvalidTransition);
      }
      if r.status == ACTIVE {
        var active := ActiveResponderByIssuer(tables.responders, r.issuerId);
        if active.Some? && active.value.id != r.id {
          return Some(InvalidTransition);
        }
      }
      tables := tables.(responders := tables.responders[r.id := r]);
      return None;
    }

    method CreateCrlPublication(c: Crl) returns (error: Option<StoreError>)
      requires Valid(tables)
      modifies this
      ensures Valid(tables) && error == Refusal(old(tables), CreateCrl(c)) && tables == Apply(old(tables), CreateCrl(c))
      ensures error == None <==>
              forall id :: id in old(tables).crls && id != c.id ==>
                var other := old(tables).crls[id];
                other.issuerId != c.issuerId || other.distributionPoint != c.distributionPoint ||
                other.number != c.number
      ensures error != None ==> error == Some(InvalidTransition) && tables == old(tables)
      ensures error == None ==> tables == old(tables).(crls := old(tables).crls[c.id := c])
    {
      ApplyKeepsValid(tables, CreateCrl(c));
      var available := NumberAvailable(tables.crls, c);
      if !available {
        return Some(InvalidTransition);
      }
      tables := tables.(crls := tables.crls[c.id := c]);
      return None;
    }

    method CreateAcmeAccount(a: Account) returns (error: Option<StoreError>)
      requires Valid(tables)
      modifies this
      ensures Valid(tables) && error == Refusal(old(tables), CreateAccount(a))
      ensures tables == Apply(old(tables), CreateAccount(a))
      ensures error == None <==>
              a.thumbprint == "" || forall id :: id in old(tables).accounts && id != a.id ==>
                old(tables).accounts[id].thumbprint != a.thumbprint
      ensures error != None ==> error == Some(InvalidTransition) && tables == old(tables)
      ensures error == None ==> tables == old(tables).(accounts := old(tables).accounts[a.id := a])
    {
      ApplyKeepsValid(tables, CreateAccount(a));
      var available := ThumbprintAvailable(tables.accounts, a);
      if !available {
        return Some(InvalidTransition);
      }
      tables := tables.(accounts := tables.accounts[a.id := a]);
      return None;
    }

    method UpdateAcmeAccountIfStatus(a: Account, currentStatus: string) returns (error: Option<StoreError>)
      requires Valid(tables)
      modifies this
      ensures Valid(tables) && error == Refusal(old(tables), UpdateAccount(a, currentStatus))
      ensures tables == Apply(old(tables), UpdateAccount(a, currentStatus))
      ensures error == Some(NotFound) <==> a.id !in old(tables).accounts
      ensures error == None <==>
              && a.id in old(tables).accounts && old(tables).accounts[a.id].status == currentStatus
              && (a.thumbprint == "" || forall id :: id in old(tables).accounts && id != a.id ==>
                    old(tables).accounts[id].thumbprint != a.thumbprint)
      ensures error != None ==> tables == old(tables)
      ensures error == None ==> tables == old(tables).(accounts := old(tables).accounts[a.id := a])
    {
      ApplyKeepsValid(tables, UpdateAccount(a, currentStatus));
      if a.id !in tables.accounts {
        return Some(NotFound);
      }
      if tables.accounts[a.id].status != currentStatus {
        return Some(InvalidTransition);
      }
      var available := ThumbprintAvailable(tables.accounts, a);
      if !available {
        return Some(InvalidTransition);
      }
      tables := tables.(accounts := tables.accounts[a.id := a]);
      return None;
    }

    method Perform(op: Op) returns (error: Option<StoreError>)
      requires Valid(tables)
      modifies this
      ensures Valid(tables) && error == Refusal(old(tables), op) && tables == Apply(old(tables), op)
    {
      match op
      case CreateResponder(r) => error := CreateOcspResponder(r);
      case UpdateResponder(r, status) => error := UpdateOcspResponderIfStatus(r, status);
      case CreateCrl(c) => error := CreateCrlPublication(c);
      case CreateAccount(a) => error := CreateAcmeAccount(a);
      case UpdateAccount(a, status) => error := UpdateAcmeAccountIfStatus(a, status);
    }

    /** A copy takes the operations and replaces the tables only if the function ends without an error. */
    method WithinTx(ops: seq<Op>, commits: bool)
      requires Valid(tables)
      modifies this
      ensures Valid(tables) && tables == Step(old(tables), Transaction(ops, commits))
    {
      var tx := new MemoryTables.Clone(tables);
      for i := 0 to |ops|
        invariant Valid(tx.tables) && tx.tables == Inside(tables, ops, i)
        invariant tables == old(tables)
        modifies tx
      {
        var error := tx.Perform(ops[i]);
      }
      if commits {
        tables := tx.tables;
      }
    }
  }
}
