/** The bounded in-memory nonce cache and the unbounded nonce table. */
module NonceStores {
  import opened Common

  datatype Stored = Stored(issuedAt: int, expiresAt: int)

  type Nonces = map<string, Stored>

  /** What is left once everything that expires at or before `now` is removed. */
  function Live(c: Nonces, now: int): Nonces {
    map n | n in c && c[n].expiresAt > now :: c[n]
  }

  function Without(c: Nonces, nonce: string): Nonces {
    map n | n in c && n != nonce :: c[n]
  }

  predicate SubMap(a: Nonces, b: Nonces) {
    forall n :: n in a ==> n in b && a[n] == b[n]
  }

  /** A submap is no larger. */
  lemma SubMapSize(a: Nonces, b: Nonces)
    requires SubMap(a, b)
    ensures |a| <= |b|
    ensures |a| == |b| ==> a == b
  {
    assert a.Keys <= b.Keys;
    SubsetSize(a.Keys, b.Keys);
    if |a| == |b| {
      assert b.Keys == a.Keys + (b.Keys - a.Keys);
      assert a.Keys == b.Keys;
    }
  }

  lemma WithoutSize(c: Nonces, nonce: string)
    requires nonce in c
    ensures |Without(c, nonce)| == |c| - 1
  {
    assert Without(c, nonce).Keys == c.Keys - {nonce};
  }

  // ---- one eviction -----------------------------------------------------------------------------

  /** `order` visits every entry once. A Go map is visited in an unspecified order. */
  ghost predicate Visits(order: seq<string>, c: Nonces) {
    && (forall i, j :: 0 <= i < j < |order| ==> order[i] != order[j])
    && (forall n :: n in order <==> n in c)
  }

  /** The nonce the scan holds after visiting `order`; the empty name means none so far. */
  function Scan(order: seq<string>, c: Nonces): (r: string)
    requires forall n :: n in order ==> n in c
    ensures r == "" || r in order
    ensures order != [] ==> r in order
  {
    if order == [] then ""
    else
      var last := order[|order| - 1];
      var best := Scan(order[..|order| - 1], c);
      if best == "" || c[last].issuedAt < c[best].issuedAt then last else best
  }

  predicate Oldest(c: Nonces, nonce: string) {
    nonce in c && forall n :: n in c ==> c[nonce].issuedAt <= c[n].issuedAt
  }

  /** There are several entries and the one with the empty name is older than every other. */
  predicate EmptyNameOldest(c: Nonces) {
    "" in c && |c| >= 2 && forall n :: n in c && n != "" ==> c[""].issuedAt < c[n].issuedAt
  }

  predicate Newer(c: Nonces, a: string, b: string)
    requires a in c && b in c
  {
    c[a].issuedAt > c[b].issuedAt
  }

  /** The scan holds an oldest entry of those visited, except that it may forget an older empty name. */
  lemma {:induction false} ScanHolds(order: seq<string>, c: Nonces)
    requires forall i, j :: 0 <= i < j < |order| ==> order[i] != order[j]
    requires forall n :: n in order ==> n in c
    ensures forall n :: n in order && n != "" && Scan(order, c) != "" ==>
            !Newer(c, Scan(order, c), n) || ("" in order && Newer(c, n, ""))
    ensures Scan(order, c) == "" ==> forall n :: n in order && n != "" ==> Newer(c, n, "")
  {
    if order != [] {
      var front := order[..|order| - 1];
      ScanHolds(front, c);
      assert order == front + [order[|order| - 1]];
    }
  }

  lemma ScanFindsOldest(order: seq<string>, c: Nonces)
    requires Visits(order, c) && c != map[] && !EmptyNameOldest(c)
    ensures Oldest(c, Scan(order, c))
  {
    ScanHolds(order, c);
    var found := Scan(order, c);
    assert order != [] by {
      var n :| n in c;
      assert n in order;
    }
    if "" in c && |c| >= 2 {
      var other :| other in c && other != "" && c[other].issuedAt <= c[""].issuedAt;
      assert other in order && found != "";
      forall n | n in c ensures c[found].issuedAt <= c[n].issuedAt {
        assert n in order;
      }
    } else {
      if "" in c {
        OnlyEntry(c, "");
      }
      forall n | n in c ensures c[found].issuedAt <= c[n].issuedAt {
        assert n in order;
      }
    }
  }

  lemma OnlyEntry(c: Nonces, nonce: string)
    requires nonce in c && |c| < 2
    ensures forall n :: n in c ==> n == nonce
  {
    forall n | n in c ensures n == nonce {
      if n != nonce {
        assert {n, nonce} <= c.Keys;
        SubsetSize({n, nonce}, c.Keys);
      }
    }
  }

  /** A scan that meets the empty name first never returns it when there is another entry. */
  lemma {:induction false} ScanForgetsEmptyName(order: seq<string>, c: Nonces)
    requires forall i, j :: 0 <= i < j < |order| ==> order[i] != order[j]
    requires forall n :: n in order ==> n in c
    requires |order| >= 2 && order[0] == ""
    ensures Scan(order, c) != ""
  {
    var front := order[..|order| - 1];
    if |order| > 2 {
      ScanForgetsEmptyName(front, c);
    } else {
      assert front == [""] && Scan(front[..0], c) == "";
    }
  }

  lemma {:induction false} Enumerate(s: set<string>) returns (order: seq<string>)
    ensures forall i, j :: 0 <= i < j < |order| ==> order[i] != order[j]
    ensures forall n :: n in order <==> n in s
    ensures |order| == |s|
  {
    if s == {} {
      order := [];
    } else {
      var n :| n in s;
      var rest := Enumerate(s - {n});
      order := [n] + rest;
    }
  }

  /** Every visiting order finds an oldest entry exactly when the empty name is not the single oldest of several. */
  lemma EvictsOldestIff(c: Nonces)
    requires c != map[]
    ensures (forall order :: Visits(order, c) ==> Oldest(c, Scan(order, c))) <==> !EmptyNameOldest(c)
  {
    if EmptyNameOldest(c) {
      var rest := Enumerate(c.Keys - {""});
      var order := [""] + rest;
      assert Visits(order, c);
      ScanForgetsEmptyName(order, c);
      assert !Oldest(c, Scan(order, c));
    } else {
      forall order | Visits(order, c) ensures Oldest(c, Scan(order, c)) {
        ScanFindsOldest(order, c);
      }
    }
  }

  /** The smallest case: visited first, the older empty name is forgotten and the newer nonce evicted. */
  lemma EmptyNameOutlivesNewer()
    ensures var c := map["" := Stored(1, 9), "a" := Stored(2, 9)];
            Visits(["", "a"], c) && Scan(["", "a"], c) == "a" && !Oldest(c, "a")
  {
    var c := map["" := Stored(1, 9), "a" := Stored(2, 9)];
    assert ["", "a"][..1] == [""] && [""][..0] == [];
    assert Scan([""], c) == "";
    assert c[""].issuedAt < c["a"].issuedAt;
  }

  // ---- what the operations do ---------------------------------------------------------------------

  /** Every dropped entry is at least as old as every kept one. */
  predicate OldestFirst(before: Nonces, after: Nonces) {
    forall dropped, kept :: dropped in before && dropped !in after && kept in after && kept in before ==>
      before[dropped].issuedAt <= before[kept].issuedAt
  }

  /** Eviction down to `target` entries. */
  predicate Evicts(before: Nonces, after: Nonces, target: nat) {
    && SubMap(after, before)
    && |after| == (if |before| <= target then |before| else target)
    && ("" !in before ==> OldestFirst(before, after))
  }

  predicate CacheIssue(maxSize: nat, before: Nonces, after: Nonces, nonce: string, issuedAt: int, expiresAt: int,
                       kept: Nonces)
    requires maxSize >= 1
  {
    Evicts(Live(before, issuedAt), kept, maxSize - 1) && after == kept[nonce := Stored(issuedAt, expiresAt)]
  }

  function CacheConsume(before: Nonces, nonce: string, now: int): (bool, Nonces) {
    (nonce in Live(before, now), Without(Live(before, now), nonce))
  }

  /** The clean-up stands even when the insert meets the primary key. */
  function TableIssue(before: Nonces, nonce: string, issuedAt: int, expiresAt: int): (bool, Nonces) {
    var rows := Live(before, issuedAt);
    if nonce in rows then (false, rows) else (true, rows[nonce := Stored(issuedAt, expiresAt)])
  }

  function TableConsume(before: Nonces, nonce: string, now: int): (bool, Nonces) {
    if nonce in before && before[nonce].expiresAt > now then (true, Without(before, nonce)) else (false, before)
  }

  class MemoryNonceStore {
    var nonces: Nonces
    const maxSize: nat

    constructor (maxSize: nat)
      requires maxSize >= 1
      ensures nonces == map[] && this.maxSize == maxSize
    {
      nonces := map[];
      this.maxSize := maxSize;
    }

    method Issue(nonce: string, issuedAt: int, expiresAt: int) returns (ghost kept: Nonces)
      requires maxSize >= 1
      modifies this
      ensures CacheIssue(maxSize, old(nonces), nonces, nonce, issuedAt, expiresAt, kept)
    {
      RemoveExpired(issuedAt);
      EvictOldest(maxSize - 1);
      kept := nonces;
      nonces := nonces[nonce := Stored(issuedAt, expiresAt)];
    }

    method Consume(nonce: string, now: int) returns (ok: bool)
      modifies this
      ensures (ok, nonces) == CacheConsume(old(nonces), nonce, now)
    {
      RemoveExpired(now);
      if nonce !in nonces {
        assert Without(nonces, nonce) == nonces;
        return false;
      }
      nonces := Without(nonces, nonce);
      return true;
    }

    method RemoveExpired(now: int)
      modifies this
      ensures nonces == Live(old(nonces), now)
    {
      var pending := nonces.Keys;
      while pending != {}
        invariant pending <= nonces.Keys
        invariant SubMap(nonces, old(nonces))
        invariant forall n :: n in old(nonces) && (n in pending || old(nonces)[n].expiresAt > now) ==> n in nonces
        invariant forall n :: n in nonces && n !in pending ==> nonces[n].expiresAt > now
        decreases |pending|
      {
        var nonce :| nonce in pending;
        if nonces[nonce].expiresAt <= now {
          nonces := Without(nonces, nonce);
        }
        pending := pending - {nonce};
      }
    }

    method EvictOldest(target: nat)
      modifies this
      ensures Evicts(old(nonces), nonces, target)
    {
      while |nonces| > target
        invariant SubMap(nonces, old(nonces))
        invariant |old(nonces)| <= target ==> nonces == old(nonces)
        invariant |old(nonces)| > target ==> |nonces| >= target
        invariant "" !in old(nonces) ==> OldestFirst(old(nonces), nonces)
        decreases |nonces|
      {
        var oldest := FindOldest();
        WithoutSize(nonces, oldest);
        nonces := Without(nonces, oldest);
      }
      assert |old(nonces)| <= target ==> |nonces| == |old(nonces)|;
    }

    method FindOldest() returns (oldest: string)
      requires nonces != map[]
      ensures oldest in nonces
      ensures !EmptyNameOldest(nonces) ==> Oldest(nonces, oldest)
      ensures exists order :: Visits(order, nonces) && oldest == Scan(order, nonces)
    {
      oldest := "";
      var oldestIssuedAt := ZERO_TIME;
      var pending := nonces.Keys;
      ghost var order: seq<string> := [];
      while pending != {}
        invariant pending <= nonces.Keys
        invariant forall n :: n in order <==> n in nonces && n !in pending
        invariant forall i, j :: 0 <= i < j < |order| ==> order[i] != order[j]
        invariant oldest == Scan(order, nonces)
        invariant oldest != "" ==> oldestIssuedAt == nonces[oldest].issuedAt
        decreases |pending|
      {
        var nonce :| nonce in pending;
        assert (order + [nonce])[..|order|] == order;
        if oldest == "" || nonces[nonce].issuedAt < oldestIssuedAt {
          oldest := nonce;
          oldestIssuedAt := nonces[nonce].issuedAt;
        }
        order := order + [nonce];
        pending := pending - {nonce};
      }
      assert Visits(order, nonces);
      var n :| n in nonces;
      assert n in order;
      if !EmptyNameOldest(nonces) {
        ScanFindsOldest(order, nonces);
      }
    }
  }

  class SqlNonceStore {
    var rows: Nonces

    constructor ()
      ensures rows == map[]
    {
      rows := map[];
    }

    method Issue(nonce: string, issuedAt: int, expiresAt: int) returns (ok: bool)
      modifies this
      ensures (ok, rows) == TableIssue(old(rows), nonce, issuedAt, expiresAt)
      ensures ok <==> !(nonce in old(rows) && old(rows)[nonce].expiresAt > issuedAt)
      ensures nonce in rows && rows[nonce] == if ok then Stored(issuedAt, expiresAt) else old(rows)[nonce]
      ensures forall n :: n != nonce ==> (n in rows <==> n in old(rows) && old(rows)[n].expiresAt > issuedAt)
      ensures forall n :: n != nonce && n in rows ==> rows[n] == old(rows)[n]
    {
      rows := Live(rows, issuedAt);
      if nonce in rows {
        return false;
      }
      rows := rows[nonce := Stored(issuedAt, expiresAt)];
      return true;
    }

    method Consume(nonce: string, now: int) returns (ok: bool)
      modifies this
      ensures (ok, rows) == TableConsume(old(rows), nonce, now)
    {
      var matching := set n | n in rows && n == nonce && rows[n].expiresAt > now;
      assert matching == if nonce in rows && rows[nonce].expiresAt > now then {nonce} else {};
      rows := map n | n in rows && n !in matching :: rows[n];
      assert rows == TableConsume(old(rows), nonce, now).1;
      return |matching| == 1;
    }
  }
}
