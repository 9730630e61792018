/** Whole runs of the two nonce stores over the same requests. */
module NonceTheorems {
  import opened Common
  import opened NonceStores

  datatype Request =
    | Issue(nonce: string, at: int, expiresAt: int)
    | Consume(nonce: string, at: int)

  /** One request on the cache; `kept` is what eviction leaves before an insert. */
  predicate CacheStep(maxSize: nat, before: Nonces, r: Request, after: Nonces, kept: Nonces)
    requires maxSize >= 1
  {
    match r
    case Issue(nonce, at, expiresAt) => CacheIssue(maxSize, before, after, nonce, at, expiresAt, kept)
    case Consume(nonce, at) => after == CacheConsume(before, nonce, at).1
  }

  /** A run of the cache: its states, and what each eviction left. The choices among equally old entries are free. */
  datatype CacheRun = CacheRun(maxSize: nat, requests: seq<Request>, states: seq<Nonces>, kept: seq<Nonces>)

  predicate StepAt(run: CacheRun, i: nat)
    requires run.maxSize >= 1 && |run.states| == |run.requests| + 1 && |run.kept| == |run.requests|
    requires i < |run.requests|
  {
    CacheStep(run.maxSize, run.states[i], run.requests[i], run.states[i + 1], run.kept[i])
  }

  predicate IsCacheRun(run: CacheRun) {
    && run.maxSize >= 1 && |run.states| == |run.requests| + 1 && |run.kept| == |run.requests|
    && run.states[0] == map[]
    && forall i :: 0 <= i < |run.requests| ==> StepAt(run, i)
  }

  /** The cache accepts the nonce of request `i`. */
  predicate CacheAccepts(run: CacheRun, i: nat)
    requires IsCacheRun(run) && i < |run.requests|
  {
    var r := run.requests[i];
    r.Consume? && CacheConsume(run.states[i], r.nonce, r.at).0
  }

  /** The table after the first `i` requests. */
  function Table(requests: seq<Request>, i: nat): Nonces
    requires i <= |requests|
  {
    if i == 0 then map[]
    else
      var r := requests[i - 1];
      match r
      case Issue(nonce, at, expiresAt) => TableIssue(Table(requests, i - 1), nonce, at, expiresAt).1
      case Consume(nonce, at) => TableConsume(Table(requests, i - 1), nonce, at).1
  }

  predicate TableAccepts(requests: seq<Request>, i: nat)
    requires i < |requests|
  {
    var r := requests[i];
    r.Consume? && TableConsume(Table(requests, i), r.nonce, r.at).0
  }

  /** No nonce is issued twice. */
  predicate FreshNonces(requests: seq<Request>) {
    forall i, j :: 0 <= i < j < |requests| && requests[i].Issue? && requests[j].Issue? ==>
        requests[i].nonce != requests[j].nonce
  }

  predicate NonDecreasing(requests: seq<Request>) {
    forall i, j :: 0 <= i < j < |requests| ==> requests[i].at <= requests[j].at
  }

  predicate IssueTimesIncrease(requests: seq<Request>) {
    forall i, j :: 0 <= i < j < |requests| && requests[i].Issue? && requests[j].Issue? ==>
        requests[i].at < requests[j].at
  }

  predicate NamedNonces(requests: seq<Request>) {
    forall i :: 0 <= i < |requests| && requests[i].Issue? ==> requests[i].nonce != ""
  }

  // ---- size -------------------------------------------------------------------------------------

  lemma {:induction false} CacheBounded(run: CacheRun, i: nat)
    requires IsCacheRun(run) && i <= |run.requests|
    ensures |run.states[i]| <= run.maxSize
  {
    if i > 0 {
      CacheBounded(run, i - 1);
      assert StepAt(run, i - 1);
      StepSize(run.maxSize, run.states[i - 1], run.requests[i - 1], run.states[i], run.kept[i - 1]);
    }
  }

  lemma StepSize(maxSize: nat, before: Nonces, r: Request, after: Nonces, kept: Nonces)
    requires maxSize >= 1 && |before| <= maxSize && CacheStep(maxSize, before, r, after, kept)
    ensures |after| <= maxSize
  {
    if r.Issue? {
      InsertSize(kept, r.nonce, Stored(r.at, r.expiresAt));
    } else {
      SubMapSize(after, before);
    }
  }

  lemma InsertSize(c: Nonces, nonce: string, entry: Stored)
    ensures |c[nonce := entry]| <= |c| + 1
  {
    assert c[nonce := entry].Keys == c.Keys + {nonce};
  }

  // ---- where entries come from --------------------------------------------------------------------

  /** Request `k` is the one that stored this entry. */
  predicate IssuedBy(requests: seq<Request>, k: nat, nonce: string, entry: Stored)
    requires k < |requests|
  {
    requests[k] == Issue(nonce, entry.issuedAt, entry.expiresAt)
  }

  lemma {:induction false} CacheEntryIssued(run: CacheRun, i: nat, nonce: string) returns (k: nat)
    requires IsCacheRun(run) && i <= |run.requests| && nonce in run.states[i]
    ensures k < i && IssuedBy(run.requests, k, nonce, run.states[i][nonce])
  {
    assert i > 0;
    assert StepAt(run, i - 1);
    if run.requests[i - 1].Issue? && run.requests[i - 1].nonce == nonce {
      k := i - 1;
    } else {
      k := CacheEntryIssued(run, i - 1, nonce);
    }
  }

  lemma {:induction false} TableEntryIssued(requests: seq<Request>, i: nat, nonce: string) returns (k: nat)
    requires i <= |requests| && nonce in Table(requests, i)
    ensures k < i && IssuedBy(requests, k, nonce, Table(requests, i)[nonce])
  {
    var last := requests[i - 1];
    if last.Issue? && last.nonce == nonce && nonce !in Live(Table(requests, i - 1), last.at) {
      k := i - 1;
    } else {
      k := TableEntryIssued(requests, i - 1, nonce);
    }
  }

  // ---- at most once -------------------------------------------------------------------------------

  /** Once absent, a nonce comes back only through an Issue. */
  lemma {:induction false} AbsentUntilIssued(run: CacheRun, i: nat, j: nat, nonce: string)
    requires IsCacheRun(run) && i <= j <= |run.requests| && nonce !in run.states[i]
    requires forall k :: i <= k < j && run.requests[k].Issue? ==> run.requests[k].nonce != nonce
    ensures nonce !in run.states[j]
    decreases j - i
  {
    if i < j {
      assert StepAt(run, i);
      AbsentUntilIssued(run, i + 1, j, nonce);
    }
  }

  /** Between two acceptances of one nonce it has been issued anew. */
  lemma CacheAcceptsOncePerIssue(run: CacheRun, i: nat, j: nat)
    requires IsCacheRun(run) && i < j < |run.requests| && run.requests[i].nonce == run.requests[j].nonce
    requires CacheAccepts(run, i) && CacheAccepts(run, j)
    ensures exists k :: i < k < j && run.requests[k].Issue? && run.requests[k].nonce == run.requests[i].nonce
  {
    var nonce := run.requests[i].nonce;
    if forall k :: i < k < j && run.requests[k].Issue? ==> run.requests[k].nonce != nonce {
      assert StepAt(run, i);
      AbsentUntilIssued(run, i + 1, j, nonce);
    }
  }

  lemma SameIssue(requests: seq<Request>, a: nat, b: nat)
    requires FreshNonces(requests) && a < |requests| && b < |requests|
    requires requests[a].Issue? && requests[b].Issue? && requests[a].nonce == requests[b].nonce
    ensures a == b
  {
  }

  /** With fresh nonces each nonce is accepted at most once. */
  lemma CacheAcceptsOnce(run: CacheRun, i: nat, j: nat)
    requires IsCacheRun(run) && FreshNonces(run.requests) && i < |run.requests| && j < |run.requests|
    requires CacheAccepts(run, i) && CacheAccepts(run, j) && run.requests[i].nonce == run.requests[j].nonce
    ensures i == j
  {
    if i != j {
      var a, b := if i < j then i else j, if i < j then j else i;
      CacheAcceptsOncePerIssue(run, a, b);
      var again :| a < again < b && run.requests[again].Issue? && run.requests[again].nonce == run.requests[a].nonce;
      var first := CacheEntryIssued(run, a, run.requests[a].nonce);
      SameIssue(run.requests, first, again);
    }
  }

  // ---- the cache against the table ------------------------------------------------------------------

  lemma FreshMeansNoConflict(requests: seq<Request>, i: nat)
    requires FreshNonces(requests) && i < |requests| && requests[i].Issue?
    ensures requests[i].nonce !in Table(requests, i)
  {
    if requests[i].nonce in Table(requests, i) {
      var k := TableEntryIssued(requests, i, requests[i].nonce);
      SameIssue(requests, k, i);
    }
  }

  /** Every cached entry is a row of the table. */
  lemma {:induction false} CacheWithinTable(run: CacheRun, i: nat)
    requires IsCacheRun(run) && FreshNonces(run.requests) && i <= |run.requests|
    ensures SubMap(run.states[i], Table(run.requests, i))
  {
    if i > 0 {
      CacheWithinTable(run, i - 1);
      assert StepAt(run, i - 1);
      if run.requests[i - 1].Issue? {
        FreshMeansNoConflict(run.requests, i - 1);
      }
    }
  }

  /** What the cache accepts, the table accepts. */
  lemma CacheAcceptsOnlyWhatTableAccepts(run: CacheRun, i: nat)
    requires IsCacheRun(run) && FreshNonces(run.requests) && i < |run.requests| && CacheAccepts(run, i)
    ensures TableAccepts(run.requests, i)
  {
    CacheWithinTable(run, i);
  }

  lemma TableAcceptsOnce(requests: seq<Request>, i: nat, j: nat)
    requires FreshNonces(requests) && i < j < |requests| && requests[i].nonce == requests[j].nonce
    requires TableAccepts(requests, i)
    ensures !TableAccepts(requests, j)
  {
    var first := TableEntryIssued(requests, i, requests[i].nonce);
    TableAbsent(requests, i + 1, j, requests[i].nonce, first);
  }

  lemma {:induction false} TableAbsent(requests: seq<Request>, i: nat, j: nat, nonce: string, first: nat)
    requires FreshNonces(requests) && first < i <= j <= |requests| && requests[first].Issue?
    requires requests[first].nonce == nonce
    requires nonce !in Table(requests, i)
    ensures nonce !in Table(requests, j)
    decreases j - i
  {
    if i < j {
      assert requests[i].Issue? ==> requests[first].nonce != requests[i].nonce;
      TableAbsent(requests, i + 1, j, nonce, first);
    }
  }

  /** Every Issue finds fewer than `maxSize` live nonces. */
  predicate NeverFull(run: CacheRun)
    requires IsCacheRun(run)
  {
    forall i :: 0 <= i < |run.requests| && run.requests[i].Issue? ==>
        |Live(run.states[i], run.requests[i].at)| < run.maxSize
  }

  /** The two stores hold the same entries that are still alive at `now`. */
  ghost predicate SameLive(a: Nonces, b: Nonces, now: int) {
    forall n :: (n in a && a[n].expiresAt > now) || (n in b && b[n].expiresAt > now) ==>
        n in a && n in b && a[n] == b[n]
  }

  lemma EvictsNothing(c: Nonces, kept: Nonces, target: nat)
    requires Evicts(c, kept, target) && |c| <= target
    ensures kept == c
  {
    SubMapSize(kept, c);
  }

  lemma {:induction false} UnfilledCacheIsTable(run: CacheRun, i: nat, now: int)
    requires IsCacheRun(run) && FreshNonces(run.requests) && NonDecreasing(run.requests) && NeverFull(run)
    requires i <= |run.requests| && forall k :: 0 <= k < i ==> run.requests[k].at <= now
    ensures SameLive(run.states[i], Table(run.requests, i), now)
  {
    if i > 0 {
      var r := run.requests[i - 1];
      UnfilledCacheIsTable(run, i - 1, r.at);
      assert StepAt(run, i - 1);
      if r.Issue? {
        FreshMeansNoConflict(run.requests, i - 1);
        EvictsNothing(Live(run.states[i - 1], r.at), run.kept[i - 1], run.maxSize - 1);
      }
    }
  }

  /** While no Issue finds the cache full the two stores give the same answers. */
  lemma UnfilledCacheAgrees(run: CacheRun, i: nat)
    requires IsCacheRun(run) && FreshNonces(run.requests) && NonDecreasing(run.requests) && NeverFull(run)
    requires i < |run.requests|
    ensures CacheAccepts(run, i) <==> TableAccepts(run.requests, i)
    ensures var r := run.requests[i]; r.Issue? ==> TableIssue(Table(run.requests, i), r.nonce, r.at, r.expiresAt).0
  {
    UnfilledCacheIsTable(run, i, run.requests[i].at);
    if run.requests[i].Issue? {
      FreshMeansNoConflict(run.requests, i);
    }
  }

  // ---- survival -----------------------------------------------------------------------------------

  /** How many nonces requests `lo`, ..., `hi - 1` issue. */
  function IssuesBetween(requests: seq<Request>, lo: nat, hi: nat): nat
    requires lo <= hi <= |requests|
    decreases hi
  {
    if lo == hi then 0
    else IssuesBetween(requests, lo, hi - 1) + (if requests[hi - 1].Issue? then 1 else 0)
  }

  /** Other entries that are not older than `nonce`. */
  function Rivals(c: Nonces, nonce: string, issuedAt: int): set<string> {
    set n | n in c && n != nonce && c[n].issuedAt >= issuedAt
  }

  /** Request `i` issues `nonce`, which is neither issued again, consumed nor expired before `j`. */
  predicate Undisturbed(requests: seq<Request>, i: nat, j: nat) {
    && i < j <= |requests| && requests[i].Issue?
    && forall k :: i < k < j ==> requests[k].nonce != requests[i].nonce && requests[k].at < requests[i].expiresAt
  }

  /** State `j` holds the entry that request `i` stored. */
  predicate StillCached(run: CacheRun, i: nat, j: nat)
    requires i < |run.requests| && run.requests[i].Issue? && j < |run.states|
  {
    var r := run.requests[i];
    r.nonce in run.states[j] && run.states[j][r.nonce] == Stored(r.at, r.expiresAt)
  }

  /** Nothing in the cache is as new as an Issue that comes next. */
  lemma NoRivalsYet(run: CacheRun, i: nat)
    requires IsCacheRun(run) && IssueTimesIncrease(run.requests) && i < |run.requests| && run.requests[i].Issue?
    ensures Rivals(run.states[i + 1], run.requests[i].nonce, run.requests[i].at) == {}
  {
    assert StepAt(run, i);
    var r, after := run.requests[i], run.states[i + 1];
    forall n | n in after && n != r.nonce ensures after[n].issuedAt < r.at {
      var k := CacheEntryIssued(run, i + 1, n);
      assert run.requests[k].Issue? && k != i;
    }
  }

  lemma NoEmptyName(run: CacheRun, i: nat)
    requires IsCacheRun(run) && NamedNonces(run.requests) && i <= |run.requests|
    ensures "" !in run.states[i]
  {
    var state := run.states[i];
    forall n | n in state ensures n != "" {
      var k := CacheEntryIssued(run, i, n);
      assert run.requests[k].nonce == n;
    }
  }

  /** If an eviction drops `nonce`, everything it keeps is a rival. */
  lemma DroppedHasRivals(before: Nonces, kept: Nonces, target: nat, nonce: string)
    requires "" !in before && Evicts(before, kept, target) && nonce in before && nonce !in kept
    ensures |Rivals(before, nonce, before[nonce].issuedAt)| >= target
  {
    var rivals := Rivals(before, nonce, before[nonce].issuedAt);
    assert kept.Keys <= rivals;
    SubsetSize(kept.Keys, rivals);
    if |before| <= target {
      EvictsNothing(before, kept, target);
    }
  }

  lemma {:induction false} Survives(run: CacheRun, i: nat, j: nat)
    requires IsCacheRun(run) && IssueTimesIncrease(run.requests) && NamedNonces(run.requests)
    requires Undisturbed(run.requests, i, j)
    requires IssuesBetween(run.requests, i + 1, j) <= run.maxSize - 1
    ensures StillCached(run, i, j)
    ensures |Rivals(run.states[j], run.requests[i].nonce, run.requests[i].at)| <= IssuesBetween(run.requests, i + 1, j)
    decreases j
  {
    if j == i + 1 {
      assert StepAt(run, i);
      NoRivalsYet(run, i);
    } else {
      Survives(run, i, j - 1);
      SurvivesStep(run, i, j - 1);
    }
  }

  lemma SurvivesStep(run: CacheRun, i: nat, j: nat)
    requires IsCacheRun(run) && NamedNonces(run.requests)
    requires j < |run.requests| && Undisturbed(run.requests, i, j + 1) && i < j
    requires StillCached(run, i, j)
    requires run.requests[j].Issue? ==>
            |Rivals(run.states[j], run.requests[i].nonce, run.requests[i].at)| < run.maxSize - 1
    ensures StillCached(run, i, j + 1)
    ensures |Rivals(run.states[j + 1], run.requests[i].nonce, run.requests[i].at)| <=
            |Rivals(run.states[j], run.requests[i].nonce, run.requests[i].at)| +
            (if run.requests[j].Issue? then 1 else 0)
  {
    var r, s := run.requests[i], run.requests[j];
    var before, after := run.states[j], run.states[j + 1];
    var rivals := Rivals(before, r.nonce, r.at);
    assert StepAt(run, j);
    if s.Issue? {
      NoEmptyName(run, j);
      var live, kept := Live(before, s.at), run.kept[j];
      SubsetSize(Rivals(live, r.nonce, r.at), rivals);
      if r.nonce !in kept {
        DroppedHasRivals(live, kept, run.maxSize - 1, r.nonce);
      }
      assert Rivals(after, r.nonce, r.at) <= rivals + {s.nonce};
      SubsetSize(Rivals(after, r.nonce, r.at), rivals + {s.nonce});
    } else {
      SubsetSize(Rivals(after, r.nonce, r.at), rivals);
    }
  }

  /** The bound is sharp: an Issue that finds the cache full drops the entry older than all others. */
  lemma FullCacheDropsOldest(run: CacheRun, j: nat, nonce: string)
    requires IsCacheRun(run) && NamedNonces(run.requests)
    requires j < |run.requests| && run.requests[j].Issue? && run.requests[j].nonce != nonce
    requires |Live(run.states[j], run.requests[j].at)| == run.maxSize
    requires nonce in Live(run.states[j], run.requests[j].at)
    requires Rivals(run.states[j], nonce, run.states[j][nonce].issuedAt + 1) == run.states[j].Keys - {nonce}
    ensures nonce !in run.states[j + 1]
  {
    assert StepAt(run, j);
    NoEmptyName(run, j);
    var live, kept := Live(run.states[j], run.requests[j].at), run.kept[j];
    if SubMap(live, kept) {
      SubMapSize(live, kept);
    }
    var dropped :| dropped in live && dropped !in kept;
    assert dropped != nonce ==> dropped in Rivals(run.states[j], nonce, run.states[j][nonce].issuedAt + 1);
  }
}
