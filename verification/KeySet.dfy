/** The cached JSON Web Key Set (internal/auth/keyset.go): when a token makes the server refetch the
    keys, what a fetch changes, and what that adds up to over whole runs of calls. */
module KeySet {
  import opened Basics

  // ---------- time ----------

  // An instant is nanoseconds since Go's zero time.Time (1 January of year 1), so that a field never
  // assigned is instant 0. A duration is nanoseconds in the 64-bit range of time.Duration.
  const NEVER: int := 0
  const UNIX_EPOCH: int := 62_135_596_800 * SECOND
  const SECOND: int := 1_000_000_000
  const MAX_DURATION: int := 0x7FFF_FFFF_FFFF_FFFF
  const MIN_DURATION: int := -0x8000_0000_0000_0000

  /** time.Time.Sub, which saturates instead of overflowing. */
  function Sub(t: int, u: int): int {
    if t - u > MAX_DURATION then MAX_DURATION
    else if t - u < MIN_DURATION then MIN_DURATION
    else t - u
  }

  lemma SubAtLeast(t: int, u: int, d: int)
    requires MIN_DURATION < d <= MAX_DURATION
    ensures Sub(t, u) >= d <==> t - u >= d
  {
  }

  // ---------- what the identity provider answers ----------

  type Key = nat

  datatype Jwk = Jwk(kid: string, use: string, isPublic: bool, key: Key)

  /** A fetch that never got an answer, or an answer whose body did or did not decode. */
  datatype Reply = NoResponse | Response(status: int, body: Option<seq<Jwk>>)

  predicate IsSigningKey(k: Jwk) {
    k.use != "enc" && k.isPublic
  }

  function SigningKeys(document: seq<Jwk>): seq<Jwk> {
    if document == [] then []
    else
      var last := document[|document| - 1];
      SigningKeys(document[..|document| - 1]) + if IsSigningKey(last) then [last] else []
  }

  function PublicKeys(jwks: seq<Jwk>): seq<Key> {
    seq(|jwks|, i requires 0 <= i < |jwks| => jwks[i].key)
  }

  function KeyIds(jwks: seq<Jwk>): set<string> {
    set k | k in jwks :: k.kid
  }

  /** The reply refresh takes new keys from. */
  predicate Usable(reply: Reply) {
    && reply.Response?
    && reply.status == 200
    && reply.body.Some?
    && SigningKeys(reply.body.value) != []
  }

  /** The signing keys of a usable reply. */
  function Offered(reply: Reply): seq<Jwk>
    requires Usable(reply)
  {
    SigningKeys(reply.body.value)
  }

  lemma {:induction false} SigningKeysAreTheSigningKeys(document: seq<Jwk>)
    ensures forall k :: k in SigningKeys(document) <==> k in document && IsSigningKey(k)
  {
    if document != [] {
      var front, last := document[..|document| - 1], document[|document| - 1];
      assert document == front + [last];
      SigningKeysAreTheSigningKeys(front);
    }
  }

  /** An answer is usable when it is a 200 with a key set that has a public key not for encryption. */
  lemma UsableExactly(reply: Reply)
    ensures Usable(reply) <==>
              && reply.Response? && reply.status == 200 && reply.body.Some?
              && exists k :: k in reply.body.value && k.isPublic && k.use != "enc"
  {
    if reply.Response? && reply.body.Some? {
      var keys := SigningKeys(reply.body.value);
      SigningKeysAreTheSigningKeys(reply.body.value);
      assert keys != [] ==> keys[0] in keys;
    }
  }

  // ---------- tokens ----------

  /** A token is the key id its header names ("" when it names none or does not parse), the public
      keys its signature verifies under, and its payload. */
  datatype Token = Token(kid: string, verifiesUnder: set<Key>, payload: string)

  datatype Verdict = NotLoaded | BadSignature | Verified(payload: string)

  /** go-oidc's StaticKeySet tries every key it holds, whatever key id the token names. */
  predicate VerifiesUnderOne(token: Token, keys: seq<Key>) {
    exists k :: k in keys && k in token.verifiesUnder
  }

  function Judge(keys: Option<seq<Key>>, token: Token): Verdict {
    if keys.None? then NotLoaded
    else if VerifiesUnderOne(token, keys.value) then Verified(token.payload)
    else BadSignature
  }

  // ---------- the specification of one call ----------

  datatype Timers = Timers(minInterval: int, retryEvery: int, maxAge: int)

  const CONFIGURED := Timers(30 * SECOND, SECOND, 600 * SECOND)

  /** What the timer arithmetic needs, and the configured timers meet. */
  predicate Ordered(t: Timers) {
    0 < t.retryEvery <= t.minInterval <= t.maxAge <= MAX_DURATION
  }

  datatype State = State(keys: Option<seq<Key>>, kids: set<string>, fetchedAt: int, loadedAt: int)

  const INITIAL := State(None, {}, NEVER, NEVER)

  /** One call: `now` is the clock read under the lock. Should the call fetch, `reply` is the answer,
      composed by the provider at `served` and read completely at `done`. */
  datatype Call = Call(now: int, token: Token, reply: Reply, served: int, done: int)

  predicate Missing(s: State, kid: string) {
    s.keys.None? || kid == "" || kid !in s.kids
  }

  predicate Stale(t: Timers, s: State, now: int) {
    s.keys.Some? && Sub(now, s.loadedAt) >= t.maxAge
  }

  predicate Fetches(t: Timers, s: State, c: Call) {
    var wait := if s.keys.None? then t.retryEvery else t.minInterval;
    var since := Sub(c.now, s.fetchedAt);
    (Missing(s, c.token.kid) && since >= wait) || (Stale(t, s, c.now) && since >= t.retryEvery)
  }

  function Refreshed(s: State, reply: Reply, done: int): State {
    if Usable(reply) then
      s.(keys := Some(PublicKeys(Offered(reply))), kids := KeyIds(Offered(reply)), loadedAt := done)
    else s
  }

  function After(t: Timers, s: State, c: Call): State {
    if Fetches(t, s, c) then Refreshed(s.(fetchedAt := c.now), c.reply, c.done) else s
  }

  // ---------- the implementation ----------

  class CachedKeySet {
    const timers: Timers
    var keys: Option<seq<Key>>
    var kids: set<string>
    var fetchedAt: int
    var loadedAt: int

    ghost function Abstract(): State
      reads this
    {
      State(keys, kids, fetchedAt, loadedAt)
    }

    constructor (minInterval: int)
      ensures Abstract() == INITIAL
      ensures timers == Timers(minInterval, 1_000_000_000, 600_000_000_000)
    {
      timers := Timers(minInterval, CONFIGURED.retryEvery, CONFIGURED.maxAge);
      keys, kids, fetchedAt, loadedAt := None, {}, NEVER, NEVER;
    }

    /** refresh: the loop keeps the public signing keys of the document; a reply without any leaves
        the loaded set alone. */
    method Refresh(reply: Reply, done: int) returns (ok: bool)
      modifies this
      ensures ok == Usable(reply)
      ensures ok <==> reply.Response? && reply.status == 200 && reply.body.Some?
                      && exists k :: k in reply.body.value && k.isPublic && k.use != "enc"
      ensures Abstract() == Refreshed(old(Abstract()), reply, done)
      ensures !ok ==> unchanged(this)
    {
      UsableExactly(reply);
      if reply.NoResponse? || reply.status != 200 || reply.body.None? {
        return false;
      }
      var document := reply.body.value;
      var pub: seq<Key> := [];
      var ids: set<string> := {};
      for i := 0 to |document|
        invariant pub == PublicKeys(SigningKeys(document[..i]))
        invariant ids == KeyIds(SigningKeys(document[..i]))
      {
        assert document[..i + 1][..i] == document[..i];
        var k := document[i];
        if k.use == "enc" || !k.isPublic {
          continue;
        }
        pub := pub + [k.key];
        ids := ids + {k.kid};
      }
      assert document[..|document|] == document;
      if |pub| == 0 {
        return false;
      }
      keys, kids, loadedAt := Some(pub), ids, done;
      return true;
    }

    /** VerifySignature, from taking the lock to the verdict. `asked` says whether a fetch was made. */
    method VerifySignature(c: Call) returns (verdict: Verdict, asked: bool)
      modifies this
      ensures asked == Fetches(timers, old(Abstract()), c)
      ensures Abstract() == After(timers, old(Abstract()), c)
      ensures verdict == Judge(keys, c.token)
      ensures verdict.NotLoaded? <==> keys.None?
      ensures verdict.Verified? <==> keys.Some? && exists k :: k in keys.value && k in c.token.verifiesUnder
      ensures verdict.Verified? ==> verdict.payload == c.token.payload
    {
      var missing := keys.None? || c.token.kid == "" || c.token.kid !in kids;
      var stale := keys.Some? && Sub(c.now, loadedAt) >= timers.maxAge;
      var wait := timers.minInterval;
      if keys.None? {
        wait := timers.retryEvery;
      }
      var since := Sub(c.now, fetchedAt);
      asked := (missing && since >= wait) || (stale && since >= timers.retryEvery);
      if asked {
        fetchedAt := c.now;
        var _ := Refresh(c.reply, c.done);
      }
      if keys.None? {
        return NotLoaded, asked;
      }
      var remaining := keys.value;
      while remaining != []
        invariant VerifiesUnderOne(c.token, keys.value) ==> VerifiesUnderOne(c.token, remaining)
        invariant forall k :: k in remaining ==> k in keys.value
        decreases |remaining|
      {
        if remaining[0] in c.token.verifiesUnder {
          return Verified(c.token.payload), asked;
        }
        remaining := remaining[1..];
      }
      verdict := BadSignature;
    }
  }

  // ---------- runs ----------

  /** The state after a run of calls from a new key set. */
  function Run(t: Timers, calls: seq<Call>): State {
    if calls == [] then INITIAL
    else After(t, Run(t, Front(calls)), Last(calls))
  }

  function Front<T>(s: seq<T>): seq<T> requires s != [] { s[..|s| - 1] }

  function Last<T>(s: seq<T>): T requires s != [] { s[|s| - 1] }

  /** Whether call `i` of the run makes a fetch. */
  predicate Attempts(t: Timers, calls: seq<Call>, i: nat)
    requires i < |calls|
  {
    Fetches(t, Run(t, calls[..i]), calls[i])
  }

  /** Whether call `i` of the run loads a key set. */
  predicate Loads(t: Timers, calls: seq<Call>, i: nat)
    requires i < |calls|
  {
    Attempts(t, calls, i) && Usable(calls[i].reply)
  }

  /** The lock is held from `now` to `done`, so the calls of a run do not overlap in time, and the
      clock never steps back. */
  ghost predicate Timed(calls: seq<Call>) {
    && (forall i :: 0 <= i < |calls| ==> UNIX_EPOCH <= calls[i].now <= calls[i].served <= calls[i].done)
    && (forall i, j :: 0 <= i < j < |calls| ==> calls[i].done <= calls[j].now)
  }

  function LastAttempt(t: Timers, calls: seq<Call>): (i: int)
    ensures -1 <= i < |calls|
  {
    if calls == [] then -1
    else if Attempts(t, calls, |calls| - 1) then |calls| - 1
    else LastAttempt(t, Front(calls))
  }

  function LastLoad(t: Timers, calls: seq<Call>): (i: int)
    ensures -1 <= i < |calls|
  {
    if calls == [] then -1
    else if Loads(t, calls, |calls| - 1) then |calls| - 1
    else LastLoad(t, Front(calls))
  }

  lemma PrefixRun(t: Timers, calls: seq<Call>, i: nat)
    requires calls != [] && i < |calls| - 1
    ensures Attempts(t, calls, i) == Attempts(t, Front(calls), i)
    ensures Loads(t, calls, i) == Loads(t, Front(calls), i)
  {
    assert calls[..i] == Front(calls)[..i];
  }

  /** A key set is its history: the timer of the last attempt, and the keys, key ids and load time of
      the last attempt that loaded. Every failed attempt in between has changed none of these. */
  lemma {:induction false} StateIsItsHistory(t: Timers, calls: seq<Call>)
    ensures var s, a, l := Run(t, calls), LastAttempt(t, calls), LastLoad(t, calls);
            && l <= a
            && (a >= 0 ==> Attempts(t, calls, a))
            && (l >= 0 ==> Loads(t, calls, l))
            && s.fetchedAt == (if a >= 0 then calls[a].now else NEVER)
            && (l < 0 ==> s.keys == None && s.kids == {} && s.loadedAt == NEVER)
            && (l >= 0 ==>
                  && s.keys == Some(PublicKeys(Offered(calls[l].reply)))
                  && s.kids == KeyIds(Offered(calls[l].reply))
                  && s.loadedAt == calls[l].done)
    ensures forall i :: LastAttempt(t, calls) < i < |calls| ==> !Attempts(t, calls, i)
    ensures forall i :: LastLoad(t, calls) < i < |calls| ==> !Loads(t, calls, i)
  {
    if calls != [] {
      assert Front(calls) == calls[..|calls| - 1];
      StateIsItsHistory(t, Front(calls));
      forall i | 0 <= i < |calls| - 1
        ensures Attempts(t, calls, i) == Attempts(t, Front(calls), i)
        ensures Loads(t, calls, i) == Loads(t, Front(calls), i)
      {
        PrefixRun(t, calls, i);
      }
    }
  }

  /** In every reachable state the key ids are those of exactly the signing keys of the document last
      loaded, and the keys are those same entries' keys. */
  lemma KidsAreTheLoadedSigningKeys(t: Timers, calls: seq<Call>)
    requires LastLoad(t, calls) >= 0
    ensures var s, reply := Run(t, calls), calls[LastLoad(t, calls)].reply;
            && Usable(reply) && s.keys.Some?
            && (forall kid :: kid in s.kids <==>
                  exists k :: k in reply.body.value && k.isPublic && k.use != "enc" && k.kid == kid)
            && (forall key :: key in s.keys.value <==>
                  exists k :: k in reply.body.value && k.isPublic && k.use != "enc" && k.key == key)
  {
    StateIsItsHistory(t, calls);
    var offered := Offered(calls[LastLoad(t, calls)].reply);
    SigningKeysAreTheSigningKeys(calls[LastLoad(t, calls)].reply.body.value);
    forall key ensures key in PublicKeys(offered) <==> exists k :: k in offered && k.key == key {
      if k :| k in offered && k.key == key {
        var i :| 0 <= i < |offered| && offered[i] == k;
        assert PublicKeys(offered)[i] == key;
      }
    }
  }

  /** Which tokens verify, over whole runs: those whose signature was made with the key of a public entry,
      not one for encryption, of the document last loaded. Their payload is what the caller gets, and
      before the first load nothing verifies. */
  lemma VerifiesExactlyWhen(t: Timers, calls: seq<Call>)
    requires calls != []
    ensures var token, l := Last(calls).token, LastLoad(t, calls);
            var verdict := Judge(Run(t, calls).keys, token);
            && (verdict.NotLoaded? <==> l < 0)
            && (l >= 0 ==> calls[l].reply.Response? && calls[l].reply.body.Some?)
            && (verdict.Verified? <==>
                  && l >= 0
                  && exists k :: k in calls[l].reply.body.value && k.isPublic && k.use != "enc"
                                 && k.key in token.verifiesUnder)
            && (verdict.Verified? ==> verdict.payload == token.payload)
  {
    StateIsItsHistory(t, calls);
    if LastLoad(t, calls) >= 0 {
      KidsAreTheLoadedSigningKeys(t, calls);
    }
  }

  /** When a token makes the server ask the provider, over whole runs. With nothing loaded: when the last
      attempt was retryEvery ago or more. With a set loaded: when the token names no key id, or one that
      no signing key of the document last loaded has, and the last attempt was minInterval ago or more;
      or when that document is maxAge old and the last attempt was retryEvery ago or more. */
  lemma FetchesExactlyWhen(t: Timers, calls: seq<Call>)
    requires Ordered(t) && Timed(calls) && calls != []
    ensures var front, c := Front(calls), Last(calls);
            var a, l := LastAttempt(t, front), LastLoad(t, front);
            && (l < 0 ==> (Attempts(t, calls, |front|) <==> a < 0 || c.now - front[a].now >= t.retryEvery))
            && (l >= 0 ==>
                  && l <= a && front[l].reply.Response? && front[l].reply.body.Some?
                  && (Attempts(t, calls, |front|) <==>
                        || (&& c.now - front[a].now >= t.minInterval
                            && (c.token.kid == "" || forall k ::
                                  k in front[l].reply.body.value && k.isPublic && k.use != "enc" ==> k.kid != c.token.kid))
                        || (c.now - front[a].now >= t.retryEvery && c.now - front[l].done >= t.maxAge)))
  {
    var front, c := Front(calls), Last(calls);
    assert calls[..|front|] == front;
    StateIsItsHistory(t, front);
    var s := Run(t, front);
    SubAtLeast(c.now, s.fetchedAt, t.retryEvery);
    SubAtLeast(c.now, s.fetchedAt, t.minInterval);
    SubAtLeast(c.now, s.loadedAt, t.maxAge);
    if LastLoad(t, front) >= 0 {
      KidsAreTheLoadedSigningKeys(t, front);
    }
  }

  // ---------- how old the set in use can be ----------

  /** The set in use after a call is younger than maxAge, unless the last attempt failed and was made
      less than retryEvery ago. */
  lemma FreshOrJustFailed(t: Timers, calls: seq<Call>)
    requires Ordered(t) && Timed(calls) && calls != []
    ensures var s, now := Run(t, calls), Last(calls).now;
            || s.keys.None?
            || now - s.loadedAt < t.maxAge
            || (var a := LastAttempt(t, calls);
                a >= 0 && !Usable(calls[a].reply) && now - calls[a].now < t.retryEvery)
  {
    StateIsItsHistory(t, calls);
    var c, before, a := Last(calls), Run(t, Front(calls)), LastAttempt(t, calls);
    assert Attempts(t, calls, |calls| - 1) == Fetches(t, before, c);
    if a >= 0 {
      // An attempt that is the last one and succeeded is the last load too.
      assert Loads(t, calls, a) == Usable(calls[a].reply);
    }
    if !Fetches(t, before, c) && before.keys.Some? && c.now - before.loadedAt >= t.maxAge {
      SubAtLeast(c.now, before.loadedAt, t.maxAge);
      SubAtLeast(c.now, before.fetchedAt, t.retryEvery);
      assert c.now - calls[a].now < t.retryEvery;
    }
  }

  /** Every attempt made at or after `since` is answered with usable keys. */
  ghost predicate SucceedsFrom(t: Timers, calls: seq<Call>, since: int) {
    forall i :: 0 <= i < |calls| && calls[i].now >= since && Attempts(t, calls, i) ==> Usable(calls[i].reply)
  }

  /** No attempt that loads takes longer than `d` from the provider composing its answer to the load. */
  ghost predicate LoadsWithin(t: Timers, calls: seq<Call>, d: int) {
    forall i :: 0 <= i < |calls| && Loads(t, calls, i) ==> calls[i].done - calls[i].served <= d
  }

  /** No set loaded from an answer composed at or after `removed` holds `key`. */
  ghost predicate RemovedAt(t: Timers, calls: seq<Call>, removed: int, key: Key) {
    forall i :: 0 <= i < |calls| && calls[i].served >= removed && Loads(t, calls, i)
             ==> key !in PublicKeys(Offered(calls[i].reply))
  }

  predicate Holds(s: State, key: Key) {
    s.keys.Some? && key in s.keys.value
  }

  /** A key the provider stopped offering at `removed` is in no set used `maxAge` plus the duration of
      a fetch, less one nanosecond, later, provided fetches succeed from then on. */
  lemma {:induction false} RemovedKeyStopsVerifying(t: Timers, calls: seq<Call>, removed: int, d: nat, key: Key)
    requires Ordered(t) && Timed(calls) && calls != []
    requires SucceedsFrom(t, calls, removed) && LoadsWithin(t, calls, d) && RemovedAt(t, calls, removed, key)
    requires Last(calls).now >= removed + t.maxAge + d - 1
    ensures !Holds(Run(t, calls), key)
  {
    StateIsItsHistory(t, calls);
    FreshOrJustFailed(t, calls);
  }

  /** A key id published at `published` and offered ever since is among the key ids of the set used
      for any token that names it from `minInterval` later on, however long fetches take. */
  lemma {:induction false} PublishedKeyIsPickedUp(t: Timers, calls: seq<Call>, published: int, kid: string)
    requires Ordered(t) && Timed(calls) && calls != []
    requires SucceedsFrom(t, calls, published)
    requires forall i :: 0 <= i < |calls| && calls[i].served >= published && Loads(t, calls, i)
                      ==> kid in KeyIds(Offered(calls[i].reply))
    requires Last(calls).token.kid == kid
    requires Last(calls).now >= published + t.minInterval
    ensures kid in Run(t, calls).kids
  {
    StateIsItsHistory(t, calls);
    StateIsItsHistory(t, Front(calls));
    var a := LastAttempt(t, Front(calls));
    if !Attempts(t, calls, |calls| - 1) && a >= 0 {
      PrefixRun(t, calls, a);
      assert Front(calls)[a] == calls[a];
      if Missing(Run(t, Front(calls)), kid) {
        // The wait is still running, so the last attempt is recent: it was made after `published`.
        assert calls[a].now > published;
        assert Loads(t, calls, a);
        assert LastLoad(t, Front(calls)) == a;
      }
    }
  }

  /** From `retryEvery` after the provider begins to answer, no token is turned away for want of keys. */
  lemma {:induction false} LoadsOnceTheProviderAnswers(t: Timers, calls: seq<Call>, answering: int)
    requires Ordered(t) && Timed(calls) && calls != []
    requires SucceedsFrom(t, calls, answering)
    requires Last(calls).now >= answering + t.retryEvery
    ensures Run(t, calls).keys.Some? && Judge(Run(t, calls).keys, Last(calls).token) != NotLoaded
  {
    StateIsItsHistory(t, Front(calls));
    var c, before, a := Last(calls), Run(t, Front(calls)), LastAttempt(t, Front(calls));
    assert Attempts(t, calls, |calls| - 1) == Fetches(t, before, c);
    SubAtLeast(c.now, before.fetchedAt, t.retryEvery);
    if a >= 0 {
      PrefixRun(t, calls, a);
      assert Front(calls)[a] == calls[a];
      assert Loads(t, calls, a) == Usable(calls[a].reply);
    }
  }

  /** A token naming a signing key of the document last loaded, less than maxAge ago, asks for no fetch,
      however bad its signature is. */
  lemma KnownKeyIdsAskForNothing(t: Timers, calls: seq<Call>, k: Jwk)
    requires Ordered(t) && Timed(calls) && calls != []
    requires var l := LastLoad(t, Front(calls));
             l >= 0 && Usable(calls[l].reply) && k in Offered(calls[l].reply) && Last(calls).now - calls[l].done < t.maxAge
    requires Last(calls).token.kid == k.kid != ""
    ensures !Attempts(t, calls, |calls| - 1)
  {
    StateIsItsHistory(t, Front(calls));
    var s := Run(t, Front(calls));
    assert Front(calls) == calls[..|calls| - 1];
    SubAtLeast(Last(calls).now, s.loadedAt, t.maxAge);
  }

  // ---------- how often the provider is asked ----------

  /** The times of the attempts among the calls numbered `from` and up. */
  function AttemptTimes(t: Timers, calls: seq<Call>, from: nat): seq<int> {
    if |calls| <= from then []
    else AttemptTimes(t, Front(calls), from)
         + if Attempts(t, calls, |calls| - 1) then [Last(calls).now] else []
  }

  predicate Spaced(times: seq<int>, gap: int) {
    forall i :: 0 < i < |times| ==> times[i] - times[i - 1] >= gap
  }

  function Within(times: seq<int>, lo: int, hi: int): seq<int> {
    if times == [] then []
    else Within(Front(times), lo, hi) + if lo <= Last(times) <= hi then [Last(times)] else []
  }

  lemma {:induction false} SpacedInWindow(times: seq<int>, gap: nat, lo: int, hi: int)
    requires Spaced(times, gap) && lo <= hi
    ensures var w := Within(times, lo, hi);
            w != [] ==> lo <= w[0] && w[0] + (|w| - 1) * gap <= Last(w) <= hi && Last(w) <= Last(times)
  {
    if times != [] {
      SpacedInWindow(Front(times), gap, lo, hi);
      var w := Within(Front(times), lo, hi);
      if w != [] {
        assert Last(times) - Last(Front(times)) >= gap;
        assert |w| * gap == (|w| - 1) * gap + gap;
      }
    }
  }

  lemma {:induction false} AtMostQuotient(n: int, gap: int, width: int)
    requires gap > 0 && n * gap <= width
    ensures n <= width / gap
  {
    var rest := n - width / gap;
    assert rest * gap == n * gap - width / gap * gap < gap;
    Expands(rest, gap);
  }

  lemma Expands(k: int, gap: int)
    requires gap > 0
    ensures k >= 1 ==> k * gap >= gap
  {
  }

  lemma WindowCount(times: seq<int>, gap: int, lo: int, width: nat)
    requires Spaced(times, gap) && gap > 0
    ensures |Within(times, lo, lo + width)| <= width / gap + 1
  {
    SpacedInWindow(times, gap, lo, lo + width);
    var n := |Within(times, lo, lo + width)| - 1;
    AtMostQuotient(if n >= 0 then n else -1, gap, width);
  }

  lemma SpacedOneMore(times: seq<int>, next: int, gap: int)
    requires Spaced(times, gap) && (times != [] ==> next - Last(times) >= gap)
    ensures Spaced(times + [next], gap)
  {
  }

  lemma FetchWaits(t: Timers, s: State, c: Call)
    requires Ordered(t) && Fetches(t, s, c)
    ensures c.now - s.fetchedAt >= t.retryEvery
  {
  }

  lemma {:induction false} AttemptsAreSpaced(t: Timers, calls: seq<Call>)
    requires Ordered(t) && Timed(calls)
    ensures var times := AttemptTimes(t, calls, 0);
            && Spaced(times, t.retryEvery)
            && Run(t, calls).fetchedAt == if times == [] then NEVER else Last(times)
  {
    if calls != [] {
      var c, before, times := Last(calls), Run(t, Front(calls)), AttemptTimes(t, Front(calls), 0);
      AttemptsAreSpaced(t, Front(calls));
      assert Attempts(t, calls, |calls| - 1) == Fetches(t, before, c);
      if Fetches(t, before, c) {
        FetchWaits(t, before, c);
        SpacedOneMore(times, c.now, t.retryEvery);
        assert AttemptTimes(t, calls, 0) == times + [c.now];
      } else {
        assert AttemptTimes(t, calls, 0) == times;
      }
    }
  }

  /** Whatever tokens arrive and whatever the fetches do, a window of length `width` holds at most
      floor(width / retryEvery) + 1 fetches. */
  lemma {:induction false} FetchRate(t: Timers, calls: seq<Call>, lo: int, width: nat)
    requires Ordered(t) && Timed(calls)
    ensures |Within(AttemptTimes(t, calls, 0), lo, lo + width)| <= width / t.retryEvery + 1
  {
    AttemptsAreSpaced(t, calls);
    WindowCount(AttemptTimes(t, calls, 0), t.retryEvery, lo, width);
  }

  lemma {:induction false} LoadsAreSpaced(t: Timers, calls: seq<Call>, first: nat)
    requires Ordered(t) && Timed(calls)
    requires first < |calls| ==> Loads(t, calls, first)
    requires AttemptsSucceed(t, calls, first)
    ensures var s, times := Run(t, calls), AttemptTimes(t, calls, first);
            && Spaced(times, t.minInterval)
            && (first < |calls| ==> times != [] && s.keys.Some? && s.fetchedAt == Last(times) <= s.loadedAt)
  {
    if |calls| > first {
      AttemptsSucceedEarlier(t, calls, first);
      var c, before, times := Last(calls), Run(t, Front(calls)), AttemptTimes(t, Front(calls), first);
      LoadsAreSpaced(t, Front(calls), first);
      assert Attempts(t, calls, |calls| - 1) == Fetches(t, before, c);
      if Fetches(t, before, c) {
        if times != [] {
          LoadedFetchWaits(t, before, c);
        }
        SpacedOneMore(times, c.now, t.minInterval);
        assert AttemptTimes(t, calls, first) == times + [c.now];
      } else {
        assert AttemptTimes(t, calls, first) == times;
      }
    }
  }

  /** After an attempt that loaded, the next waits for minInterval at least: a set that has grown stale
      is older than that. */
  lemma LoadedFetchWaits(t: Timers, s: State, c: Call)
    requires Ordered(t) && s.keys.Some? && s.fetchedAt <= s.loadedAt && Fetches(t, s, c)
    ensures c.now - s.fetchedAt >= t.minInterval
  {
  }

  ghost predicate AttemptsSucceed(t: Timers, calls: seq<Call>, first: nat) {
    forall i :: first <= i < |calls| && Attempts(t, calls, i) ==> Usable(calls[i].reply)
  }

  lemma AttemptsSucceedEarlier(t: Timers, calls: seq<Call>, first: nat)
    requires calls != [] && AttemptsSucceed(t, calls, first)
    ensures AttemptsSucceed(t, Front(calls), first)
    ensures first < |calls| - 1 ==> Loads(t, Front(calls), first) == Loads(t, calls, first)
  {
    forall i | 0 <= i < |calls| - 1
      ensures Attempts(t, calls, i) == Attempts(t, Front(calls), i)
      ensures Loads(t, calls, i) == Loads(t, Front(calls), i)
    {
      PrefixRun(t, calls, i);
    }
  }

  /** From any load on, as long as every attempt succeeds, a window of length `width` holds at most
      floor(width / minInterval) + 1 fetches. */
  lemma LoadedFetchRate(t: Timers, calls: seq<Call>, first: nat, lo: int, width: nat)
    requires Ordered(t) && Timed(calls)
    requires first < |calls| && Loads(t, calls, first)
    requires AttemptsSucceed(t, calls, first)
    ensures |Within(AttemptTimes(t, calls, first), lo, lo + width)| <= width / t.minInterval + 1
  {
    LoadsAreSpaced(t, calls, first);
    WindowCount(AttemptTimes(t, calls, first), t.minInterval, lo, width);
  }

  // ---------- what the comments promise and the code does not keep ----------

  /** In every run whose fetches succeed from the removal of a key on, none of them taking longer than
      `d` to load, the key is in no set used `maxAge` + `grace` or more after its removal. */
  ghost predicate StopsWithin(t: Timers, d: nat, grace: int) {
    forall calls, removed, key ::
      calls != [] && Timed(calls)
      && SucceedsFrom(t, calls, removed) && LoadsWithin(t, calls, d) && RemovedAt(t, calls, removed, key)
      && Last(calls).now >= removed + t.maxAge + grace
      ==> !Holds(Run(t, calls), key)
  }

  /** A fetch answered just before a key is removed, and taking `d` to load: the key is still used
      maxAge + `d` - 2 ns after its removal, because the age is counted from the load. */
  lemma RemovedKeyOutlivesMaxAge(t: Timers, d: nat) returns (calls: seq<Call>, removed: int, key: Key)
    requires Ordered(t)
    ensures Timed(calls) && |calls| == 2
    ensures SucceedsFrom(t, calls, removed) && LoadsWithin(t, calls, d) && RemovedAt(t, calls, removed, key)
    ensures Last(calls).now == removed + t.maxAge + d - 2
    ensures Holds(Run(t, calls), key)
  {
    var jwk := Jwk("k", "sig", true, 7);
    var token := Token("k", {7}, "");
    var start := UNIX_EPOCH;
    var first := Call(start, token, Response(200, Some([jwk])), start, start + d);
    var later := start + d + t.maxAge - 1;
    var second := Call(later, token, NoResponse, later, later);
    calls, removed, key := [first, second], start + 1, 7;
    assert SigningKeys([jwk]) == [jwk];
    assert PublicKeys([jwk]) == [7];
    assert calls[..0] == [] && calls[..1] == [first] && Front(calls) == [first] && Front([first]) == [];
    assert Run(t, []) == INITIAL;
    assert Attempts(t, calls, 0);
    assert Run(t, [first]) == After(t, INITIAL, first);
    assert !Attempts(t, calls, 1);
  }

  /** Removed keys stop verifying `grace` past maxAge if and only if no fetch takes longer than
      `grace` + 1 ns to load. */
  lemma RemovedKeyStopsExactlyWhen(t: Timers, d: nat, grace: int)
    requires Ordered(t)
    ensures StopsWithin(t, d, grace) <==> d <= grace + 1
  {
    if d <= grace + 1 {
      forall calls, removed, key |
        calls != [] && Timed(calls)
        && SucceedsFrom(t, calls, removed) && LoadsWithin(t, calls, d) && RemovedAt(t, calls, removed, key)
        && Last(calls).now >= removed + t.maxAge + grace
        ensures !Holds(Run(t, calls), key)
      {
        RemovedKeyStopsVerifying(t, calls, removed, d, key);
      }
    } else {
      var calls, removed, key := RemovedKeyOutlivesMaxAge(t, d);
      assert Last(calls).now >= removed + t.maxAge + grace;
    }
  }

  /** config.OIDCJWKSMaxAge promises that a removed key stops verifying within maxAge. The promise holds
      exactly when a set is loaded within a nanosecond of the provider composing it. */
  lemma MaxAgeIsKeptExactlyWhen(t: Timers, d: nat)
    requires Ordered(t)
    ensures StopsWithin(t, d, 0) <==> d <= 1
  {
    RemovedKeyStopsExactlyWhen(t, d, 0);
  }
}
