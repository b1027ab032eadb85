/**
 Properties of the `Authorizer` state machine: every step keeps the state
 invariant, the cache never changes a verdict, and the freshness loop reloads
 at most once.
 */
module AuthorizerProofs {
  import opened Wrappers
  import opened Acl
  import opened CacheKeys
  import opened Authorizer

  /** A new authorizer satisfies the invariant. */
  lemma InitialValid(check: Matcher)
    ensures Valid(check, Initial)
  {
  }

  /** A configuration check keeps the invariant: a successful load pairs the
      new entries with an empty cache or none, and a failed load touches
      neither. */
  lemma CheckAndUpdateConfigValid(check: Matcher, s: State, src: Source)
    requires Valid(check, s)
    ensures Valid(check, CheckAndUpdateConfig(s, src))
  {
  }

  /** `configure` yields a valid state. */
  lemma ConfigureValid(check: Matcher, src: Source)
    ensures Valid(check, Configure(src))
  {
  }

  /** `reloadAcls` keeps the invariant. */
  lemma ReloadAclsValid(check: Matcher, s: State, src: Source, now: int)
    requires Valid(check, s)
    ensures Valid(check, ReloadAcls(s, src, now).state)
  {
  }

  /** A changed file that fails to parse still makes `reloadAcls` report a
      change, while the entries and the cache stay as they were. */
  lemma ReloadAclsReportsFailedParse(s: State, src: Source, now: int)
    requires src.marker != s.lastModified && src.content.None?
    ensures ReloadAcls(s, src, now).changed
    ensures ReloadAcls(s, src, now).state.entries == s.entries
    ensures ReloadAcls(s, src, now).state.cache == s.cache
  {
  }

  /** The fresh path keeps the invariant: it only ever stores a scan verdict
      under the stored request's own key. */
  lemma DecideValid(check: Matcher, s: State, req: Request)
    requires Valid(check, s)
    ensures Valid(check, Decide(check, s, req).state)
  {
  }

  /** Under the invariant the cache is invisible: every decision equals the
      scan of the current entries, whether or not it was served from the
      cache, and it fails only when no entry list was ever loaded. */
  lemma DecideMeansGranted(check: Matcher, s: State, req: Request)
    requires Valid(check, s)
    ensures s.entries.None? ==> Decide(check, s, req) == NoEntries(s)
    ensures s.entries.Some? ==>
              && Decide(check, s, req).Decided?
              && Decide(check, s, req).verdict == Granted(check, s.entries.value, req)
  {
  }

  /** The `checkAcl` loop reloads at most once: its outcome is the fresh-path
      decision on the state after one stale refresh. */
  lemma CheckAclAtMostOneRefresh(check: Matcher, s: State, src: Source, now: int, req: Request)
    ensures CheckAcl(check, s, src, now, req) == Decide(check, StaleRefresh(s, src, now), req)
  {
  }

  /** `checkAcl` keeps the invariant. */
  lemma CheckAclValid(check: Matcher, s: State, src: Source, now: int, req: Request)
    requires Valid(check, s)
    ensures Valid(check, CheckAcl(check, s, src, now, req).state)
  {
  }

  /** `checkAcl` answers with the scan of the entries it ends up holding;
      it fails only when no entry list has ever been loaded. */
  lemma CheckAclMeansGranted(check: Matcher, s: State, src: Source, now: int, req: Request)
    requires Valid(check, s)
    ensures var out := CheckAcl(check, s, src, now, req);
            && (out.Decided? <==> out.state.entries.Some?)
            && (out.Decided? ==> out.verdict == Granted(check, out.state.entries.value, req))
  {
  }

  /** A request made a full window after the last check, against a file that
      changed and parses, is decided by the new entry list alone, whatever
      the state before: no verdict cached for the old list survives the
      reload. */
  lemma StaleRequestSeesNewEntries(check: Matcher, s: State, src: Source, now: int, req: Request)
    requires !Fresh(s, now) && src.marker != s.lastModified && src.content.Some?
    ensures CheckAcl(check, s, src, now, req).Decided?
    ensures CheckAcl(check, s, src, now, req).verdict == Granted(check, src.content.value, req)
    ensures CheckAcl(check, s, src, now, req).state.entries == src.content
  {
  }

  /** A fresh request never looks at the configuration file. */
  lemma FreshRequestIgnoresSource(check: Matcher, s: State, src1: Source, src2: Source, now: int, req: Request)
    requires Fresh(s, now)
    ensures CheckAcl(check, s, src1, now, req) == CheckAcl(check, s, src2, now, req)
  {
  }

  /** A failed reload leaves every later decision exactly as it would have
      been without it. */
  lemma FailedReloadKeepsDecisions(check: Matcher, s: State, src: Source, req: Request)
    requires src.content.None?
    ensures var r := CheckAndUpdateConfig(s, src);
            && (Decide(check, r, req).Decided? <==> Decide(check, s, req).Decided?)
            && (Decide(check, r, req).Decided? ==> Decide(check, r, req).verdict == Decide(check, s, req).verdict)
            && Decide(check, r, req).state == Decide(check, s, req).state.(lastModified := src.marker)
  {
  }

  /** With no entries every request is denied, and nothing is cached. */
  lemma EmptyEntriesDeny(check: Matcher, s: State, req: Request)
    requires Valid(check, s) && s.entries == Some([])
    ensures Decide(check, s, req) == Decided(false, s)
  {
  }

  /** Up to the threshold no request is ever served from the cache, and the
      fresh path changes nothing. */
  lemma NoCacheBelowThreshold(check: Matcher, s: State, req: Request)
    requires CachePolicy(s) && s.entries.Some? && |s.entries.value| <= CacheThreshold
    ensures CachedVerdict(s, req).None?
    ensures Decide(check, s, req).state == s
  {
  }

  /** A request whose principal is not `User`-typed neither reads nor writes
      the cache. */
  lemma NonUserRequestsBypassCache(check: Matcher, s: State, req: Request)
    requires req.principalType != UserType
    ensures CachedVerdict(s, req).None?
    ensures Decide(check, s, req).state == s
  {
  }

  /** Asking the same `User` question twice on a cached state: the second
      answer is the first, served from the cache, and changes nothing. */
  lemma RepeatedRequestHitsCache(check: Matcher, s: State, req: Request)
    requires Valid(check, s) && s.cache.Some? && req.principalType == UserType
    ensures var first := Decide(check, s, req);
            && first.Decided?
            && CachedVerdict(first.state, req) == Some(first.verdict)
            && Decide(check, first.state, req) == first
  {
  }

  /** Two `User` requests never share a cache slot, so inserting one verdict
      keeps every other cached verdict. */
  lemma DistinctRequestsDistinctSlots(check: Matcher, s: State, a: Request, b: Request)
    requires s.cache.Some? && a != b && a.principalType == UserType && b.principalType == UserType
    ensures CachedVerdict(Decide(check, s, a).state, b) == CachedVerdict(s, b)
  {
  }

  /** `authorize` without a principal asks as Kafka's anonymous user; since
      that principal is `User`-typed, its verdict is cached like any user's. */
  lemma AnonymousRequestsAreCached(check: Matcher, s: State, src: Source, now: int,
                                   operation: string, resourceType: string, resourceName: string)
    requires Valid(check, s) && Fresh(s, now) && s.cache.Some?
    ensures var req := Request(UserType, AnonymousName, operation, ResourceString(resourceType, resourceName));
            var out := Authorize(check, s, src, now, None, operation, resourceType, resourceName);
            && out.Decided?
            && CachedVerdict(out.state, req) == Some(out.verdict)
  {
  }

  /** The resource string keeps type and name apart as long as the type has
      no colon, which holds for Kafka's resource type names. */
  lemma ResourceStringInjective(t1: string, n1: string, t2: string, n2: string)
    requires ':' !in t1 && ':' !in t2
    requires ResourceString(t1, n1) == ResourceString(t2, n2)
    ensures t1 == t2 && n1 == n2
  {
  }
}
