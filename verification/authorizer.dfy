/**
 The ACL decision engine of `AivenAclAuthorizer`, as a sequential state
 machine.

 The authorizer's mutable fields become one immutable `State`; each public
 step is a pure function of that state, the clock reading `now` (milliseconds)
 and, where the step looks at the configuration file, a `Source` snapshot of
 it. The read/write lock is not modelled: every step runs alone.
 */
module Authorizer {
  import opened Wrappers
  import opened Acl
  import opened CacheKeys

  /** How long a configuration check stays fresh, in milliseconds. */
  const FreshnessWindowMs: int := 10000

  /** Verdicts are cached only for entry lists longer than this. */
  const CacheThreshold: int := 10

  /** Name of Kafka's `KafkaPrincipal.ANONYMOUS`, whose type is `User`. */
  const AnonymousName: string := "ANONYMOUS"

  /** What the configuration file offers at one instant: its modification
      marker (`File.lastModified`, 0 when the file is missing) and the parsed
      entry list, or `None` when reading or JSON parsing fails. */
  datatype Source = Source(marker: int, content: Option<seq<Entry>>)

  /** The authorizer's fields. `entries` is `None` until a load succeeds;
      `cache` is `None` when verdict caching is off. */
  datatype State = State(
    entries: Option<seq<Entry>>,
    cache: Option<map<CacheKey, bool>>,
    lastModified: int,
    lastCheck: int)

  /** The end of one `checkAcl` call: a verdict, or the `NullPointerException`
      the scan raises when no entry list was ever loaded. Either way the
      state the call leaves behind. */
  datatype Outcome = Decided(verdict: bool, state: State) | NoEntries(state: State)

  /** The result of `reloadAcls`. */
  datatype Reload = Reload(changed: bool, state: State)

  /** A freshly constructed authorizer: both timestamps 0, nothing loaded. */
  const Initial: State := State(None, None, 0, 0)

  /** The cache policy that follows every successful load. */
  function CacheFor(parsed: seq<Entry>): (cache: Option<map<CacheKey, bool>>)
    ensures cache.Some? <==> |parsed| > CacheThreshold
    ensures cache.Some? ==> cache.value == map[]
  {
    if |parsed| > CacheThreshold then Some(map[]) else None
  }

  /** `checkAndUpdateConfig`: reload when the file's marker differs from the
      recorded one. A successful load replaces the entries wholesale and
      re-decides the cache; a failed one changes nothing but the marker. The
      marker is recorded in both cases. */
  function CheckAndUpdateConfig(s: State, src: Source): (r: State)
    ensures r.lastModified == src.marker
    ensures r.lastCheck == s.lastCheck
    ensures src.marker == s.lastModified ==> r == s
    ensures src.content.None? ==> r.entries == s.entries && r.cache == s.cache
    ensures src.marker != s.lastModified && src.content.Some? ==>
              && r.entries == src.content
              && (r.cache.Some? <==> |src.content.value| > CacheThreshold)
              && (r.cache.Some? ==> r.cache.value == map[])
  {
    var reloaded :=
      if src.marker != s.lastModified then
        match src.content
        case Some(parsed) => s.(entries := Some(parsed), cache := CacheFor(parsed))
        case None => s
      else
        s;
    reloaded.(lastModified := src.marker)
  }

  /** `configure`: one configuration check on a fresh authorizer. A missing
      file reports marker 0, equal to the initial record, so nothing is read
      and the entry list stays absent. */
  function Configure(src: Source): (r: State)
    ensures r.lastModified == src.marker && r.lastCheck == 0
    ensures src.marker == 0 ==> r.entries.None? && r.cache.None?
    ensures src.marker != 0 ==> r.entries == src.content
  {
    CheckAndUpdateConfig(Initial, src)
  }

  /** `reloadAcls`: a configuration check that also restarts the freshness
      window at `now`, reporting whether the recorded marker moved. It moves
      whenever the file's marker changed, even if the new file did not parse. */
  function ReloadAcls(s: State, src: Source, now: int): (r: Reload)
    ensures r.changed <==> src.marker != s.lastModified
    ensures r.state.lastCheck == now
    ensures r.state.(lastCheck := s.lastCheck) == CheckAndUpdateConfig(s, src)
  {
    var previousUpdate := s.lastModified;
    var checked := CheckAndUpdateConfig(s, src).(lastCheck := now);
    Reload(previousUpdate != checked.lastModified, checked)
  }

  /** The configuration was checked less than one window before `now`. */
  predicate Fresh(s: State, now: int)
  {
    s.lastCheck + FreshnessWindowMs > now
  }

  /** The stale branch of `checkAcl`: re-test the window, move the check time
      to `now` and check the configuration. Afterwards the state is fresh. */
  function StaleRefresh(s: State, src: Source, now: int): (r: State)
    ensures Fresh(r, now)
    ensures Fresh(s, now) ==> r == s
    ensures !Fresh(s, now) ==> r.lastCheck == now && r.lastCheck > s.lastCheck
    ensures !Fresh(s, now) ==> r.(lastCheck := s.lastCheck) == CheckAndUpdateConfig(s, src)
  {
    if s.lastCheck + FreshnessWindowMs <= now then
      CheckAndUpdateConfig(s.(lastCheck := now), src)
    else
      s
  }

  /** The verdict the cache holds for a request, if any. Only `User`-type
      requests have a key, so no other request ever reads the cache. */
  function CachedVerdict(s: State, req: Request): (v: Option<bool>)
    ensures v.Some? ==> req.principalType == UserType && s.cache.Some?
    ensures v.Some? <==> KeyFor(req).Some? && s.cache.Some? && KeyFor(req).value in s.cache.value
    ensures v.Some? ==> v.value == s.cache.value[KeyFor(req).value]
  {
    match (KeyFor(req), s.cache)
    case (Some(k), Some(c)) => if k in c then Some(c[k]) else None
    case _ => None
  }

  /** The fresh path of `checkAcl`: serve a cache hit unchanged; otherwise
      scan the entries and store the scan verdict under the request's key when
      both the key and the cache exist. */
  function Decide(check: Matcher, s: State, req: Request): (out: Outcome)
    ensures out.state.entries == s.entries
    ensures out.state.lastModified == s.lastModified && out.state.lastCheck == s.lastCheck
    ensures out.state.cache.Some? <==> s.cache.Some?
    ensures CachedVerdict(s, req).Some? ==> out == Decided(CachedVerdict(s, req).value, s)
    ensures CachedVerdict(s, req).None? && s.entries.None? ==> out == NoEntries(s)
    ensures CachedVerdict(s, req).None? && s.entries.Some? ==>
              out.Decided? && out.verdict == Granted(check, s.entries.value, req)
    ensures KeyFor(req).None? || s.cache.None? ==> out.state == s
    ensures out.Decided? && KeyFor(req).Some? && s.cache.Some? ==>
              CachedVerdict(out.state, req) == Some(out.verdict)
    ensures KeyFor(req).Some? && s.cache.Some? ==>
              out.state.cache.value - {KeyFor(req).value} == s.cache.value - {KeyFor(req).value}
  {
    match CachedVerdict(s, req)
    case Some(v) => Decided(v, s)
    case None =>
      match s.entries
      case None => NoEntries(s)
      case Some(entries) =>
        var verdict := Granted(check, entries, req);
        match (KeyFor(req), s.cache)
        case (Some(k), Some(c)) => Decided(verdict, s.(cache := Some(c[k := verdict])))
        case _ => Decided(verdict, s)
  }

  /** `checkAcl`: loop until the configuration is fresh, then decide. The
      clock is read once, so the stale branch makes the state fresh and the
      loop decides on its second pass. */
  function CheckAcl(check: Matcher, s: State, src: Source, now: int, req: Request): (out: Outcome)
    ensures Fresh(out.state, now)
    ensures out.state.lastCheck >= s.lastCheck
    ensures Fresh(s, now) ==> out.state.entries == s.entries && out.state.lastModified == s.lastModified
    ensures !Fresh(s, now) ==> out.state.lastCheck == now && out.state.lastModified == src.marker
    ensures Valid(check, s) ==> (out.Decided? <==> out.state.entries.Some?)
    ensures Valid(check, s) && out.Decided? ==> out.verdict == Granted(check, out.state.entries.value, req)
    decreases if Fresh(s, now) then 0 else 1
  {
    if s.lastCheck + FreshnessWindowMs > now then
      Decide(check, s, req)
    else
      CheckAcl(check, StaleRefresh(s, src, now), src, now, req)
  }

  /** A Kafka principal as `authorize` sees it. */
  datatype Principal = Principal(principalType: string, name: string)

  /** The resource string `authorize` passes on: type and name around a colon. */
  function ResourceString(resourceType: string, resourceName: string): (r: string)
    ensures |r| == |resourceType| + 1 + |resourceName|
    ensures r[..|resourceType|] == resourceType && r[|resourceType|] == ':'
    ensures r[|resourceType| + 1..] == resourceName
  {
    resourceType + ":" + resourceName
  }

  /** The request `authorize` builds: a missing principal stands for Kafka's
      anonymous principal, which is `User`-typed. */
  function RequestFor(principal: Option<Principal>, operation: string, resourceType: string,
                      resourceName: string): (req: Request)
    ensures req.operation == operation
    ensures req.resource == ResourceString(resourceType, resourceName)
    ensures principal.None? ==> req.principalType == UserType && req.principalName == AnonymousName
    ensures principal.Some? ==>
              req.principalType == principal.value.principalType && req.principalName == principal.value.name
  {
    var p := if principal.None? then Principal(UserType, AnonymousName) else principal.value;
    Request(p.principalType, p.name, operation, ResourceString(resourceType, resourceName))
  }

  /** `authorize`: build the request and run `checkAcl` on it. From a valid
      state the answer is the scan of the entries the call ends with, and it
      fails only when no entry list was ever loaded. */
  function Authorize(check: Matcher, s: State, src: Source, now: int, principal: Option<Principal>,
                     operation: string, resourceType: string, resourceName: string): (out: Outcome)
    ensures Fresh(out.state, now) && out.state.lastCheck >= s.lastCheck
    ensures Valid(check, s) ==> (out.Decided? <==> out.state.entries.Some?)
    ensures Valid(check, s) && out.Decided? ==>
              out.verdict == Granted(check, out.state.entries.value,
                                     RequestFor(principal, operation, resourceType, resourceName))
  {
    CheckAcl(check, s, src, now, RequestFor(principal, operation, resourceType, resourceName))
  }

  /** Caching is on exactly when a loaded entry list exceeds the threshold. */
  predicate CachePolicy(s: State)
  {
    s.cache.Some? <==> s.entries.Some? && |s.entries.value| > CacheThreshold
  }

  /** Every cached verdict belongs to a `User` request and equals the scan
      verdict of the current entries for that request. */
  predicate Coherent(check: Matcher, s: State)
  {
    s.cache.Some? ==>
      && s.entries.Some?
      && forall k | k in s.cache.value ::
           k.principalType == UserType && s.cache.value[k] == Granted(check, s.entries.value, RequestOf(k))
  }

  /** The state invariant every step keeps. */
  predicate Valid(check: Matcher, s: State)
  {
    CachePolicy(s) && Coherent(check, s)
  }
}
