/**
 Verdict-cache keys of `AivenAclAuthorizer.checkAcl`.

 The source keys its cache with the string
 `resource + "|" + operation + "|" + principalName + "|" + principalType`,
 built only for `User`-type principals. That string is not injective: a `|`
 inside a principal name or a resource name lets two different requests
 share a key, and then one request is answered with the other's cached
 verdict. `KeyString` and the two lemmas after it record that behaviour; the
 rest of the model keys the cache with the structural `CacheKey`, which keeps
 the four fields apart.
 */
module CacheKeys {
  import opened Wrappers
  import opened Acl

  /** Kafka's `KafkaPrincipal.USER_TYPE`. */
  const UserType: string := "User"

  /** The four request fields a cache key is made of, in the source's order. */
  datatype CacheKey = CacheKey(
    resource: string,
    operation: string,
    principalName: string,
    principalType: string)

  /** The request a cache key was made for. */
  function RequestOf(k: CacheKey): Request
  {
    Request(k.principalType, k.principalName, k.operation, k.resource)
  }

  /** The cache key of a request: present exactly for `User`-type principals,
      and it always leads back to the request it was made for. */
  function KeyFor(req: Request): (key: Option<CacheKey>)
    ensures key.Some? <==> req.principalType == UserType
    ensures key.Some? ==> RequestOf(key.value) == req
    ensures key.Some? ==> key.value.principalType == UserType
  {
    if req.principalType == UserType then
      Some(CacheKey(req.resource, req.operation, req.principalName, req.principalType))
    else
      None
  }

  /** Two requests that receive a key receive the same key only when they are
      the same request, so a cached verdict is never served to a different
      request. */
  lemma KeyForInjective(a: Request, b: Request)
    requires KeyFor(a).Some? && KeyFor(a) == KeyFor(b)
    ensures a == b
  {
  }

  /** The key string as the source builds it: the four fields joined by `|`. */
  function KeyString(k: CacheKey): (s: string)
    ensures |s| == |k.resource| + |k.operation| + |k.principalName| + |k.principalType| + 3
    ensures s[..|k.resource|] == k.resource && s[|k.resource|] == '|'
    ensures s[|s| - |k.principalType|..] == k.principalType
  {
    k.resource + "|" + k.operation + "|" + k.principalName + "|" + k.principalType
  }

  /** Two different `User` requests whose source key strings coincide: a group
      `g` asked about by principal `x|Read|y`, and a group `g|Read|x` asked
      about by principal `y`. */
  lemma KeyStringNotInjective()
    ensures var a := CacheKey("Group:g", "Read", "x|Read|y", UserType);
            var b := CacheKey("Group:g|Read|x", "Read", "y", UserType);
            a != b && KeyString(a) == KeyString(b)
  {
  }

  /** One decision of the fresh path with the cache keyed by `KeyString`, as
      the source does it, assuming the cache exists: a `User` request looks up
      its key string and, on a miss, stores the scan verdict under it. */
  datatype StringKeyed = StringKeyed(verdict: bool, cache: map<string, bool>)

  function DecideAsWritten(check: Matcher, entries: seq<Entry>, cache: map<string, bool>,
                           req: Request): (out: StringKeyed)
    ensures KeyFor(req).None? ==> out == StringKeyed(Granted(check, entries, req), cache)
    ensures KeyFor(req).Some? && KeyString(KeyFor(req).value) in cache ==>
              out == StringKeyed(cache[KeyString(KeyFor(req).value)], cache)
    ensures KeyFor(req).Some? && KeyString(KeyFor(req).value) !in cache ==>
              && out.verdict == Granted(check, entries, req)
              && out.cache == cache[KeyString(KeyFor(req).value) := out.verdict]
  {
    match KeyFor(req)
    case None => StringKeyed(Granted(check, entries, req), cache)
    case Some(k) =>
      var key := KeyString(k);
      if key in cache then
        StringKeyed(cache[key], cache)
      else
        var verdict := Granted(check, entries, req);
        StringKeyed(verdict, cache[key := verdict])
  }

  /** With the string-keyed cache, deciding one request and then another
      answers the second wrongly: under a matcher that grants by principal
      name, the entry below grants `a` and not `b`, yet `b`, decided after
      `a` on the same cache, receives `a`'s verdict. */
  lemma StringKeyedCacheServesForeignVerdict()
    ensures var a := Request(UserType, "x|Read|y", "Read", "Group:g");
            var b := Request(UserType, "y", "Read", "Group:g|Read|x");
            var check: Matcher := (e: Entry, r: Request) => e.principal == r.principalName;
            var entries := [Entry(UserType, "x|Read|y", "Read", "Group", "g")];
            var first := DecideAsWritten(check, entries, map[], a);
            var second := DecideAsWritten(check, entries, first.cache, b);
            && a != b
            && first.verdict == Granted(check, entries, a)
            && second.verdict == first.verdict
            && second.verdict != Granted(check, entries, b)
  {
    var a := Request(UserType, "x|Read|y", "Read", "Group:g");
    var b := Request(UserType, "y", "Read", "Group:g|Read|x");
    var check: Matcher := (e: Entry, r: Request) => e.principal == r.principalName;
    var entries := [Entry(UserType, "x|Read|y", "Read", "Group", "g")];
    KeyStringNotInjective();
    assert KeyFor(a).value == CacheKey("Group:g", "Read", "x|Read|y", UserType);
    assert KeyFor(b).value == CacheKey("Group:g|Read|x", "Read", "y", UserType);
    assert check(entries[0], a);
    assert Granted(check, entries, a);
    assert "x|Read|y" != "y";
    assert !Granted(check, entries, b);
  }
}
