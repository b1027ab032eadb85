/**
 Access-control entries and the rule scan of `AivenAclAuthorizer.checkAcl`.

 The matching rule of a single entry (`AivenAclEntry.check`) is not part of
 this model: it is kept uninterpreted as a `Matcher` that every operation
 takes as a parameter, so that nothing below depends on its wildcard or
 prefix grammar.
 */
module Acl {

  /** One entry of the JSON configuration file, field for field. */
  datatype Entry = Entry(
    principalType: string,
    principal: string,
    operation: string,
    resource: string,
    resourcePattern: string)

  /** The four strings `checkAcl` is called with. `resource` has the form
      `<resourceType>:<resourceName>` when it comes from `authorize`. */
  datatype Request = Request(
    principalType: string,
    principalName: string,
    operation: string,
    resource: string)

  /** `AivenAclEntry.check`: does this entry grant this request? */
  type Matcher = (Entry, Request) -> bool

  /** The reference meaning of an entry list: some entry grants the request.
      Only allow rules exist, so no entry can take a grant away. */
  predicate Granted(check: Matcher, entries: seq<Entry>, req: Request)
  {
    exists i | 0 <= i < |entries| :: check(entries[i], req)
  }

  /** The scan loop of `checkAcl`: walk the entries in order and stop at the
      first one that grants the request. */
  method Scan(check: Matcher, entries: seq<Entry>, req: Request) returns (verdict: bool)
    ensures verdict <==> Granted(check, entries, req)
    ensures |entries| == 0 ==> !verdict
  {
    verdict := false;
    var i := 0;
    while !verdict && i < |entries|
      invariant 0 <= i <= |entries|
      invariant verdict ==> 0 < i && check(entries[i - 1], req)
      invariant !verdict ==> forall j | 0 <= j < i :: !check(entries[j], req)
    {
      if check(entries[i], req) {
        verdict := true;
      }
      i := i + 1;
    }
  }

  /** The order of the entries does not affect the verdict, only how early the
      scan can stop: a reordered (or duplicated-and-reordered) entry list
      grants exactly the same requests. */
  lemma GrantedIgnoresOrder(check: Matcher, a: seq<Entry>, b: seq<Entry>, req: Request)
    requires multiset(a) == multiset(b)
    ensures Granted(check, a, req) <==> Granted(check, b, req)
  {
    if Granted(check, a, req) {
      var i :| 0 <= i < |a| && check(a[i], req);
      assert a[i] in multiset(b);
      var j :| 0 <= j < |b| && b[j] == a[i];
    }
    if Granted(check, b, req) {
      var j :| 0 <= j < |b| && check(b[j], req);
      assert b[j] in multiset(a);
      var i :| 0 <= i < |a| && a[i] == b[j];
    }
  }

  /** An entry list grants a request exactly when one of its two halves does,
      so adding entries never revokes access. */
  lemma GrantedAppend(check: Matcher, a: seq<Entry>, b: seq<Entry>, req: Request)
    ensures Granted(check, a + b, req) <==> Granted(check, a, req) || Granted(check, b, req)
  {
    if Granted(check, a + b, req) {
      var i :| 0 <= i < |a + b| && check((a + b)[i], req);
      if i >= |a| {
        assert b[i - |a|] == (a + b)[i];
      } else {
        assert a[i] == (a + b)[i];
      }
    }
    if Granted(check, a, req) {
      var i :| 0 <= i < |a| && check(a[i], req);
      assert (a + b)[i] == a[i];
    }
    if Granted(check, b, req) {
      var j :| 0 <= j < |b| && check(b[j], req);
      assert (a + b)[|a| + j] == b[j];
    }
  }
}
