/**
 * The fluent builders RedirectPath and RedirectAll, extension methods on a policy
 * collection: each appends one new policy to the caller's list in place and returns that
 * same list, and throws ArgumentNullException for a null list.
 */
module PolicyExtensions {
  import opened Wrappers
  import opened Strings
  import opened Http
  import opened Policies

  /** RedirectPath: appends a new SslPathPolicy for `pattern`. */
  method RedirectPath(policies: PolicyList?, pattern: Option<string>) returns (r: Result<PolicyList, Exception>)
    modifies policies
    ensures policies == null ==> r == Failure(ArgumentNullException("policies"))
    ensures policies != null ==> r == Success(policies)
    ensures policies != null ==>
      |policies.items| == |old(policies.items)| + 1 &&
      policies.items[..|old(policies.items)|] == old(policies.items)
    ensures policies != null ==>
      var added := policies.items[|policies.items| - 1];
      added.Path? && fresh(added.path) && added.path.pattern == pattern && added.path.Valid()
  {
    if policies == null {
      return Failure(ArgumentNullException("policies"));
    }
    var policy := new SslPathPolicy.WithPattern(pattern);
    policies.Add(Path(policy));
    return Success(policies);
  }

  /** RedirectAll: appends a new SslAllPolicy. */
  method RedirectAll(policies: PolicyList?) returns (r: Result<PolicyList, Exception>)
    modifies policies
    ensures policies == null ==> r == Failure(ArgumentNullException("policies"))
    ensures policies != null ==> r == Success(policies)
    ensures policies != null ==>
      |policies.items| == |old(policies.items)| + 1 &&
      policies.items[..|old(policies.items)|] == old(policies.items)
    ensures policies != null ==>
      var added := policies.items[|policies.items| - 1];
      added.All? && fresh(added.all)
  {
    if policies == null {
      return Failure(ArgumentNullException("policies"));
    }
    var policy := new SslAllPolicy();
    policies.Add(All(policy));
    return Success(policies);
  }

  /**
   * A path policy appended with a null or empty pattern never accepts, whatever the
   * request, and calling RedirectPath for it still succeeds.
   */
  method RedirectPathWithoutPattern(policies: PolicyList, pattern: Option<string>, context: HttpContext)
    returns (r: Result<PolicyList, Exception>, accepted: bool)
    requires IsNullOrEmpty(pattern)
    modifies policies
    ensures r == Success(policies)
    ensures !accepted
  {
    r := RedirectPath(policies, pattern);
    var added := policies.items[|policies.items| - 1];
    accepted := added.Accept(context);
  }
}
