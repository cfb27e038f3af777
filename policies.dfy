/**
 * The policies that decide which insecure requests are upgraded (ISslPolicy): SslAllPolicy
 * accepts every request, SslPathPolicy those whose path matches a glob pattern. A policy
 * collection (ICollection<ISslPolicy>, a List) holds references to policy objects.
 */
module Policies {
  import opened Wrappers
  import opened Strings
  import opened Http

  /**
   * Minimatch's IsMatch of a path against a pattern. Glob semantics belong to the matching
   * library and are left uninterpreted; the matcher is built with IgnoreCase, which the
   * callers express by folding both arguments.
   */
  const GLOB_MATCH: (string, string) -> bool

  /** The policy that requires every request to use SSL. */
  class SslAllPolicy {
    constructor ()
    {
    }

    /** Accepts every request; it reads no request or response field (it has no reads clause). */
    predicate Accept(context: HttpContext): (r: bool)
      ensures r
    {
      true
    }
  }

  /** The policy that requires requests for paths matching a glob pattern to use SSL. */
  class SslPathPolicy {
    /** The pattern last assigned (the Pattern getter returns it), null by default. */
    var pattern: Option<string>
    /** The pattern the matcher was built from; None until a non-empty pattern is assigned. */
    var matcher: Option<string>

    /** A usable pattern always has a matcher built from it. */
    ghost predicate Valid()
      reads this
    {
      !IsNullOrEmpty(pattern) ==> matcher == pattern
    }

    /** The parameterless constructor: neither a pattern nor a matcher. */
    constructor ()
      ensures pattern == None && matcher == None
      ensures Valid()
    {
      pattern := None;
      matcher := None;
    }

    /** The constructor taking a pattern, which assigns it through the Pattern setter. */
    constructor WithPattern(value: Option<string>)
      ensures pattern == value
      ensures matcher == if IsNullOrEmpty(value) then None else value
      ensures Valid()
    {
      pattern := None;
      matcher := None;
      new;
      SetPattern(value);
    }

    /**
     * The Pattern setter: the getter returns `value` from now on; the matcher is rebuilt only
     * for a non-empty value, so an empty or null one keeps the previous matcher.
     */
    method SetPattern(value: Option<string>)
      modifies this
      ensures pattern == value
      ensures matcher == if IsNullOrEmpty(value) then old(matcher) else value
      ensures Valid()
    {
      pattern := value;
      if !IsNullOrEmpty(value) {
        matcher := value;
      }
    }

    /**
     * Accept: false for a null or empty pattern, whatever matcher is left over; otherwise
     * whether the request path matches the pattern, ignoring case.
     */
    predicate Accept(context: HttpContext): (r: bool)
      requires Valid()
      reads this, context
      ensures IsNullOrEmpty(pattern) ==> !r
      ensures !IsNullOrEmpty(pattern) ==> (r <==> GLOB_MATCH(Upper(pattern.value), Upper(context.path)))
    {
      !IsNullOrEmpty(pattern) && GLOB_MATCH(Upper(matcher.value), Upper(context.path))
    }

    /** ToString: the class name, a colon and the pattern in double quotes (null prints as ""). */
    function ToString(): (s: string)
      reads this
      ensures |s| == |TO_STRING_PREFIX| + |Text(pattern)| + 1
      ensures s[..|TO_STRING_PREFIX|] == TO_STRING_PREFIX && s[|s| - 1] == '"'
      ensures s[|TO_STRING_PREFIX|..|s| - 1] == Text(pattern)
    {
      TO_STRING_PREFIX + Text(pattern) + "\""
    }
  }

  const TO_STRING_PREFIX: string := "SslPathPolicy: \""

  /** A nullable string as string interpolation renders it. */
  function Text(s: Option<string>): string {
    if s.None? then "" else s.value
  }

  /** A reference to one of the two policy classes, as an element of a policy collection. */
  datatype SslPolicy = All(all: SslAllPolicy) | Path(path: SslPathPolicy) {
    function Object(): object {
      if All? then all else path
    }

    ghost predicate Valid()
      reads Object()
    {
      Path? ==> path.Valid()
    }

    /** ISslPolicy.Accept, dispatched to the referenced policy. */
    predicate Accept(context: HttpContext): (r: bool)
      requires Valid()
      reads Object(), context
      ensures All? ==> r
      ensures Path? ==> r == path.Accept(context)
    {
      match this
      case All(p) => p.Accept(context)
      case Path(p) => p.Accept(context)
    }
  }

  /** The objects a sequence of policy references points to. */
  function Objects(ps: seq<SslPolicy>): set<object> {
    set i | 0 <= i < |ps| :: ps[i].Object()
  }

  ghost predicate AllValid(ps: seq<SslPolicy>)
    reads Objects(ps)
  {
    forall i :: 0 <= i < |ps| ==> ps[i].Valid()
  }

  /** A mutable policy collection (the List behind ICollection<ISslPolicy>). */
  class PolicyList {
    var items: seq<SslPolicy>

    /** An empty list. */
    constructor ()
      ensures items == []
    {
      items := [];
    }

    /** new List<ISslPolicy>(other): a distinct list holding the same references in order. */
    constructor Copy(other: PolicyList)
      ensures items == other.items
    {
      items := other.items;
    }

    /** Add: appends one element. */
    method Add(p: SslPolicy)
      modifies this
      ensures items == old(items) + [p]
    {
      items := items + [p];
    }

    /** Clear: removes every element. */
    method Clear()
      modifies this
      ensures items == []
    {
      items := [];
    }
  }
}
