/**
 The decision engine: an insertion-ordered list of validated rules, and the
 decision that every rule matching a request must evaluate to "allow".
 A request that no rule matches is denied; a nil context is an error.
 */
module Engines {
  import opened Values
  import opened Errors
  import opened Types
  import opened Rules
  import opened Contexts

  /** The two condition keys the engine interprets; other keys are ignored. */
  const UserRoleKey: string := "userRole"
  const ResourceOwnerKey: string := "resourceOwner"

  /** The error `IsAllowed` returns for a nil context: a pointer to a
      code-less invalid-context struct. */
  const ContextRequired: ErrorValue := ByPointer(InvalidContext("", "context is required"))

  // --------------------------------------------------------- specification

  /** The role check holds when the user's "roles" is a string list holding
      the required role, or the user's "role" is that very string. */
  predicate RoleGranted(user: Attrs, required: Value) {
    && required.VStr?
    && ((Lookup(user, "roles").Some? && Lookup(user, "roles").value.VStrList?
         && required.s in Lookup(user, "roles").value.xs)
        || Lookup(user, "role") == Some(VStr(required.s)))
  }

  /** The role check asserts the required role is a string only when it
      has a role to compare it with; then a non-string would panic. */
  predicate RoleSafe(user: Attrs, required: Value) {
    || required.VStr?
    || !((Lookup(user, "roles").Some? && Lookup(user, "roles").value.VStrList?
          && |Lookup(user, "roles").value.xs| > 0)
         || (Lookup(user, "role").Some? && Lookup(user, "role").value.VStr?))
  }

  /** The owner check holds when user "id" and resource "owner" are both
      present and equal. */
  predicate OwnedBy(user: Attrs, res: Attrs) {
    Lookup(user, "id").Some? && Lookup(user, "id") == Lookup(res, "owner")
  }

  /** Comparing user "id" with resource "owner" does not panic. */
  predicate OwnerSafe(user: Attrs, res: Attrs) {
    Lookup(user, "id").Some? && Lookup(res, "owner").Some? ==>
      Comparable(Lookup(user, "id").value, Lookup(res, "owner").value)
  }

  /** A rule evaluates to true: each interpreted condition it carries holds,
      and its effect is allow. */
  predicate Satisfied(r: RuleValue, user: Attrs, res: Attrs) {
    && (UserRoleKey in r.conditions ==> RoleGranted(user, r.conditions[UserRoleKey]))
    && (ResourceOwnerKey in r.conditions ==> OwnedBy(user, res))
    && r.effect == Allow
  }

  /** Evaluating the rule cannot panic, whatever order its conditions are visited in. */
  predicate RuleSafe(r: RuleValue, user: Attrs, res: Attrs) {
    && (UserRoleKey in r.conditions ==> RoleSafe(user, r.conditions[UserRoleKey]))
    && (ResourceOwnerKey in r.conditions ==> OwnerSafe(user, res))
  }

  /** Every rule that a left-to-right evaluation reaches (all rules before it
      evaluated to true) can be evaluated without a panic. */
  predicate SafeUntilDenied(ms: seq<RuleValue>, user: Attrs, res: Attrs) {
    |ms| == 0
    || (RuleSafe(ms[0], user, res) && (Satisfied(ms[0], user, res) ==> SafeUntilDenied(ms[1..], user, res)))
  }

  /** The stored rules that match a request, in stored order. */
  function Filter(rules: seq<RuleValue>, resource: string, action: string): (m: seq<RuleValue>)
    ensures |m| <= |rules|
    ensures forall j :: 0 <= j < |m| ==> m[j].Matches(resource, action)
  {
    if rules == [] then []
    else
      var init := Filter(rules[..|rules| - 1], resource, action);
      if rules[|rules| - 1].Matches(resource, action) then init + [rules[|rules| - 1]] else init
  }

  /** The decision on a non-nil context: some rule matches, and every
      matching rule evaluates to true. */
  predicate Allowed(rules: seq<RuleValue>, resource: string, action: string, user: Attrs, res: Attrs) {
    && (exists i :: 0 <= i < |rules| && rules[i].Matches(resource, action))
    && (forall i :: 0 <= i < |rules| && rules[i].Matches(resource, action) ==> Satisfied(rules[i], user, res))
  }

  // ----------------------------------------------------------------- engine

  class Engine {
    var rules: seq<RuleValue>

    /** Only rules that passed validation are ever stored. */
    ghost predicate Valid()
      reads this
    {
      forall i :: 0 <= i < |rules| ==> rules[i].Validate().None?
    }

    /** `NewEngine`: no rules. */
    constructor ()
      ensures Valid() && rules == []
    {
      rules := [];
    }

    /** `AddRule`: validate first; on success append a copy at the end,
        otherwise leave the rules as they were. */
    method AddRule(rule: Rule) returns (err: Option<ErrorValue>)
      requires Valid()
      modifies this
      ensures Valid()
      ensures err == rule.Snapshot().Validate()
      ensures err.None? ==> rules == old(rules) + [rule.Snapshot()]
      ensures err.Some? ==> rules == old(rules)
    {
      err := rule.Snapshot().Validate();
      if err.Some? {
        return;
      }
      rules := rules + [rule.Snapshot()];
    }

    /** `IsAllowed`. */
    method IsAllowed(resource: string, action: string, ctx: Context?) returns (allowed: bool, err: Option<ErrorValue>)
      requires ctx != null ==> SafeUntilDenied(Filter(rules, resource, action), ctx.User(), ctx.Resource())
      ensures ctx == null ==> !allowed && err == Some(ContextRequired)
      ensures ctx != null ==> err.None? && allowed == Allowed(rules, resource, action, ctx.User(), ctx.Resource())
    {
      if ctx == null {
        return false, Some(ContextRequired);
      }
      ghost var user, res := ctx.User(), ctx.Resource();
      var matching := FindMatchingRules(resource, action);
      if |matching| == 0 {
        NothingMatchedDenies(rules, resource, action, user, res);
        return false, None;  // default deny
      }
      var i := 0;
      while i < |matching|
        invariant 0 <= i <= |matching|
        invariant forall j :: 0 <= j < i ==> Satisfied(matching[j], user, res)
        invariant SafeUntilDenied(matching[i..], user, res)
      {
        assert matching[i..][1..] == matching[i + 1..];
        var ok := EvaluateRule(matching[i], ctx);
        if !ok {
          FilteredRuleDenies(rules, resource, action, user, res, i);
          return false, None;
        }
        i := i + 1;
      }
      AllFilteredSatisfiedAllows(rules, resource, action, user, res);
      return true, None;
    }

    /** `findMatchingRules`: the stored rules that match, in stored order. */
    method FindMatchingRules(resource: string, action: string) returns (matching: seq<RuleValue>)
      ensures matching == Filter(rules, resource, action)
      ensures forall r :: r in matching <==> r in rules && r.Matches(resource, action)
    {
      matching := [];
      var i := 0;
      while i < |rules|
        invariant 0 <= i <= |rules|
        invariant matching == Filter(rules[..i], resource, action)
      {
        assert rules[..i + 1][..i] == rules[..i];
        if rules[i].Matches(resource, action) {
          matching := matching + [rules[i]];
        }
        i := i + 1;
      }
      assert rules[..|rules|] == rules;
      FilterMembership(rules, resource, action);
    }

    /** `evaluateRule`: visits the condition keys in an arbitrary order (Go
        map iteration), fails on the first interpreted condition that does
        not hold, and otherwise reports whether the effect is allow. */
    method EvaluateRule(rule: RuleValue, ctx: Context) returns (ok: bool)
      requires RuleSafe(rule, ctx.User(), ctx.Resource())
      ensures ok == Satisfied(rule, ctx.User(), ctx.Resource())
    {
      var pending := rule.conditions.Keys;
      while pending != {}
        invariant pending <= rule.conditions.Keys
        invariant UserRoleKey in rule.conditions && UserRoleKey !in pending ==>
                    RoleGranted(ctx.User(), rule.conditions[UserRoleKey])
        invariant ResourceOwnerKey in rule.conditions && ResourceOwnerKey !in pending ==>
                    OwnedBy(ctx.User(), ctx.Resource())
        decreases pending
      {
        var key :| key in pending;
        pending := pending - {key};
        if key == UserRoleKey {
          var granted := MatchUserRole(ctx, rule.conditions[key]);
          if !granted {
            return false;
          }
        } else if key == ResourceOwnerKey {
          if !MatchResourceOwner(ctx) {
            return false;
          }
        }
      }
      return rule.effect == Allow;
    }

    /** `matchUserRole`: scans the "roles" list, then tries the single "role". */
    method MatchUserRole(ctx: Context, requiredRole: Value) returns (granted: bool)
      requires RoleSafe(ctx.User(), requiredRole)
      ensures granted == RoleGranted(ctx.User(), requiredRole)
    {
      var roles := Lookup(ctx.User(), "roles");
      if roles.Some? && roles.value.VStrList? {
        var xs := roles.value.xs;
        var i := 0;
        while i < |xs|
          invariant 0 <= i <= |xs|
          invariant forall j :: 0 <= j < i ==> !(requiredRole.VStr? && xs[j] == requiredRole.s)
        {
          if xs[i] == requiredRole.s {
            return true;
          }
          i := i + 1;
        }
      }
      var role := Lookup(ctx.User(), "role");
      if role.Some? && role.value.VStr? {
        if role.value.s == requiredRole.s {
          return true;
        }
      }
      return false;
    }

    /** `matchResourceOwner`. */
    function MatchResourceOwner(ctx: Context): (owned: bool)
      reads ctx
      requires OwnerSafe(ctx.User(), ctx.Resource())
      ensures owned == OwnedBy(ctx.User(), ctx.Resource())
    {
      var userID := Lookup(ctx.User(), "id");
      var resourceOwner := Lookup(ctx.Resource(), "owner");
      userID.Some? && resourceOwner.Some? && userID.value == resourceOwner.value
    }
  }

  // ------------------------------------------------------------- properties

  /** Filtering keeps exactly the matching rules. */
  lemma {:induction false} FilterMembership(rules: seq<RuleValue>, resource: string, action: string)
    ensures forall r :: r in Filter(rules, resource, action) <==> r in rules && r.Matches(resource, action)
  {
    if rules != [] {
      var init := rules[..|rules| - 1];
      FilterMembership(init, resource, action);
      assert rules == init + [rules[|rules| - 1]];
    }
  }

  /** Filtering distributes over concatenation, so it keeps stored order. */
  lemma {:induction false} FilterAppend(a: seq<RuleValue>, b: seq<RuleValue>, resource: string, action: string)
    ensures Filter(a + b, resource, action) == Filter(a, resource, action) + Filter(b, resource, action)
  {
    if b == [] {
      assert a + b == a;
    } else {
      var init := b[..|b| - 1];
      FilterAppend(a, init, resource, action);
      assert (a + b)[..|a + b| - 1] == a + init;
    }
  }

  /** The decision seen through the filtered list: some rule matched and
      all the matched rules evaluate to true. */
  lemma AllowedIffFilteredSatisfied(rules: seq<RuleValue>, resource: string, action: string, user: Attrs, res: Attrs)
    ensures var m := Filter(rules, resource, action);
      Allowed(rules, resource, action, user, res) <==>
        |m| > 0 && forall j :: 0 <= j < |m| ==> Satisfied(m[j], user, res)
  {
    var m := Filter(rules, resource, action);
    FilterMembership(rules, resource, action);
    if |m| > 0 {
      assert m[0] in m;
    }
    if exists i :: 0 <= i < |rules| && rules[i].Matches(resource, action) {
      var i :| 0 <= i < |rules| && rules[i].Matches(resource, action);
      assert rules[i] in m;
    }
    if forall j :: 0 <= j < |m| ==> Satisfied(m[j], user, res) {
      forall i | 0 <= i < |rules| && rules[i].Matches(resource, action)
        ensures Satisfied(rules[i], user, res)
      {
        assert rules[i] in m;
      }
    }
  }

  /** The three exits of `IsAllowed`, each stated on the filtered list. */
  lemma NothingMatchedDenies(rules: seq<RuleValue>, resource: string, action: string, user: Attrs, res: Attrs)
    requires |Filter(rules, resource, action)| == 0
    ensures !Allowed(rules, resource, action, user, res)
  {
    AllowedIffFilteredSatisfied(rules, resource, action, user, res);
  }

  lemma FilteredRuleDenies(rules: seq<RuleValue>, resource: string, action: string, user: Attrs, res: Attrs, i: nat)
    requires i < |Filter(rules, resource, action)|
    requires !Satisfied(Filter(rules, resource, action)[i], user, res)
    ensures !Allowed(rules, resource, action, user, res)
  {
    AllowedIffFilteredSatisfied(rules, resource, action, user, res);
  }

  lemma AllFilteredSatisfiedAllows(rules: seq<RuleValue>, resource: string, action: string, user: Attrs, res: Attrs)
    requires var m := Filter(rules, resource, action);
      |m| > 0 && forall j :: 0 <= j < |m| ==> Satisfied(m[j], user, res)
    ensures Allowed(rules, resource, action, user, res)
  {
    AllowedIffFilteredSatisfied(rules, resource, action, user, res);
  }

  /** Default deny: with no rule matching, the request is refused. */
  lemma DefaultDeny(rules: seq<RuleValue>, resource: string, action: string, user: Attrs, res: Attrs)
    requires forall i :: 0 <= i < |rules| ==> !rules[i].Matches(resource, action)
    ensures !Allowed(rules, resource, action, user, res)
  {
  }

  /** A matching rule whose effect is not allow forces a denial, whether or
      not its conditions hold: a deny rule always wins. */
  lemma MatchingDenyRuleDenies(rules: seq<RuleValue>, i: nat, resource: string, action: string, user: Attrs, res: Attrs)
    requires i < |rules| && rules[i].Matches(resource, action) && rules[i].effect != Allow
    ensures !Allowed(rules, resource, action, user, res)
  {
  }

  /** One matching rule whose role or owner check fails denies the request,
      even when other matching rules allow it. */
  lemma UnsatisfiedMatchingRuleDenies(rules: seq<RuleValue>, i: nat, resource: string, action: string, user: Attrs, res: Attrs)
    requires i < |rules| && rules[i].Matches(resource, action) && !Satisfied(rules[i], user, res)
    ensures !Allowed(rules, resource, action, user, res)
  {
  }

  /** Adding a rule never turns a denial into an allowance, unless no rule
      matched before. */
  lemma AddingRuleNeverWidens(rules: seq<RuleValue>, r: RuleValue, resource: string, action: string, user: Attrs, res: Attrs)
    requires exists i :: 0 <= i < |rules| && rules[i].Matches(resource, action)
    requires Allowed(rules + [r], resource, action, user, res)
    ensures Allowed(rules, resource, action, user, res)
  {
    var all := rules + [r];
    forall i | 0 <= i < |rules| && rules[i].Matches(resource, action)
      ensures Satisfied(rules[i], user, res)
    {
      assert all[i] == rules[i];
    }
  }

  /** The decision depends only on which rules are stored, not on their
      positions. */
  lemma {:induction false} AllowedByElements(rules: seq<RuleValue>, resource: string, action: string, user: Attrs, res: Attrs)
    ensures Allowed(rules, resource, action, user, res) <==>
              (exists r :: r in rules && r.Matches(resource, action))
              && (forall r :: r in rules && r.Matches(resource, action) ==> Satisfied(r, user, res))
  {
    if exists r :: r in rules && r.Matches(resource, action) {
      var r :| r in rules && r.Matches(resource, action);
      var i :| 0 <= i < |rules| && rules[i] == r;
      assert rules[i].Matches(resource, action);
    }
  }

  /** The order in which rules were added does not change the decision:
      any rearrangement of the stored rules decides every request alike. */
  lemma OrderIrrelevant(a: seq<RuleValue>, b: seq<RuleValue>, resource: string, action: string, user: Attrs, res: Attrs)
    requires multiset(a) == multiset(b)
    ensures Allowed(a, resource, action, user, res) == Allowed(b, resource, action, user, res)
  {
    AllowedByElements(a, resource, action, user, res);
    AllowedByElements(b, resource, action, user, res);
    assert forall r :: r in a <==> r in b by {
      forall r ensures r in a <==> r in b {
        assert r in a <==> r in multiset(a);
        assert r in b <==> r in multiset(b);
      }
    }
  }

  /** Condition keys other than the two interpreted ones have no effect. */
  lemma OtherConditionKeysIgnored(r: RuleValue, key: string, v: Value, user: Attrs, res: Attrs)
    requires key != UserRoleKey && key != ResourceOwnerKey
    ensures Satisfied(r.(conditions := r.conditions[key := v]), user, res) == Satisfied(r, user, res)
  {
  }

  /** The role check accepts the required role from either user attribute,
      but only in the exact shapes `[]string` and `string`: a generic list
      (what JSON decoding produces) holding the role does not count. */
  lemma RoleCheckExamples(role: string, other: string)
    requires role != other
    ensures RoleGranted(Some(map["roles" := VStrList([other, role])]), VStr(role))
    ensures RoleGranted(Some(map["role" := VStr(role)]), VStr(role))
    ensures !RoleGranted(Some(map["roles" := VStrList([other])]), VStr(role))
    ensures !RoleGranted(Some(map["role" := VStrList([role])]), VStr(role))
    ensures !RoleGranted(Some(map["roles" := VList([VStr(role)])]), VStr(role))
    ensures !RoleGranted(None, VStr(role))
  {
    assert VStrList([other, role]).xs[1] == role;
  }

  /** The `Is*` helpers as written never recognise an error this library
      returns, because every one is a pointer: a rule or condition that
      fails its check, and a nil context. */
  lemma KindHelpersMissLibraryErrors(r: RuleValue, c: Condition)
    ensures r.Validate().Some? ==> !IsInvalidRuleError(r.Validate().value)
    ensures ValidateCondition(c).Some? ==> !IsInvalidConditionError(ValidateCondition(c).value)
    ensures !IsInvalidContextError(ContextRequired)
    ensures var empty := RuleValue("", "", "", map[]);
      empty.Validate().Some? && !IsInvalidRuleError(empty.Validate().value)
  {
  }

  /** The kind checks the helpers evidently intend recognise every error
      this library returns, and agree with its code. */
  lemma LibraryErrorsRecognised(r: RuleValue, c: Condition)
    ensures r.Validate().Some? ==>
              IsInvalidRuleKind(r.Validate().value) && r.Validate().value.inner.Code() == ErrCodeInvalidRule
    ensures ValidateCondition(c).Some? ==>
              IsInvalidConditionKind(ValidateCondition(c).value)
              && ValidateCondition(c).value.inner.Code() == ErrCodeInvalidCondition
    ensures IsInvalidContextKind(ContextRequired) && ContextRequired.inner.Code() == ErrCodeInvalidContext
  {
  }
}
