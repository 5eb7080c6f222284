/**
 Rules: a resource/action pattern with "*" as a per-field wildcard, an
 effect, and a map of named conditions. `Rule` is the builder object the
 caller mutates; `RuleValue` is the struct value the engine copies and keeps.
 */
module Rules {
  import opened Values
  import opened Errors
  import opened Types

  const Wildcard: string := "*"

  datatype RuleValue = RuleValue(
    resource: string,
    action: string,
    effect: Effect,
    conditions: map<string, Value>)
  {
    /** `matches`: each field equals the request or is the wildcard. A rule
        matches its own resource and action, and a rule wildcarded in both
        fields matches everything; a failed match has a literal field. */
    function Matches(resource: string, action: string): (m: bool)
      ensures this.resource == resource && this.action == action ==> m
      ensures this.resource == Wildcard && this.action == Wildcard ==> m
      ensures !m ==> (this.resource != Wildcard && this.resource != resource)
                     || (this.action != Wildcard && this.action != action)
    {
      (this.resource == resource || this.resource == Wildcard)
      && (this.action == action || this.action == Wildcard)
    }

    /** `validate`: resource, then action, then effect; the first failure
        is reported as an invalid-rule error without an explicit code.
        Conditions are not inspected. */
    function Validate(): (r: Option<ErrorValue>)
      ensures r.None? <==> resource != "" && action != "" && (effect == Allow || effect == Deny)
      ensures r.Some? ==> r.value.ByPointer? && r.value.inner.InvalidRule? && r.value.inner.errorCode == ""
                          && r.value.inner.Code() == ErrCodeInvalidRule
      ensures resource == "" ==> r.value.inner.message == "resource is required"
      ensures resource != "" && action == "" ==> r.value.inner.message == "action is required"
      ensures (resource != "" && action != "" && effect != Allow && effect != Deny) ==>
                r.value.inner.message == "effect must be either allow or deny"
    {
      if resource == "" then Some(ByPointer(InvalidRule("", "resource is required")))
      else if action == "" then Some(ByPointer(InvalidRule("", "action is required")))
      else if effect != Allow && effect != Deny then
        Some(ByPointer(InvalidRule("", "effect must be either allow or deny")))
      else None
    }
  }

  /** The `*Rule` a caller assembles with the chained setters. */
  class Rule {
    var resource: string
    var action: string
    var effect: Effect
    var conditions: map<string, Value>

    /** `NewRule`: empty fields and an empty (non-nil) conditions map. */
    constructor ()
      ensures resource == "" && action == "" && effect == "" && conditions == map[]
      ensures Snapshot().Validate().Some?
    {
      resource, action, effect, conditions := "", "", "", map[];
    }

    /** The struct value `*rule` that a dereference copies. */
    function Snapshot(): RuleValue
      reads this
    {
      RuleValue(resource, action, effect, conditions)
    }

    method ForResource(resource: string) returns (self: Rule)
      modifies this
      ensures self == this
      ensures this.resource == resource
      ensures action == old(action) && effect == old(effect) && conditions == old(conditions)
    {
      this.resource := resource;
      self := this;
    }

    method WithAction(action: string) returns (self: Rule)
      modifies this
      ensures self == this
      ensures this.action == action
      ensures resource == old(resource) && effect == old(effect) && conditions == old(conditions)
    {
      this.action := action;
      self := this;
    }

    method WithEffect(effect: Effect) returns (self: Rule)
      modifies this
      ensures self == this
      ensures this.effect == effect
      ensures resource == old(resource) && action == old(action) && conditions == old(conditions)
    {
      this.effect := effect;
      self := this;
    }

    /** Inserts or overwrites one key; every other key keeps its value. */
    method WithCondition(key: string, value: Value) returns (self: Rule)
      modifies this
      ensures self == this
      ensures key in conditions && conditions[key] == value
      ensures conditions.Keys == old(conditions).Keys + {key}
      ensures forall k :: k in old(conditions) && k != key ==> conditions[k] == old(conditions)[k]
      ensures resource == old(resource) && action == old(action) && effect == old(effect)
    {
      conditions := conditions[key := value];
      self := this;
    }
  }

  // ------------------------------------------------------------ properties

  /** The wildcard applies to each field on its own: a rule whose resource
      is "*" matches any resource, judged by its action alone. */
  lemma WildcardResource(r: RuleValue, resource: string, action: string)
    requires r.resource == Wildcard
    ensures r.Matches(resource, action) <==> r.action == action || r.action == Wildcard
  {
  }

  /** A rule whose action is "*" matches any action, judged by its resource alone. */
  lemma WildcardAction(r: RuleValue, resource: string, action: string)
    requires r.action == Wildcard
    ensures r.Matches(resource, action) <==> r.resource == resource || r.resource == Wildcard
  {
  }

  /** A rule wildcarded in both fields matches every request. */
  lemma FullWildcardMatchesAll(r: RuleValue)
    requires r.resource == Wildcard && r.action == Wildcard
    ensures forall resource, action :: r.Matches(resource, action)
  {
  }

  /** A field that is neither the wildcard nor the requested value rules the match out. */
  lemma LiteralMismatchExcludes(r: RuleValue, resource: string, action: string)
    requires (r.resource != Wildcard && r.resource != resource) || (r.action != Wildcard && r.action != action)
    ensures !r.Matches(resource, action)
  {
  }

  /** Matching looks at resource and action only, and so does validation. */
  lemma ConditionsAndEffectIrrelevant(r: RuleValue, effect: Effect, conditions: map<string, Value>, resource: string, action: string)
    ensures r.(effect := effect, conditions := conditions).Matches(resource, action) == r.Matches(resource, action)
    ensures r.(conditions := conditions).Validate() == r.Validate()
  {
  }

  /** The four matching cases of the rule tests. */
  lemma MatchExamples()
    ensures RuleValue("pods", "create", "", map[]).Matches("pods", "create")
    ensures RuleValue("*", "create", "", map[]).Matches("pods", "create")
    ensures RuleValue("pods", "*", "", map[]).Matches("pods", "delete")
    ensures !RuleValue("pods", "create", "", map[]).Matches("services", "delete")
  {
  }

  /** The four validation cases of the rule tests, built as the setters build them. */
  lemma ValidationExamples()
    ensures RuleValue("documents", "read", Allow, map[]).Validate().None?
    ensures RuleValue("", "read", Allow, map[]).Validate().Some?
    ensures RuleValue("documents", "", Allow, map[]).Validate().Some?
    ensures RuleValue("documents", "read", "invalid", map[]).Validate().Some?
  {
  }
}
