# securityrules — a verified model of the rule engine

This project models the access-control decision engine of the Go package
`securityrules` in Dafny. It covers these parts:

- the rule (`rule.go`): its chained builder setters, the `"*"`-wildcard
  `matches` predicate, and the structural `validate` check;
- the engine (`engine.go`): an insertion-ordered rule list. `AddRule`
  validates and then appends. `IsAllowed` rejects a nil context, filters the
  matching rules, and requires every one of them to evaluate to true. The
  evaluation dispatches on the condition keys `"userRole"` and
  `"resourceOwner"`;
- the context (`context.go`): three attribute maps, each replaced wholesale
  and each possibly nil;
- the condition record (`types.go`): its validation, and its JSON encoding
  and decoding with the list-then-string-then-generic order for `value`;
- the error taxonomy (`errors.go`): four kinds, codes with defaults, and
  message texts.

Files, one Dafny module each:

- `values.dfy` (`Values`): `interface{}` as a closed datatype `Value`, and
  nil-able attribute maps `Attrs = Option<map<string, Value>>`.
- `errors.dfy` (`Errors`).
- `types.dfy` (`Types`): the enumerated tags, `Condition`, and JSON
  modelled as a tree `Json`.
- `rule.dfy` (`Rules`): the builder class `Rule`, and `RuleValue`, the
  struct value the engine copies.
- `context.dfy` (`Contexts`).
- `engine.dfy` (`Engines`).

The decision is specified by `Engines.Allowed`: some stored rule matches,
and every matching rule is `Satisfied`. A rule is satisfied when its role
check holds if it has one, its owner check holds if it has one, and its
effect is `allow`. `IsAllowed` is proved equal to `Allowed`, and the
properties are proved about `Allowed`. Examples: default deny, a matching
deny rule always denies, adding a rule never widens a decision, and rule
order is irrelevant.

Go runtime panics are preconditions. They are not error results:

- `requiredRole.(string)` is asserted only when a role is there to compare
  (`RoleSafe`);
- `==` on two interface values panics only when both hold the same slice or
  map type (`OwnerSafe`, `Values.Comparable`);
- a nil `*Rule` passed to `AddRule` is ruled out by Dafny's non-null class
  type.

`IsAllowed` demands safety only for the rules the left-to-right evaluation
actually reaches (`SafeUntilDenied`). Within one rule, every interpreted
condition must be safe, because Go visits map keys in an unspecified order.
`EvaluateRule` models that order by picking any remaining key.

Where the library's documentation and tests describe more than the code
does, the model follows the code:

- The tests and `doc.go` use `WithStructuredCondition`, `WithID`, an
  evaluator registry and exported rule fields. None of them exist in the
  code, so there is no registry here. Conditions are dispatched by key.
- `validate` does not check the conditions.
- A missing role attribute makes the role check false, not an error.
- `IsAllowed` never returns an evaluation error.
- `doc.go` puts the user's roles in a `[]interface{}`. The role check only
  accepts a `[]string`, so that example would be denied
  (`Engines.RoleCheckExamples`).
- A nil rule passed to `AddRule` panics in the code. It does not return an
  invalid-rule error.

Errors are held either by value or through a pointer (`Errors.ErrorValue`).
The `New*` constructors build values, but every check in the library
returns a pointer. Go's `Is*` helpers assert the value type, so they never
recognise those errors (see Findings).

Decoding a condition's `value` tries `[]string` first. A JSON null element
decodes into a string as "", so `["a", null]` becomes a string list. A null
`value` becomes a nil `[]string`, which is a non-nil interface value: a
condition whose value was nil passes `ValidateCondition` after encoding and
decoding (`Types.NilValueComesBackNonNil`).

## Model

| member | source | states |
|---|---|---|
| `Errors.SecurityError.Code` | errors.go:29-34 | The code is never empty. It is the explicit code when one is set, else the kind's default. The same holds for the other three kinds (errors.go:54-59, 83-88, 121-126). |
| `Errors.SecurityError.Error` | errors.go:25-27 | Every text starts with its kind's fixed words (`invalid rule: `, `invalid context: `, `invalid condition`, `evaluation error`) and ends with the message. |
| `Errors.ConditionTextNamesField` | errors.go:76-81 | An invalid-condition text has the form "in field '<f>'" exactly when the field is non-empty, and names the field right after those words. |
| `Errors.EvaluationTextNamesRule` | errors.go:114-119 | An evaluation-error text names the rule exactly when the rule id is non-empty. |
| `Errors.ErrorTextDistinguishesKinds` | errors.go:25-119 | Errors of different kinds never produce the same text. |
| `Errors.DefaultCodesDistinct` | errors.go:7-10 | The four default codes are pairwise distinct. |
| `Errors.CodeIdentifiesKind` | errors.go:29-34 | For errors with no code or their default code, held by value or by pointer, `Code()` equals a kind's default code exactly when the error is of that kind. Two such errors have equal codes exactly when they are of one kind. |
| `Errors.ErrorTextExamples` | errors_test.go:7-22 | A code-less invalid-rule error with message "test error" prints "invalid rule: test error", and an invalid-context one prints "invalid context: test error". |
| `Errors.IsInvalidRuleError` | errors.go:146-149 | Holds exactly when the error is an invalid-rule struct held by value; a pointer to one is not recognised. |
| `Errors.IsInvalidContextError` | errors.go:152-155 | Holds exactly when the error is an invalid-context struct held by value. |
| `Errors.IsInvalidConditionError` | errors.go:158-161 | Holds exactly when the error is an invalid-condition struct held by value. |
| `Errors.IsEvaluationError` | errors.go:164-167 | Holds exactly when the error is an evaluation struct held by value. |
| `Errors.NewInvalidRuleError` | errors.go:37-42 | Builds an invalid-rule error with the message and the explicit default code. |
| `Errors.NewInvalidContextError` | errors.go:62-67 | Builds an invalid-context error with the message and the explicit default code. |
| `Errors.NewInvalidConditionError` | errors.go:91-96 | Builds an invalid-condition error with no field and the explicit default code. |
| `Errors.NewInvalidConditionFieldError` | errors.go:99-105 | Builds an invalid-condition error that carries the field and the explicit default code. |
| `Errors.NewEvaluationError` | errors.go:129-134 | Builds an evaluation error with no rule id and the explicit default code. |
| `Errors.NewRuleEvaluationError` | errors.go:137-143 | Builds an evaluation error that carries the rule id and the explicit default code. |
| `Types.ValidateCondition` | types.go:142-153 | Succeeds iff type and operation are non-empty and the value is not nil. Otherwise it returns a pointer to a code-less invalid-condition error (so its code is INVALID_CONDITION) for the first missing item, in the order type, operation, value. |
| `Types.MarshalCondition` | types.go:86-97 | The encoding is an object with exactly the keys type, operation, value and message. Type and operation are written as their string tags, and the message is copied. |
| `Types.AsStringList` | types.go:117-122 | The first decoding attempt succeeds exactly on null (giving a nil slice) and on an array whose elements are strings or nulls. It yields the strings in order, with "" for each null. |
| `Types.DecodeValue` | types.go:117-138 | The value decodes as a string list if that attempt succeeds. Otherwise it decodes as a string if it is one. Otherwise it decodes generically. |
| `Types.ReadString` | types.go:100-115 | A string field reads as "" when absent or null, and as its text when a string. Any other JSON value is a decoding error. |
| `Types.UnmarshalCondition` | types.go:100-139 | Succeeds exactly on an object that has a value and whose type, operation and message are strings, null or absent. On success the value is decoded in priority order. A missing value is reported as such, and type, operation and message are assigned anyway. A non-object, or a non-string field, leaves the receiver unchanged. A null document empties the three string fields. |
| `Types.GenericRoundTrip` | types.go:131-136 | Generic decoding inverts encoding on every shape it produces (nested lists and maps included). |
| `Types.ValueRoundTrip` | types.go:117-138 | Encoding then decoding returns the original value for strings, string lists, bools, numbers of magnitude at most 2^53, and generic maps and lists. Lists holding only strings and nils are excluded. |
| `Types.ConditionRoundTrip` | rule_test.go:283-334 | Encoding a condition and decoding it into any receiver gives back the same condition with no error, for every value that round-trips (string, string list and bool among them). |
| `Types.StringArrayDecodesAsList` | types.go:118-122 | A JSON array of strings always decodes as a string list, never as a generic value. |
| `Types.MixedArrayDecodesGenerically` | types.go:131-136 | An array holding anything other than strings and nulls decodes as a generic list, with each null as nil. |
| `Types.NullElementsBecomeEmptyStrings` | types.go:118-122 | `[s, null]` decodes as the string list `[s, ""]`, so a generic list of a string and nil comes back as a string list. |
| `Types.NilValueComesBackNonNil` | types.go:118-122 | A nil value encodes as null and decodes as a nil `[]string` with no error. The original condition fails `ValidateCondition`, but the decoded one passes it. |
| `Types.IntComesBackAsNumber` | types.go:131-136 | A Go int of magnitude at most 2^53 does not round-trip: it comes back as a JSON number (`float64`) of the same value. |
| `Types.MissingValueKeepsTags` | types.go:113-135 | A document without a value gives an error, but the type, operation and message have already been stored in the receiver. |
| `Rules.RuleValue.Matches` | rule.go:67-70 | A rule matches its own resource and action, and a rule with both fields "*" matches everything. A failed match has a field that is neither "*" nor the requested value. |
| `Rules.RuleValue.Validate` | rule.go:53-64 | Succeeds iff resource and action are non-empty and the effect is allow or deny. Otherwise it returns a pointer to an invalid-rule error without an explicit code (so its code is INVALID_RULE). The first failure in the order resource, action, effect is the one reported. |
| `Rules.Rule.constructor` | rule.go:22-26 | A new rule has empty resource, action and effect, and an empty conditions map, so it fails validation. |
| `Rules.Rule.ForResource` | rule.go:29-32 | Sets the resource only and returns the same rule. |
| `Rules.Rule.WithAction` | rule.go:35-38 | Sets the action only and returns the same rule. |
| `Rules.Rule.WithEffect` | rule.go:41-44 | Sets the effect only and returns the same rule. |
| `Rules.Rule.WithCondition` | rule.go:47-50 | Inserts or overwrites one key, keeps every other key and its value, and returns the same rule. |
| `Rules.Rule.Snapshot` | engine.go:26 | The struct value `*rule` that `AddRule` copies: the four fields as they are now. |
| `Rules.WildcardResource` | rule.go:67-70 | With resource "*", a rule matches any resource, judged by its action alone. |
| `Rules.WildcardAction` | rule.go:67-70 | With action "*", a rule matches any action, judged by its resource alone. |
| `Rules.FullWildcardMatchesAll` | rule.go:68-69 | A rule with both fields "*" matches every request. |
| `Rules.LiteralMismatchExcludes` | rule.go:68-69 | A field that is neither "*" nor the requested value rules out the match. |
| `Rules.ConditionsAndEffectIrrelevant` | rule.go:53-70 | Matching ignores effect and conditions, and validation ignores conditions. |
| `Rules.MatchExamples` | rule_test.go:244-271 | The exact, wildcard-resource, wildcard-action and no-match cases of the tests. |
| `Rules.ValidationExamples` | rule_test.go:83-112 | The valid, missing-resource, missing-action and invalid-effect cases of the tests. |
| `Contexts.Context.constructor` | context.go:11-17 | A new context has three empty, non-nil maps. |
| `Contexts.Context.WithUser` | context.go:20-24 | Replaces the user map, possibly with nil, and leaves the other two. `User()` then returns the new map. Returns the same context. |
| `Contexts.Context.WithResource` | context.go:26-30 | Replaces the resource map and leaves the other two. `Resource()` then returns the new map. Returns the same context. |
| `Contexts.Context.WithEnvironment` | context.go:32-36 | Replaces the environment map and leaves the other two. `Environment()` then returns the new map. Returns the same context. |
| `Contexts.Context.User` | context.go:38-40 | Returns the stored user map, nil included. What it returns after each setter is stated by the setters' contracts. |
| `Contexts.Context.Resource` | context.go:43-45 | Returns the stored resource map, nil included. |
| `Contexts.Context.Environment` | context.go:48-50 | Returns the stored environment map, nil included. |
| `Contexts.ContextSettersAndGetters` | context_test.go:8-69 | After chained setters, each getter returns exactly what its setter stored, nil included. |
| `Engines.Engine.constructor` | engine.go:12-16 | A new engine holds no rules. |
| `Engines.Engine.AddRule` | engine.go:19-28 | Returns the `validate` result. On success it appends a copy of the rule at the end. On failure the rule list is unchanged. The stored rules stay valid. |
| `Values.Lookup` | engine.go:109-110 | Indexing an attribute map finds a key exactly when the map is non-nil and holds it, and then gives its value. A nil map reads as empty. |
| `Engines.Engine.IsAllowed` | engine.go:31-55 | A nil context gives false and a pointer to a code-less invalid-context error, whatever the rules. Otherwise there is no error, and the result is true iff some rule matches and every matching rule evaluates to true. |
| `Engines.Engine.FindMatchingRules` | engine.go:58-66 | Returns the stored rules filtered by `matches`, in stored order: exactly the stored rules that match. |
| `Engines.Engine.EvaluateRule` | engine.go:69-85 | For any order of visiting the keys, the result is true iff the role check holds (when "userRole" is present), the owner check holds (when "resourceOwner" is present), and the effect is allow. |
| `Engines.Engine.MatchUserRole` | engine.go:88-105 | True iff the user's "roles" is a string list containing the required role, or the user's "role" is that string. Missing or other-shaped attributes give false. |
| `Engines.Engine.MatchResourceOwner` | engine.go:108-112 | True iff user "id" and resource "owner" are both present and equal. |
| `Engines.Filter` | engine.go:58-66 | Every rule the filter keeps matches the request, and it keeps no more rules than were stored. |
| `Engines.FilterMembership` | engine.go:58-66 | A rule is kept iff it is stored and matches. |
| `Engines.FilterAppend` | engine.go:60-64 | Filtering distributes over concatenation, so stored order is kept. |
| `Engines.AllowedIffFilteredSatisfied` | engine.go:39-54 | The decision is allowed iff the filtered list is non-empty and every rule in it evaluates to true. |
| `Engines.DefaultDeny` | engine.go:39-42 | With no matching rule (an empty engine included), the request is denied. |
| `Engines.MatchingDenyRuleDenies` | engine.go:84 | A matching rule whose effect is not allow denies the request, whether or not its conditions hold. |
| `Engines.UnsatisfiedMatchingRuleDenies` | engine.go:44-52 | One matching rule that evaluates to false denies the request, whatever the other rules say. |
| `Engines.AddingRuleNeverWidens` | engine.go:39-54 | If some rule already matched, adding a rule cannot turn a denial into an allowance. |
| `Engines.AllowedByElements` | engine.go:39-54 | The decision depends only on which rules are stored: some stored rule matches, and every stored rule that matches evaluates to true. |
| `Engines.OrderIrrelevant` | engine.go:39-54 | Any two rule lists with the same elements (one a rearrangement of the other) give the same decision, so the order in which rules were added does not matter. |
| `Engines.OtherConditionKeysIgnored` | engine.go:70-82 | Condition keys other than "userRole" and "resourceOwner" do not affect evaluation. |
| `Engines.RoleCheckExamples` | engine.go:88-105 | The role is accepted from a `[]string` "roles" or a string "role", but not from a generic list, another shape, or a nil map. |
| `Engines.KindHelpersMissLibraryErrors` | errors.go:146-167 | The `Is*` helpers as written reject every error the library returns: a failed rule check, a failed condition check, and the nil-context error. |
| `Engines.LibraryErrorsRecognised` | errors.go:146-167 | The intended kind checks accept every error the library returns, and each agrees with the error's code. |

## Left out

- The `sync.RWMutex` of `Engine` is left out. The model is sequential.
- `AddRule`: Go copies the rule struct, but the copy shares its conditions
  map with the caller's rule. A later `WithCondition` on the caller's rule
  therefore changes the stored rule in Go. The model stores an independent
  value, so this aliasing is not captured.
- `WithUser`, `WithResource` and `WithEnvironment` store the caller's map
  itself, and the getters return that same map. In Go, a caller who later
  changes the map also changes the context. The model's attribute maps are
  values, so this aliasing is not captured.
- JSON is a parsed tree, not bytes. Left out: byte-level syntax, Go's
  case-insensitive field matching, duplicate keys, and non-integral numbers.
- `Types.EncodeValue`: a nil `[]string` and an empty one are both the empty
  string list here, and both encode as `[]`. Go encodes a nil slice as
  `null`.
- `Types.DecodeGeneric` keeps every JSON integer exactly. Go's `float64`
  rounds integers of magnitude above 2^53. `Types.ValueRoundTrip` and
  `Types.IntComesBackAsNumber` are therefore stated only within that range.
- `Types.UnmarshalCondition`: its error is one of three tags, not Go's
  error values with their texts.
- `Types.MarshalCondition` never fails. Go's marshal error arises only for
  value types that `Value` cannot hold.
- The evaluator registry, `RegisterConditionEvaluator`,
  `WithStructuredCondition`, `WithID` and the rule metadata fields are used
  by the tests and `doc.go` but do not exist in the code.
- `evaluateRule` returns an error that is always nil. The model returns
  only the boolean.
- Go panics are preconditions, not results. These are the role assertion,
  the comparison of uncomparable owner values, and a nil `*Rule`.
- A condition value holding a `Condition` struct, or any Go type outside
  `Value`, is not representable.

## Findings

| source | as written | input that shows it | evidently intended | confidence | as-written member | corrected member |
|---|---|---|---|---|---|---|
| errors.go:146-167 | `IsInvalidRuleError` and the other three helpers assert the struct value type, but `validate`, `ValidateCondition` and `IsAllowed` return pointers to the structs (rule.go:55, types.go:144, engine.go:33) | `IsInvalidRuleError(NewEngine().AddRule(NewRule()))` is false, although the error is an invalid-rule error with code INVALID_RULE | each helper recognises its kind whether the struct is held by value or through a pointer | high, not executed | `Engines.KindHelpersMissLibraryErrors` | `Engines.LibraryErrorsRecognised` |
