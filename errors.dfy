/**
 The library's error taxonomy: four error kinds, each with a machine-readable
 code that falls back to the kind's default and a human-readable text.
 */
module Errors {

  const ErrCodeInvalidRule: string := "INVALID_RULE"
  const ErrCodeInvalidContext: string := "INVALID_CONTEXT"
  const ErrCodeInvalidCondition: string := "INVALID_CONDITION"
  const ErrCodeEvaluation: string := "EVALUATION_ERROR"

  /** One constructor per Go error struct; `errorCode` may be left empty. */
  datatype SecurityError =
    | InvalidRule(errorCode: string, message: string)
    | InvalidContext(errorCode: string, message: string)
    | InvalidCondition(errorCode: string, message: string, field: string)
    | Evaluation(errorCode: string, message: string, ruleId: string)
  {
    /** The code a kind reports when its `errorCode` is empty. */
    function DefaultCode(): string {
      match this
      case InvalidRule(_, _) => ErrCodeInvalidRule
      case InvalidContext(_, _) => ErrCodeInvalidContext
      case InvalidCondition(_, _, _) => ErrCodeInvalidCondition
      case Evaluation(_, _, _) => ErrCodeEvaluation
    }

    /** The fixed text every `Error()` string of this kind begins with. */
    function KindPrefix(): string {
      match this
      case InvalidRule(_, _) => "invalid rule: "
      case InvalidContext(_, _) => "invalid context: "
      case InvalidCondition(_, _, _) => "invalid condition"
      case Evaluation(_, _, _) => "evaluation error"
    }

    /** `Code()`: the explicit code when there is one, else the kind's default;
        never empty. */
    function Code(): (c: string)
      ensures c != ""
      ensures errorCode != "" ==> c == errorCode
      ensures errorCode == "" ==> c == DefaultCode()
    {
      if errorCode == "" then DefaultCode() else errorCode
    }

    /** `Error()`: the kind's prefix, then the optional field or rule id,
        and the message last. */
    function Error(): (s: string)
      ensures KindPrefix() <= s
      ensures |message| <= |s| && s[|s| - |message|..] == message
    {
      match this
      case InvalidRule(_, m) => Join("invalid rule: ", m)
      case InvalidContext(_, m) => Join("invalid context: ", m)
      case InvalidCondition(_, m, f) =>
        if f != "" then Join("invalid condition in field '" + f + "': ", m)
        else Join("invalid condition: ", m)
      case Evaluation(_, m, id) =>
        if id != "" then Join("evaluation error for rule '" + id + "': ", m)
        else Join("evaluation error: ", m)
    }
  }

  /** Concatenation with its two parts stated as prefix and suffix. */
  function Join(head: string, tail: string): (s: string)
    ensures |s| == |head| + |tail|
    ensures head <= s && s[|head|..] == tail
  {
    head + tail
  }

  function NewInvalidRuleError(message: string): (e: SecurityError)
    ensures e.InvalidRule? && e.message == message
    ensures e.errorCode == e.Code() == ErrCodeInvalidRule
  {
    InvalidRule(ErrCodeInvalidRule, message)
  }

  function NewInvalidContextError(message: string): (e: SecurityError)
    ensures e.InvalidContext? && e.message == message
    ensures e.errorCode == e.Code() == ErrCodeInvalidContext
  {
    InvalidContext(ErrCodeInvalidContext, message)
  }

  function NewInvalidConditionError(message: string): (e: SecurityError)
    ensures e.InvalidCondition? && e.message == message && e.field == ""
    ensures e.errorCode == e.Code() == ErrCodeInvalidCondition
  {
    InvalidCondition(ErrCodeInvalidCondition, message, "")
  }

  function NewInvalidConditionFieldError(field: string, message: string): (e: SecurityError)
    ensures e.InvalidCondition? && e.message == message && e.field == field
    ensures e.errorCode == e.Code() == ErrCodeInvalidCondition
  {
    InvalidCondition(ErrCodeInvalidCondition, message, field)
  }

  function NewEvaluationError(message: string): (e: SecurityError)
    ensures e.Evaluation? && e.message == message && e.ruleId == ""
    ensures e.errorCode == e.Code() == ErrCodeEvaluation
  {
    Evaluation(ErrCodeEvaluation, message, "")
  }

  function NewRuleEvaluationError(ruleId: string, message: string): (e: SecurityError)
    ensures e.Evaluation? && e.message == message && e.ruleId == ruleId
    ensures e.errorCode == e.Code() == ErrCodeEvaluation
  {
    Evaluation(ErrCodeEvaluation, message, ruleId)
  }

  /** A Go `error` holding one of the error structs, either by value (as
      the `New*` constructors return them) or through a pointer (as every
      check in this library returns them: `&ErrInvalidRule{...}`). A pointer
      carries the struct's `Error()` and `Code()` unchanged. */
  datatype ErrorValue = ByValue(inner: SecurityError) | ByPointer(inner: SecurityError)

  /** `IsInvalidRuleError` and its three siblings, as written: a type
      assertion to the struct type, which a pointer to the struct fails. */
  predicate IsInvalidRuleError(err: ErrorValue)
    ensures IsInvalidRuleError(err) <==> err.ByValue? && IsInvalidRuleKind(err)
  {
    err.ByValue? && err.inner.InvalidRule?
  }

  predicate IsInvalidContextError(err: ErrorValue)
    ensures IsInvalidContextError(err) <==> err.ByValue? && IsInvalidContextKind(err)
  {
    err.ByValue? && err.inner.InvalidContext?
  }

  predicate IsInvalidConditionError(err: ErrorValue)
    ensures IsInvalidConditionError(err) <==> err.ByValue? && IsInvalidConditionKind(err)
  {
    err.ByValue? && err.inner.InvalidCondition?
  }

  predicate IsEvaluationError(err: ErrorValue)
    ensures IsEvaluationError(err) <==> err.ByValue? && IsEvaluationKind(err)
  {
    err.ByValue? && err.inner.Evaluation?
  }

  /** The kind tests the helpers evidently intend: the struct's kind,
      whether it is held by value or through a pointer. */
  predicate IsInvalidRuleKind(err: ErrorValue) { err.inner.InvalidRule? }
  predicate IsInvalidContextKind(err: ErrorValue) { err.inner.InvalidContext? }
  predicate IsInvalidConditionKind(err: ErrorValue) { err.inner.InvalidCondition? }
  predicate IsEvaluationKind(err: ErrorValue) { err.inner.Evaluation? }

  /** The four default codes are pairwise distinct. */
  lemma DefaultCodesDistinct()
    ensures ErrCodeInvalidRule != ErrCodeInvalidContext
    ensures ErrCodeInvalidRule != ErrCodeInvalidCondition
    ensures ErrCodeInvalidRule != ErrCodeEvaluation
    ensures ErrCodeInvalidContext != ErrCodeInvalidCondition
    ensures ErrCodeInvalidContext != ErrCodeEvaluation
    ensures ErrCodeInvalidCondition != ErrCodeEvaluation
  {
    assert ErrCodeInvalidRule[8] != ErrCodeInvalidContext[8];
    assert ErrCodeInvalidRule[8] != ErrCodeInvalidCondition[8];
    assert ErrCodeInvalidRule[0] != ErrCodeEvaluation[0];
    assert ErrCodeInvalidContext[11] != ErrCodeInvalidCondition[11];
    assert ErrCodeInvalidContext[0] != ErrCodeEvaluation[0];
    assert ErrCodeInvalidCondition[0] != ErrCodeEvaluation[0];
  }

  /** An error that carries no code of its own, or its kind's default code
      (as every error this library builds does), can be told apart from an
      error of another kind by `Code()` alone, held by value or by pointer. */
  lemma CodeIdentifiesKind(a: ErrorValue, b: ErrorValue)
    requires a.inner.errorCode == "" || a.inner.errorCode == a.inner.DefaultCode()
    requires b.inner.errorCode == "" || b.inner.errorCode == b.inner.DefaultCode()
    ensures a.inner.Code() == b.inner.Code() <==> a.inner.DefaultCode() == b.inner.DefaultCode()
    ensures a.inner.Code() == ErrCodeInvalidRule <==> IsInvalidRuleKind(a)
    ensures a.inner.Code() == ErrCodeInvalidContext <==> IsInvalidContextKind(a)
    ensures a.inner.Code() == ErrCodeInvalidCondition <==> IsInvalidConditionKind(a)
    ensures a.inner.Code() == ErrCodeEvaluation <==> IsEvaluationKind(a)
  {
    DefaultCodesDistinct();
  }

  /** The texts of the error tests: a code-less struct prints its kind's
      words followed by the message. */
  lemma ErrorTextExamples()
    ensures InvalidRule("", "test error").Error() == "invalid rule: test error"
    ensures InvalidContext("", "test error").Error() == "invalid context: test error"
  {
  }

  /** An invalid-condition text names the offending field exactly when one
      is set, right after the fixed words that introduce it. */
  lemma ConditionTextNamesField(e: SecurityError)
    requires e.InvalidCondition?
    ensures e.field != "" <==> "invalid condition in field '" <= e.Error()
    ensures e.field != "" ==> 28 + |e.field| <= |e.Error()| && e.Error()[28..28 + |e.field|] == e.field
  {
    var intro := "invalid condition in field '";
    if e.field == "" {
      assert e.Error()[17] != intro[17];
    } else {
      assert e.Error()[..|intro + e.field|] == intro + e.field;
    }
  }

  /** An evaluation-error text names the rule exactly when a rule id is set. */
  lemma EvaluationTextNamesRule(e: SecurityError)
    requires e.Evaluation?
    ensures e.ruleId != "" <==> "evaluation error for rule '" <= e.Error()
    ensures e.ruleId != "" ==> 27 + |e.ruleId| <= |e.Error()| && e.Error()[27..27 + |e.ruleId|] == e.ruleId
  {
    var intro := "evaluation error for rule '";
    if e.ruleId == "" {
      assert e.Error()[16] != intro[16];
    } else {
      assert e.Error()[..|intro + e.ruleId|] == intro + e.ruleId;
    }
  }

  /** Two prefixes that differ at a common position make their extensions differ. */
  lemma PrefixesClash(p: string, q: string, s: string, t: string, i: nat)
    requires p <= s && q <= t
    requires i < |p| && i < |q| && p[i] != q[i]
    ensures s != t
  {
    assert s[i] == p[i] && t[i] == q[i];
  }

  /** The fixed words of two different kinds differ at a position both have. */
  lemma KindPrefixesDiffer(a: SecurityError, b: SecurityError) returns (i: nat)
    requires a.DefaultCode() != b.DefaultCode()
    ensures i < |a.KindPrefix()| && i < |b.KindPrefix()| && a.KindPrefix()[i] != b.KindPrefix()[i]
  {
    i := if a.Evaluation? || b.Evaluation? then 0 else if a.InvalidRule? || b.InvalidRule? then 9 else 11;
  }

  /** The text of an error names its kind unambiguously: errors of different
      kinds never produce the same `Error()` string. */
  lemma ErrorTextDistinguishesKinds(a: SecurityError, b: SecurityError)
    requires a.DefaultCode() != b.DefaultCode()
    ensures a.Error() != b.Error()
  {
    var i := KindPrefixesDiffer(a, b);
    PrefixesClash(a.KindPrefix(), b.KindPrefix(), a.Error(), b.Error(), i);
  }
}
