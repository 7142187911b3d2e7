/**
 The rule engine behind every model's `validate($data)`. A rule table maps a
 field name to an ordered list of rules; a rule is a named primitive or a
 closure over (field, value, record) that returns an error message or nothing.

 The engine itself lives in a trait that is not part of this model, so the
 primitives carry these stated semantics:
 - `sometimes` anywhere in a field's list skips the whole field when its key is
   absent from the record;
 - otherwise the rules run left to right on `$data[$field]` (null when absent)
   and the first rule that fails gives the field's only error;
 - `required` fails on null and on the empty string;
 - `numeric` fails on a non-blank value that is not number-like;
 - `min:N` / `max:N` bound the length of a non-empty string.
 Errors accumulate across fields: every field is evaluated.
 */
module Validation {
  import opened Values

  /** A closure from a rule table: `function ($field, $value, $data)`. */
  type Check = (string, Value, Record) -> Option<string>

  datatype Rule =
    | Required
    | Sometimes
    | Numeric
    | Min(n: nat)
    | Max(n: nat)
    | Custom(check: Check)

  /** `validationRules()`: field name to its ordered rule list. */
  type Rules = map<string, seq<Rule>>

  const RequiredMessage := "required"
  const NumericMessage := "numeric"
  const MinMessage := "min"
  const MaxMessage := "max"

  /** The error one rule reports for the value, if any. */
  function RuleError(field: string, value: Value, rule: Rule, rec: Record): Option<string>
  {
    match rule
    case Required => if Blank(value) then Some(RequiredMessage) else None
    case Sometimes => None
    case Numeric => if !Blank(value) && !NumberLike(value) then Some(NumericMessage) else None
    case Min(n) => if value.VStr? && value.s != "" && |value.s| < n then Some(MinMessage) else None
    case Max(n) => if value.VStr? && |value.s| > n then Some(MaxMessage) else None
    case Custom(check) => check(field, value, rec)
  }

  /** Runs the rules left to right and stops at the first error. */
  function RunChain(field: string, value: Value, chain: seq<Rule>, rec: Record): (r: Option<string>)
    ensures r.None? <==> forall k :: 0 <= k < |chain| ==> RuleError(field, value, chain[k], rec).None?
    ensures r.Some? ==> exists k :: 0 <= k < |chain| && RuleError(field, value, chain[k], rec) == r
                                    && forall j :: 0 <= j < k ==> RuleError(field, value, chain[j], rec).None?
    decreases |chain|
  {
    if |chain| == 0 then None
    else
      var first := RuleError(field, value, chain[0], rec);
      if first.Some? then first
      else
        var rest := RunChain(field, value, chain[1..], rec);
        assert forall k :: 1 <= k < |chain| ==> chain[k] == chain[1..][k - 1];
        rest
  }

  predicate HasSometimes(chain: seq<Rule>)
  {
    exists k :: 0 <= k < |chain| && chain[k].Sometimes?
  }

  /** The error reported for one field of the record, if any. */
  function FieldError(field: string, chain: seq<Rule>, rec: Record): Option<string>
  {
    if HasSometimes(chain) && field !in rec then None
    else RunChain(field, Get(rec, field), chain, rec)
  }

  /** A field that must be sent: its list opens with `required` and has no
      `sometimes`. */
  predicate Mandatory(chain: seq<Rule>)
  {
    |chain| > 0 && chain[0].Required? && !HasSometimes(chain)
  }

  /** `validate($data)`: the map from each failing field to its message; empty means valid. */
  function Validate(rules: Rules, rec: Record): (errs: map<string, string>)
    ensures errs.Keys <= rules.Keys
    ensures forall f :: f in rules && FieldError(f, rules[f], rec).Some? ==> f in errs
    ensures forall f :: f in errs ==> f in rules && FieldError(f, rules[f], rec) == Some(errs[f])
  {
    map f | f in rules && FieldError(f, rules[f], rec).Some? :: FieldError(f, rules[f], rec).value
  }

  /** A blank mandatory field always fails `required`, and a field with
      `sometimes` never errors unless it was sent. */
  lemma RequiredAndSometimes(rules: Rules, rec: Record)
    ensures forall f :: f in rules && Mandatory(rules[f]) && Blank(Get(rec, f)) ==>
                          f in Validate(rules, rec) && Validate(rules, rec)[f] == RequiredMessage
    ensures forall f :: f in rules && HasSometimes(rules[f]) && f !in rec ==> f !in Validate(rules, rec)
  {
  }

  /** A three-rule chain reports the first of its three rules' errors. */
  lemma RunChainOfThree(field: string, value: Value, chain: seq<Rule>, rec: Record)
    requires |chain| == 3
    ensures RunChain(field, value, chain, rec) ==
              var e0 := RuleError(field, value, chain[0], rec);
              var e1 := RuleError(field, value, chain[1], rec);
              var e2 := RuleError(field, value, chain[2], rec);
              if e0.Some? then e0 else if e1.Some? then e1 else e2
  {
    assert chain[1..][1..] == [chain[2]];
  }

  /** The shape `[sometimes, numeric, closure]`: an absent field is skipped, a
      non-number is rejected by `numeric`, and only a number-like or blank
      value reaches the closure. */
  lemma OptionalNumericField(field: string, chain: seq<Rule>, rec: Record)
    requires |chain| == 3 && chain[0].Sometimes? && chain[1].Numeric? && chain[2].Custom?
    ensures var v := Get(rec, field);
            FieldError(field, chain, rec) ==
              if field !in rec then None
              else if !Blank(v) && !NumberLike(v) then Some(NumericMessage)
              else chain[2].check(field, v, rec)
  {
    assert HasSometimes(chain);
    RunChainOfThree(field, Get(rec, field), chain, rec);
  }

  /** The shape `[required, numeric, closure]`: a blank value is rejected by
      `required`, a non-number by `numeric`, and the rest reaches the closure. */
  lemma RequiredNumericField(field: string, chain: seq<Rule>, rec: Record)
    requires |chain| == 3 && chain[0].Required? && chain[1].Numeric? && chain[2].Custom?
    ensures var v := Get(rec, field);
            FieldError(field, chain, rec) ==
              if Blank(v) then Some(RequiredMessage)
              else if !NumberLike(v) then Some(NumericMessage)
              else chain[2].check(field, v, rec)
  {
    assert !HasSometimes(chain);
    RunChainOfThree(field, Get(rec, field), chain, rec);
  }

  /** A chain whose closures ignore the rest of the record gives the same
      verdict on two records that agree on the field. */
  lemma {:induction false} RunChainLocal(field: string, value: Value, chain: seq<Rule>, a: Record, b: Record)
    requires forall k :: 0 <= k < |chain| && chain[k].Custom? ==>
               chain[k].check(field, value, a) == chain[k].check(field, value, b)
    ensures RunChain(field, value, chain, a) == RunChain(field, value, chain, b)
    decreases |chain|
  {
    if |chain| > 0 {
      assert RuleError(field, value, chain[0], a) == RuleError(field, value, chain[0], b);
      assert forall k :: 1 <= k < |chain| ==> chain[k] == chain[1..][k - 1];
      RunChainLocal(field, value, chain[1..], a, b);
    }
  }

  lemma FieldErrorLocal(field: string, chain: seq<Rule>, a: Record, b: Record)
    requires (field in a) == (field in b) && Get(a, field) == Get(b, field)
    requires forall k :: 0 <= k < |chain| && chain[k].Custom? ==>
               chain[k].check(field, Get(a, field), a) == chain[k].check(field, Get(a, field), b)
    ensures FieldError(field, chain, a) == FieldError(field, chain, b)
  {
    RunChainLocal(field, Get(a, field), chain, a, b);
  }
}
