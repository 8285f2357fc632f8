/**
 * The rule-driven object validators of src/utils/validation.ts:
 * `validateObject`, which checks every rule of three ordered lists (typeof
 * rules, string-regex rules, strict-equality rules) and stops at the first
 * rule that fails, and `validatePartialObject`, which rejects unknown keys
 * and lets the first rule whose property holds a string decide.
 *
 * Each validator is a method with the loops of the source, proved equal to a
 * function that states its result declaratively; the lemmas then state what
 * that result is in terms of the rules.
 */
module Validation {
  import opened JsValue

  /** `PropertyValidation.Typeof` */
  datatype TypeofRule = TypeofRule(
    propertyName: string, valueType: TypeName,
    allowNull: bool, allowUndefined: bool, error: Option<ErrorValue>)

  /** `PropertyValidation.StringRegex`; `regex` stands for `regex.test`. */
  datatype RegexRule = RegexRule(
    propertyName: string, regex: string -> bool,
    allowNull: bool, allowUndefined: bool, error: Option<ErrorValue>)

  /** `PropertyValidation.Equality` */
  datatype EqualityRule = EqualityRule(
    propertyName: string, exactValue: Value, error: Option<ErrorValue>)

  /** An optional rule list: absent behaves as empty. */
  function OrEmpty<R>(rules: Option<seq<R>>): (r: seq<R>)
    ensures rules.Some? ==> r == rules.value
    ensures rules.None? ==> r == []
  {
    if rules.Some? then rules.value else []
  }

  // ----- The three kinds of rule -----

  /** The values a typeof rule admits, as a table: `null` and `undefined`
      by their flag or by their own `typeof`, anything else by `typeof`. */
  predicate TypeofAdmits(v: Value, rule: TypeofRule) {
    match v
    case Null => rule.allowNull || rule.valueType == ObjectType
    case Undefined => rule.allowUndefined || rule.valueType == UndefinedType
    case _ => Typeof(v) == rule.valueType
  }

  /** The condition under which `validateObject` rejects a typeof rule. */
  function TypeofFails(props: map<string, Value>, rule: TypeofRule): (fails: bool)
    ensures fails <==> rule.propertyName !in props || !TypeofAdmits(props[rule.propertyName], rule)
  {
    var name := rule.propertyName;
    || name !in props
    || (var v := props[name];
        if rule.allowNull then
          if rule.allowUndefined then v != Null && v != Undefined && Typeof(v) != rule.valueType
          else v != Null && Typeof(v) != rule.valueType
        else if rule.allowUndefined then v != Undefined && Typeof(v) != rule.valueType
        else Typeof(v) != rule.valueType)
  }

  /** The condition under which `validateObject` rejects a regex rule. The
      string test comes first, so the null and undefined flags never matter. */
  function RegexFails(props: map<string, Value>, rule: RegexRule): (fails: bool)
    ensures fails <==> || rule.propertyName !in props
                       || !props[rule.propertyName].Str?
                       || !rule.regex(props[rule.propertyName].s)
  {
    var name := rule.propertyName;
    || name !in props
    || !IsString(props[name])
    || (var v := props[name];
        if rule.allowNull then
          if rule.allowUndefined then v != Null && v != Undefined && !rule.regex(v.s)
          else v != Null && !rule.regex(v.s)
        else if rule.allowUndefined then v != Undefined && !rule.regex(v.s)
        else !rule.regex(v.s))
  }

  /** The condition under which `validateObject` rejects an equality rule;
      against a primitive, `===` is plain equality of values. */
  function EqualityFails(props: map<string, Value>, rule: EqualityRule): (fails: bool)
    ensures !IsReference(rule.exactValue) ==>
      (fails <==> rule.propertyName !in props || props[rule.propertyName] != rule.exactValue)
  {
    var name := rule.propertyName;
    name !in props || !StrictEquals(props[name], rule.exactValue)
  }

  // ----- The checks of validateObject, in the order it makes them -----

  /** One rule, evaluated: whether it passes, and the error it carries. */
  datatype Check = Check(passes: bool, error: Option<ErrorValue>)

  function TypeofChecks(props: map<string, Value>, rules: seq<TypeofRule>): (checks: seq<Check>)
    ensures |checks| == |rules|
    ensures forall i :: 0 <= i < |rules| ==> checks[i] == Check(!TypeofFails(props, rules[i]), rules[i].error)
  {
    seq(|rules|, i requires 0 <= i < |rules| => Check(!TypeofFails(props, rules[i]), rules[i].error))
  }

  function RegexChecks(props: map<string, Value>, rules: seq<RegexRule>): (checks: seq<Check>)
    ensures |checks| == |rules|
    ensures forall i :: 0 <= i < |rules| ==> checks[i] == Check(!RegexFails(props, rules[i]), rules[i].error)
  {
    seq(|rules|, i requires 0 <= i < |rules| => Check(!RegexFails(props, rules[i]), rules[i].error))
  }

  function EqualityChecks(props: map<string, Value>, rules: seq<EqualityRule>): (checks: seq<Check>)
    ensures |checks| == |rules|
    ensures forall i :: 0 <= i < |rules| ==> checks[i] == Check(!EqualityFails(props, rules[i]), rules[i].error)
  {
    seq(|rules|, i requires 0 <= i < |rules| => Check(!EqualityFails(props, rules[i]), rules[i].error))
  }

  /** The position of the first failing check, or the length when all pass. */
  function FirstFailure(checks: seq<Check>): (i: nat)
    ensures i <= |checks|
    ensures forall j :: 0 <= j < i ==> checks[j].passes
    ensures i < |checks| ==> !checks[i].passes
  {
    if checks == [] then 0
    else if !checks[0].passes then 0
    else 1 + FirstFailure(checks[1..])
  }

  /** What a failing rule does: throw its error if it has one, else return false. */
  function Reject(error: Option<ErrorValue>): (o: Outcome)
    ensures o.Threw? <==> error.Some?
    ensures error.Some? ==> o == Threw(error.value)
    ensures error.None? ==> o == Returned(false)
  {
    if error.Some? then Threw(error.value) else Returned(false)
  }

  /** Running the checks in order: the first failing one decides. */
  function RunChecks(checks: seq<Check>): Outcome {
    var i := FirstFailure(checks);
    if i == |checks| then Returned(true) else Reject(checks[i].error)
  }

  /** The result of `validateObject`, stated without loops: false for
      anything but an object, else the checks of all typeof rules, then all
      regex rules, then all equality rules, run in that order. */
  function ValidateObjectResult(
    target: Value,
    typeofValidations: Option<seq<TypeofRule>>,
    regexValidations: Option<seq<RegexRule>>,
    equalityValidations: Option<seq<EqualityRule>>): (r: Outcome)
    ensures !IsObject(target) ==> r == Returned(false)
    ensures r.Threw? || r == Returned(true) ==> IsObject(target)
  {
    if !IsObject(target) then Returned(false)
    else
      var props := OwnProperties(target);
      RunChecks(
        TypeofChecks(props, OrEmpty(typeofValidations))
        + RegexChecks(props, OrEmpty(regexValidations))
        + EqualityChecks(props, OrEmpty(equalityValidations)))
  }

  lemma RunChecksAt(checks: seq<Check>, i: nat)
    requires i < |checks| && !checks[i].passes
    requires forall j :: 0 <= j < i ==> checks[j].passes
    ensures RunChecks(checks) == Reject(checks[i].error)
  {
  }

  /** Every check of a list passes. */
  predicate AllPass(checks: seq<Check>) {
    forall j :: 0 <= j < |checks| ==> checks[j].passes
  }

  /** The checks run true exactly when every one of them passes. */
  lemma RunChecksTrueIff(checks: seq<Check>)
    ensures RunChecks(checks) == Returned(true) <==> AllPass(checks)
  {
  }

  /** In three lists of checks run one after the other, a failure at `i` in
      the first list decides. */
  lemma RunChecksFirstList(a: seq<Check>, b: seq<Check>, c: seq<Check>, i: nat)
    requires i < |a| && !a[i].passes && forall j :: 0 <= j < i ==> a[j].passes
    ensures RunChecks(a + b + c) == Reject(a[i].error)
  {
    RunChecksAt(a + b + c, i);
  }

  /** Once the first list passes, a failure at `i` in the second decides. */
  lemma RunChecksSecondList(a: seq<Check>, b: seq<Check>, c: seq<Check>, i: nat)
    requires AllPass(a)
    requires i < |b| && !b[i].passes && forall j :: 0 <= j < i ==> b[j].passes
    ensures RunChecks(a + b + c) == Reject(b[i].error)
  {
    var all := a + b + c;
    assert forall j :: 0 <= j < |a| + i ==> all[j].passes by {
      forall j | 0 <= j < |a| + i ensures all[j].passes {
        if j < |a| { assert all[j] == a[j]; } else { assert all[j] == b[j - |a|]; }
      }
    }
    assert all[|a| + i] == b[i];
    RunChecksAt(all, |a| + i);
  }

  /** Once the first two lists pass, a failure at `i` in the third decides. */
  lemma RunChecksThirdList(a: seq<Check>, b: seq<Check>, c: seq<Check>, i: nat)
    requires AllPass(a) && AllPass(b)
    requires i < |c| && !c[i].passes && forall j :: 0 <= j < i ==> c[j].passes
    ensures RunChecks(a + b + c) == Reject(c[i].error)
  {
    var all := a + b + c;
    assert forall j :: 0 <= j < |a| + |b| + i ==> all[j].passes by {
      forall j | 0 <= j < |a| + |b| + i ensures all[j].passes {
        if j < |a| { assert all[j] == a[j]; }
        else if j < |a| + |b| { assert all[j] == b[j - |a|]; }
        else { assert all[j] == c[j - |a| - |b|]; }
      }
    }
    assert all[|a| + |b| + i] == c[i];
    RunChecksAt(all, |a| + |b| + i);
  }

  /** Three lists run one after the other pass exactly when each passes. */
  lemma AllPassOfThree(a: seq<Check>, b: seq<Check>, c: seq<Check>)
    ensures AllPass(a + b + c) <==> AllPass(a) && AllPass(b) && AllPass(c)
  {
    var all := a + b + c;
    if AllPass(all) {
      forall j | 0 <= j < |a| ensures a[j].passes { assert all[j] == a[j]; }
      forall j | 0 <= j < |b| ensures b[j].passes { assert all[|a| + j] == b[j]; }
      forall j | 0 <= j < |c| ensures c[j].passes { assert all[|a| + |b| + j] == c[j]; }
    }
    if AllPass(a) && AllPass(b) && AllPass(c) {
      forall j | 0 <= j < |all| ensures all[j].passes {
        if j < |a| { assert all[j] == a[j]; }
        else if j < |a| + |b| { assert all[j] == b[j - |a|]; }
        else { assert all[j] == c[j - |a| - |b|]; }
      }
    }
  }

  /** `validateObject`. */
  method ValidateObject(
    target: Value,
    typeofValidations: Option<seq<TypeofRule>>,
    regexValidations: Option<seq<RegexRule>>,
    equalityValidations: Option<seq<EqualityRule>>)
    returns (outcome: Outcome)
    ensures outcome == ValidateObjectResult(target, typeofValidations, regexValidations, equalityValidations)
    ensures !IsObject(target) ==> outcome == Returned(false)
  {
    if !IsObject(target) {
      return Returned(false);
    }
    var props := OwnProperties(target);
    ghost var typeofChecks := TypeofChecks(props, OrEmpty(typeofValidations));
    ghost var regexChecks := RegexChecks(props, OrEmpty(regexValidations));
    ghost var equalityChecks := EqualityChecks(props, OrEmpty(equalityValidations));
    if typeofValidations.Some? && |typeofValidations.value| > 0 {
      var rules := typeofValidations.value;
      for i := 0 to |rules|
        invariant forall j :: 0 <= j < i ==> typeofChecks[j].passes
      {
        if TypeofFails(props, rules[i]) {
          RunChecksFirstList(typeofChecks, regexChecks, equalityChecks, i);
          return Reject(rules[i].error);
        }
      }
    }
    assert AllPass(typeofChecks);
    if regexValidations.Some? && |regexValidations.value| > 0 {
      var rules := regexValidations.value;
      for i := 0 to |rules|
        invariant forall j :: 0 <= j < i ==> regexChecks[j].passes
      {
        if RegexFails(props, rules[i]) {
          RunChecksSecondList(typeofChecks, regexChecks, equalityChecks, i);
          return Reject(rules[i].error);
        }
      }
    }
    assert AllPass(regexChecks);
    if equalityValidations.Some? && |equalityValidations.value| > 0 {
      var rules := equalityValidations.value;
      for i := 0 to |rules|
        invariant forall j :: 0 <= j < i ==> equalityChecks[j].passes
      {
        if EqualityFails(props, rules[i]) {
          RunChecksThirdList(typeofChecks, regexChecks, equalityChecks, i);
          return Reject(rules[i].error);
        }
      }
    }
    assert AllPass(equalityChecks);
    AllPassOfThree(typeofChecks, regexChecks, equalityChecks);
    RunChecksTrueIff(typeofChecks + regexChecks + equalityChecks);
    return Returned(true);
  }

  // ----- What validateObject decides -----

  /** With no rules at all, every object passes. */
  lemma ValidateObjectWithoutRules(
    target: Value,
    typeofValidations: Option<seq<TypeofRule>>,
    regexValidations: Option<seq<RegexRule>>,
    equalityValidations: Option<seq<EqualityRule>>)
    requires IsObject(target)
    requires OrEmpty(typeofValidations) == [] && OrEmpty(regexValidations) == []
    requires OrEmpty(equalityValidations) == []
    ensures ValidateObjectResult(target, typeofValidations, regexValidations, equalityValidations) == Returned(true)
  {
  }

  /** `validateObject` returns true exactly for an object that passes every
      rule of every list. */
  lemma {:induction false} ValidateObjectAcceptsIff(
    target: Value,
    typeofValidations: Option<seq<TypeofRule>>,
    regexValidations: Option<seq<RegexRule>>,
    equalityValidations: Option<seq<EqualityRule>>)
    ensures ValidateObjectResult(target, typeofValidations, regexValidations, equalityValidations) == Returned(true)
        <==> && IsObject(target)
             && (forall r :: r in OrEmpty(typeofValidations) ==> !TypeofFails(OwnProperties(target), r))
             && (forall r :: r in OrEmpty(regexValidations) ==> !RegexFails(OwnProperties(target), r))
             && (forall r :: r in OrEmpty(equalityValidations) ==> !EqualityFails(OwnProperties(target), r))
  {
    if IsObject(target) {
      var props := OwnProperties(target);
      var t, x, e := OrEmpty(typeofValidations), OrEmpty(regexValidations), OrEmpty(equalityValidations);
      var tc, xc, ec := TypeofChecks(props, t), RegexChecks(props, x), EqualityChecks(props, e);
      RunChecksTrueIff(tc + xc + ec);
      AllPassOfThree(tc, xc, ec);
      assert AllPass(tc) <==> forall r :: r in t ==> !TypeofFails(props, r) by {
        if !AllPass(tc) { var k :| 0 <= k < |tc| && !tc[k].passes; assert t[k] in t; }
      }
      assert AllPass(xc) <==> forall r :: r in x ==> !RegexFails(props, r) by {
        if !AllPass(xc) { var k :| 0 <= k < |xc| && !xc[k].passes; assert x[k] in x; }
      }
      assert AllPass(ec) <==> forall r :: r in e ==> !EqualityFails(props, r) by {
        if !AllPass(ec) { var k :| 0 <= k < |ec| && !ec[k].passes; assert e[k] in e; }
      }
    }
  }

  /** The first failing typeof rule decides, whatever the later rules of any
      list are: its error is thrown, or false returned. */
  lemma ValidateObjectTypeofRuleDecides(
    target: Value,
    typeofRules: seq<TypeofRule>,
    regexValidations: Option<seq<RegexRule>>,
    equalityValidations: Option<seq<EqualityRule>>,
    i: nat)
    requires IsObject(target) && i < |typeofRules|
    requires forall j :: 0 <= j < i ==> !TypeofFails(OwnProperties(target), typeofRules[j])
    requires TypeofFails(OwnProperties(target), typeofRules[i])
    ensures ValidateObjectResult(target, Some(typeofRules), regexValidations, equalityValidations)
         == Reject(typeofRules[i].error)
  {
    var props := OwnProperties(target);
    var checks := TypeofChecks(props, typeofRules) + RegexChecks(props, OrEmpty(regexValidations))
                  + EqualityChecks(props, OrEmpty(equalityValidations));
    RunChecksAt(checks, i);
  }

  /** Once every typeof rule passes, the first failing regex rule decides,
      whatever the equality rules are. */
  lemma ValidateObjectRegexRuleDecides(
    target: Value,
    typeofValidations: Option<seq<TypeofRule>>,
    regexRules: seq<RegexRule>,
    equalityValidations: Option<seq<EqualityRule>>,
    i: nat)
    requires IsObject(target) && i < |regexRules|
    requires forall r :: r in OrEmpty(typeofValidations) ==> !TypeofFails(OwnProperties(target), r)
    requires forall j :: 0 <= j < i ==> !RegexFails(OwnProperties(target), regexRules[j])
    requires RegexFails(OwnProperties(target), regexRules[i])
    ensures ValidateObjectResult(target, typeofValidations, Some(regexRules), equalityValidations)
         == Reject(regexRules[i].error)
  {
    var props := OwnProperties(target);
    var t := OrEmpty(typeofValidations);
    var checks := TypeofChecks(props, t) + RegexChecks(props, regexRules)
                  + EqualityChecks(props, OrEmpty(equalityValidations));
    forall j | 0 <= j < |t| + i ensures checks[j].passes {
      if j < |t| {
        assert t[j] in t;
      }
    }
    RunChecksAt(checks, |t| + i);
  }

  /** Once every typeof and regex rule passes, the first failing equality
      rule decides. */
  lemma ValidateObjectEqualityRuleDecides(
    target: Value,
    typeofValidations: Option<seq<TypeofRule>>,
    regexValidations: Option<seq<RegexRule>>,
    equalityRules: seq<EqualityRule>,
    i: nat)
    requires IsObject(target) && i < |equalityRules|
    requires forall r :: r in OrEmpty(typeofValidations) ==> !TypeofFails(OwnProperties(target), r)
    requires forall r :: r in OrEmpty(regexValidations) ==> !RegexFails(OwnProperties(target), r)
    requires forall j :: 0 <= j < i ==> !EqualityFails(OwnProperties(target), equalityRules[j])
    requires EqualityFails(OwnProperties(target), equalityRules[i])
    ensures ValidateObjectResult(target, typeofValidations, regexValidations, Some(equalityRules))
         == Reject(equalityRules[i].error)
  {
    var props := OwnProperties(target);
    var t, x := OrEmpty(typeofValidations), OrEmpty(regexValidations);
    var checks := TypeofChecks(props, t) + RegexChecks(props, x) + EqualityChecks(props, equalityRules);
    forall j | 0 <= j < |t| + |x| + i ensures checks[j].passes {
      if j < |t| {
        assert t[j] in t;
      } else if j < |t| + |x| {
        assert x[j - |t|] in x;
      }
    }
    RunChecksAt(checks, |t| + |x| + i);
  }

  /** Only a rule's own error is ever thrown, and only by a rule that fails. */
  lemma {:induction false} ValidateObjectThrowsRuleErrors(
    target: Value,
    typeofValidations: Option<seq<TypeofRule>>,
    regexValidations: Option<seq<RegexRule>>,
    equalityValidations: Option<seq<EqualityRule>>)
    requires ValidateObjectResult(target, typeofValidations, regexValidations, equalityValidations).Threw?
    ensures IsObject(target)
    ensures var e := ValidateObjectResult(target, typeofValidations, regexValidations, equalityValidations).error;
      || (exists r :: r in OrEmpty(typeofValidations) && r.error == Some(e) && TypeofFails(OwnProperties(target), r))
      || (exists r :: r in OrEmpty(regexValidations) && r.error == Some(e) && RegexFails(OwnProperties(target), r))
      || (exists r :: r in OrEmpty(equalityValidations) && r.error == Some(e) && EqualityFails(OwnProperties(target), r))
  {
    var props := OwnProperties(target);
    var t, x, e := OrEmpty(typeofValidations), OrEmpty(regexValidations), OrEmpty(equalityValidations);
    var checks := TypeofChecks(props, t) + RegexChecks(props, x) + EqualityChecks(props, e);
    var k := FirstFailure(checks);
    assert k < |checks|;
    if k < |t| {
      assert t[k] in t;
    } else if k < |t| + |x| {
      assert x[k - |t|] in x;
    } else {
      assert e[k - |t| - |x|] in e;
    }
  }

  /** `typeof null` is "object": a present `null` passes a rule for
      "object" even without `allowNull`, and a rule for "string" only with it. */
  lemma NullPropertySamples()
    ensures var target := Obj(0, map["p" := Null]);
      && ValidateObjectResult(target, Some([TypeofRule("p", StringType, false, false, None)]), None, None)
         == Returned(false)
      && ValidateObjectResult(target, Some([TypeofRule("p", StringType, true, false, None)]), None, None)
         == Returned(true)
      && ValidateObjectResult(target, Some([TypeofRule("p", ObjectType, false, false, None)]), None, None)
         == Returned(true)
  {
    var target := Obj(0, map["p" := Null]);
    var props := OwnProperties(target);
    RunChecksAt(TypeofChecks(props, [TypeofRule("p", StringType, false, false, None)]), 0);
  }

  /** The null and undefined flags of a regex rule make no difference. */
  lemma RegexFlagsAreIgnored(props: map<string, Value>, rule: RegexRule, allowNull: bool, allowUndefined: bool)
    ensures RegexFails(props, rule) == RegexFails(props, rule.(allowNull := allowNull, allowUndefined := allowUndefined))
  {
  }

  // ----- validatePartialObject -----

  /** The error thrown for a key no rule names. */
  function InvalidRequest(): (e: ErrorValue)
    ensures e.name == "InvalidRequestError" && e.status == Some(400)
  {
    ErrorValue("InvalidRequestError", "Request is invalid.", Some(400))
  }

  /** The error thrown for a property that fails its rule, when the rule
      carries no error of its own. */
  function InvalidProperty(propertyName: string): (e: ErrorValue)
    ensures e.name == InvalidRequest().name && e.status == InvalidRequest().status
    ensures e.message == propertyName + " is invalid."
  {
    ErrorValue("InvalidRequestError", propertyName + " is invalid.", Some(400))
  }

  /** Whether some rule names `key` (the `.some` over the rules). */
  predicate Names(rules: seq<RegexRule>, key: string) {
    exists i :: 0 <= i < |rules| && rules[i].propertyName == key
  }
  /** Every own key of the object is named by some rule. */
  predicate KnownKeys(props: map<string, Value>, rules: seq<RegexRule>) {
    forall key :: key in props ==> Names(rules, key)
  }


  /** What the `.some` callback makes of one rule: skip it, accept the
      object, or throw. */
  datatype Step = Skip | Accept | Raise(error: ErrorValue)

  /** The callback of `validatePartialObject`: a rule whose property is
      absent or not a string is skipped; otherwise the regex decides between
      acceptance and the rule's error (or `InvalidProperty`). */
  function PartialStep(props: map<string, Value>, rule: RegexRule): (step: Step)
    ensures step.Skip? <==> rule.propertyName !in props || !props[rule.propertyName].Str?
    ensures step.Accept? <==> && rule.propertyName in props && props[rule.propertyName].Str?
                              && rule.regex(props[rule.propertyName].s)
    ensures step.Raise? ==>
      step.error == if rule.error.Some? then rule.error.value else InvalidProperty(rule.propertyName)
  {
    var name := rule.propertyName;
    if name !in props || !IsString(props[name]) then Skip
    else
      var v := props[name];
      var failure := if rule.error.Some? then rule.error.value else InvalidProperty(name);
      if rule.allowNull then
        if rule.allowUndefined then
          if v != Null && v != Undefined && !rule.regex(v.s) then Raise(failure) else Accept
        else
          if v != Null && !rule.regex(v.s) then Raise(failure) else Accept
      else
        if rule.allowUndefined then
          if v != Undefined && !rule.regex(v.s) then Raise(failure) else Accept
        else
          if !rule.regex(v.s) then Raise(failure) else Accept
  }

  function PartialSteps(props: map<string, Value>, rules: seq<RegexRule>): (steps: seq<Step>)
    ensures |steps| == |rules|
    ensures forall i :: 0 <= i < |rules| ==> steps[i] == PartialStep(props, rules[i])
  {
    seq(|rules|, i requires 0 <= i < |rules| => PartialStep(props, rules[i]))
  }

  /** The position of the first step that is not a skip, or the length. */
  function FirstDecisive(steps: seq<Step>): (i: nat)
    ensures i <= |steps|
    ensures forall j :: 0 <= j < i ==> steps[j].Skip?
    ensures i < |steps| ==> !steps[i].Skip?
  {
    if steps == [] then 0
    else if !steps[0].Skip? then 0
    else 1 + FirstDecisive(steps[1..])
  }

  /** The result of `validatePartialObject`, stated without loops: false for
      anything but an object; a throw when some own key is named by no rule;
      otherwise the first rule that is not skipped decides, and false when
      every rule is skipped. */
  function ValidatePartialResult(target: Value, rules: seq<RegexRule>): (r: Outcome)
    ensures !IsObject(target) ==> r == Returned(false)
    ensures IsObject(target) && !KnownKeys(OwnProperties(target), rules) ==> r == Threw(InvalidRequest())
    ensures r == Returned(true) ==> IsObject(target) && KnownKeys(OwnProperties(target), rules)
  {
    if !IsObject(target) then Returned(false)
    else
      var props := OwnProperties(target);
      if !KnownKeys(props, rules) then Threw(InvalidRequest())
      else
        var steps := PartialSteps(props, rules);
        var i := FirstDecisive(steps);
        if i == |steps| then Returned(false)
        else if steps[i].Raise? then Threw(steps[i].error)
        else Returned(true)
  }

  /** `validatePartialObject`. */
  method ValidatePartialObject(target: Value, rules: seq<RegexRule>) returns (outcome: Outcome)
    ensures outcome == ValidatePartialResult(target, rules)
    ensures !IsObject(target) ==> outcome == Returned(false)
  {
    if !IsObject(target) {
      return Returned(false);
    }
    var props := OwnProperties(target);
    var keys := props.Keys;
    while keys != {}
      invariant keys <= props.Keys
      invariant forall key :: key in props && key !in keys ==> Names(rules, key)
      decreases keys
    {
      var key :| key in keys;
      if !Names(rules, key) {
        return Threw(InvalidRequest());
      }
      keys := keys - {key};
    }
    ghost var steps := PartialSteps(props, rules);
    for i := 0 to |rules|
      invariant forall j :: 0 <= j < i ==> steps[j].Skip?
    {
      var step := PartialStep(props, rules[i]);
      if step.Accept? {
        assert FirstDecisive(steps) == i;
        return Returned(true);
      } else if step.Raise? {
        assert FirstDecisive(steps) == i;
        return Threw(step.error);
      }
    }
    return Returned(false);
  }

  /** A key that no rule names is fatal, whatever the other properties hold. */
  lemma PartialRejectsUnknownKey(target: Value, rules: seq<RegexRule>, key: string)
    requires IsObject(target) && key in OwnProperties(target) && !Names(rules, key)
    ensures ValidatePartialResult(target, rules) == Threw(InvalidRequest())
  {
  }

  /** The first step that is not a skip is an acceptance exactly when some
      acceptance has only skips before it. */
  lemma FirstDecisiveAccepts(steps: seq<Step>)
    ensures (FirstDecisive(steps) < |steps| && steps[FirstDecisive(steps)].Accept?) <==>
      exists i :: 0 <= i < |steps| && steps[i].Accept? && forall j :: 0 <= j < i ==> steps[j].Skip?
  {
    var k := FirstDecisive(steps);
    if exists i :: 0 <= i < |steps| && steps[i].Accept? && forall j :: 0 <= j < i ==> steps[j].Skip? {
      var i :| 0 <= i < |steps| && steps[i].Accept? && forall j :: 0 <= j < i ==> steps[j].Skip?;
      assert k == i;
    }
  }

  /** `validatePartialObject` returns true exactly when the object has no
      unknown key and the first rule whose property holds a string matches. */
  lemma PartialAcceptsIff(target: Value, rules: seq<RegexRule>)
    ensures ValidatePartialResult(target, rules) == Returned(true) <==>
      && IsObject(target)
      && KnownKeys(OwnProperties(target), rules)
      && exists i :: && 0 <= i < |rules| && PartialStep(OwnProperties(target), rules[i]).Accept?
                     && forall j :: 0 <= j < i ==> PartialStep(OwnProperties(target), rules[j]).Skip?
  {
    if IsObject(target) {
      var props := OwnProperties(target);
      var steps := PartialSteps(props, rules);
      FirstDecisiveAccepts(steps);
      assert (exists i :: 0 <= i < |steps| && steps[i].Accept? && forall j :: 0 <= j < i ==> steps[j].Skip?)
         <==> exists i :: && 0 <= i < |rules| && PartialStep(props, rules[i]).Accept?
                          && forall j :: 0 <= j < i ==> PartialStep(props, rules[j]).Skip?;
    }
  }

  /** With no unknown key and every rule skipped, the result is false. */
  lemma PartialWithoutApplicableRule(target: Value, rules: seq<RegexRule>)
    requires IsObject(target) && KnownKeys(OwnProperties(target), rules)
    requires forall i :: 0 <= i < |rules| ==> PartialStep(OwnProperties(target), rules[i]).Skip?
    ensures ValidatePartialResult(target, rules) == Returned(false)
  {
  }

  /** Once a rule applies, the rules after it are never looked at: adding
      rules at the end changes nothing, as long as they name no new key. */
  lemma {:induction false} PartialIgnoresLaterRules(
    target: Value, rules: seq<RegexRule>, later: seq<RegexRule>, i: nat)
    requires IsObject(target) && i < |rules|
    requires KnownKeys(OwnProperties(target), rules)
    requires forall j :: 0 <= j < i ==> PartialStep(OwnProperties(target), rules[j]).Skip?
    requires !PartialStep(OwnProperties(target), rules[i]).Skip?
    ensures ValidatePartialResult(target, rules + later) == ValidatePartialResult(target, rules)
    ensures ValidatePartialResult(target, rules) ==
      if PartialStep(OwnProperties(target), rules[i]).Accept? then Returned(true)
      else Threw(PartialStep(OwnProperties(target), rules[i]).error)
  {
    var props := OwnProperties(target);
    var all := rules + later;
    forall key | key in props ensures Names(all, key) {
      var k :| 0 <= k < |rules| && rules[k].propertyName == key;
      assert all[k] == rules[k];
    }
    var s1, s2 := PartialSteps(props, rules), PartialSteps(props, all);
    assert FirstDecisive(s1) == i;
    assert s2[i] == s1[i];
    assert FirstDecisive(s2) == i;
  }

  // ----- validatePartialObject against its comment -----

  /** The comment above `validatePartialObject` asks that every present
      property be valid; as written, a valid first property hides an
      invalid second one. */
  lemma PartialAcceptsInvalidLaterProperty()
    ensures var target := Obj(0, map["a" := Str("ok"), "b" := Str("bad")]);
            var rules := [RegexRule("a", s => true, false, false, None),
                          RegexRule("b", s => false, false, false, None)];
      && ValidatePartialResult(target, rules) == Returned(true)
      && PartialStep(OwnProperties(target), rules[1]) == Raise(InvalidProperty("b"))
      && ValidatePartialAllPresentResult(target, rules) == Threw(InvalidProperty("b"))
  {
    var target := Obj(0, map["a" := Str("ok"), "b" := Str("bad")]);
    var rules := [RegexRule("a", s => true, false, false, None),
                  RegexRule("b", s => false, false, false, None)];
    var props := OwnProperties(target);
    assert Names(rules, "a") && Names(rules, "b") by {
      assert rules[0].propertyName == "a" && rules[1].propertyName == "b";
    }
    assert props.Keys == {"a", "b"};
    var steps := PartialSteps(props, rules);
    assert steps[0] == Accept && steps[1] == Raise(InvalidProperty("b"));
    assert FirstDecisive(steps) == 0;
    assert FirstRaise(steps) == 1;
  }

  /** The position of the first step that throws, or the length. */
  function FirstRaise(steps: seq<Step>): (i: nat)
    ensures i <= |steps|
    ensures forall j :: 0 <= j < i ==> !steps[j].Raise?
    ensures i < |steps| ==> steps[i].Raise?
  {
    if steps == [] then 0
    else if steps[0].Raise? then 0
    else 1 + FirstRaise(steps[1..])
  }

  /** `validatePartialObject` as its comment describes it: every present
      string property must match its rule (the first that does not throws),
      and at least one must be present. */
  function ValidatePartialAllPresentResult(target: Value, rules: seq<RegexRule>): Outcome {
    if !IsObject(target) then Returned(false)
    else
      var props := OwnProperties(target);
      if !KnownKeys(props, rules) then Threw(InvalidRequest())
      else
        var steps := PartialSteps(props, rules);
        var i := FirstRaise(steps);
        if i < |steps| then Threw(steps[i].error)
        else Returned(exists j :: 0 <= j < |steps| && steps[j].Accept?)
  }

  /** The corrected validator accepts exactly the objects without unknown
      keys in which some rule applies and every applicable rule matches. */
  lemma AllPresentAcceptsIff(target: Value, rules: seq<RegexRule>)
    ensures ValidatePartialAllPresentResult(target, rules) == Returned(true) <==>
      && IsObject(target)
      && KnownKeys(OwnProperties(target), rules)
      && (exists i :: 0 <= i < |rules| && PartialStep(OwnProperties(target), rules[i]).Accept?)
      && (forall i :: 0 <= i < |rules| ==> !PartialStep(OwnProperties(target), rules[i]).Raise?)
  {
    if IsObject(target) {
      var props := OwnProperties(target);
      var steps := PartialSteps(props, rules);
      if forall i :: 0 <= i < |rules| ==> !PartialStep(props, rules[i]).Raise? {
        assert FirstRaise(steps) == |steps|;
      }
    }
  }

  /** Where no present property is invalid, the two readings agree. */
  lemma AllPresentAgreesWithoutInvalidProperty(target: Value, rules: seq<RegexRule>)
    requires IsObject(target)
    requires forall i :: 0 <= i < |rules| ==> !PartialStep(OwnProperties(target), rules[i]).Raise?
    ensures ValidatePartialAllPresentResult(target, rules) == ValidatePartialResult(target, rules)
  {
    var props := OwnProperties(target);
    var steps := PartialSteps(props, rules);
    assert FirstRaise(steps) == |steps|;
    var k := FirstDecisive(steps);
    if k < |steps| {
      assert steps[k].Accept?;
    }
  }
}
