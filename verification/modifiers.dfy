/**
 The plan modifiers. The framework hands each modifier the attribute's
 configuration, proposed plan and prior state values and starts the
 response plan equal to the request plan, so a modifier that returns early
 leaves the plan as proposed. Each modifier is modelled as the function from
 the request to the response plan value.
 */
module PlanModifiers {
  import opened Framework
  import SalesforceId

  /** A plan-modification request for one string attribute. */
  datatype StringRequest = StringRequest(
    path: string,
    config: Value<string>,
    plan: Value<string>,
    state: Value<string>)

  /** A plan-modification request for one boolean attribute. */
  datatype BoolRequest = BoolRequest(
    config: Value<bool>,
    plan: Value<bool>,
    state: Value<bool>)

  /** `NormalizeId`: when the prior state holds a known ID and the proposed
      plan names the same record (after normalising both), keep the stored
      form; otherwise keep the proposed plan. The result always denotes the
      same record as the proposed plan. */
  function NormalizeIdPlan(req: StringRequest): (r: Value<string>)
    ensures r == req.plan || r == req.state
    ensures SalesforceId.Equivalent(ValueString(r), ValueString(req.plan))
    ensures !req.state.Known? ==> r == req.plan
    ensures req.state.Known? && SalesforceId.Equivalent(ValueString(req.plan), req.state.v) ==> r == req.state
    ensures !SalesforceId.Equivalent(ValueString(req.plan), ValueString(req.state)) ==> r == req.plan
  {
    if req.state.Null? || req.state.Unknown? then req.plan
    else
      var plan := ValueString(req.plan);
      var state := ValueString(req.state);
      if SalesforceId.NormalizeId(plan) == SalesforceId.NormalizeId(state) then req.state
      else req.plan
  }

  /** Pasting the 15-character form of a stored 18-character ID, or the other
      way round, never produces a diff: the stored value is kept. */
  lemma NormalizeIdPlanNoDiffBetweenForms(path: string, config: Value<string>, id: string)
    requires |id| == 15
    ensures NormalizeIdPlan(StringRequest(path, config, Known(id), Known(SalesforceId.NormalizeId(id))))
         == Known(SalesforceId.NormalizeId(id))
    ensures NormalizeIdPlan(StringRequest(path, config, Known(SalesforceId.NormalizeId(id)), Known(id)))
         == Known(id)
  {
    SalesforceId.ShortFormEquivalentToLongForm(id);
  }

  /** A proposed 15-character ID naming a different record than the stored
      one is a real change and stays in the plan. */
  lemma NormalizeIdPlanKeepsRealChange(path: string, config: Value<string>, a: string, b: string)
    requires |a| == 15 && |b| == 15 && a != b
    ensures NormalizeIdPlan(StringRequest(path, config, Known(a), Known(SalesforceId.NormalizeId(b)))) == Known(a)
  {
    SalesforceId.NormalizeIdIdempotent(b);
    SalesforceId.ShortFormsEquivalentIffEqual(a, b);
  }

  /** `resourceDefaults`: when the attribute is absent from the configuration
      and its path has an entry in the table, the plan becomes that entry;
      otherwise the plan is kept. */
  function ResourceDefaults(defaults: map<string, Value<string>>, req: StringRequest): (r: Value<string>)
    ensures req.config.Null? && req.path in defaults ==> r == defaults[req.path]
    ensures !req.config.Null? || req.path !in defaults ==> r == req.plan
  {
    if req.config.Null? && req.path in defaults then defaults[req.path] else req.plan
  }

  /** `resourceDefaults` never consults the prior state: two requests that
      differ only in their state get the same plan. */
  lemma ResourceDefaultsIgnoresState(defaults: map<string, Value<string>>, req: StringRequest, other: Value<string>)
    ensures ResourceDefaults(defaults, req.(state := other)) == ResourceDefaults(defaults, req)
  {
  }

  /** An entry is injected only for a path in the table: any other path
      keeps the proposed plan, whatever the configuration. */
  lemma ResourceDefaultsOnlyTablePaths(defaults: map<string, Value<string>>, req: StringRequest)
    requires ResourceDefaults(defaults, req) != req.plan
    ensures req.config.Null? && req.path in defaults
    ensures ResourceDefaults(defaults, req) == defaults[req.path]
  {
  }

  /** `staticComputed`: once the prior state holds a value (known or
      unknown), the plan is that value; with no prior state the plan is kept. */
  function StaticComputed(req: StringRequest): (r: Value<string>)
    ensures req.state.Null? ==> r == req.plan
    ensures !req.state.Null? ==> r == req.state
  {
    if req.state.Null? then req.plan else req.state
  }

  /** A computed value once observed stays in the plan whatever the
      configuration or the proposed plan say. */
  lemma StaticComputedSticky(req: StringRequest, config: Value<string>, plan: Value<string>)
    requires !req.state.Null?
    ensures StaticComputed(req.(config := config, plan := plan)) == req.state
  {
  }

  /** Running `staticComputed` again on its own result changes nothing. */
  lemma StaticComputedIdempotent(req: StringRequest)
    ensures StaticComputed(req.(plan := StaticComputed(req))) == StaticComputed(req)
  {
  }

  /** `fixNullToUnknown` as written: it returns early when the prior state is
      null, and its only assignment is guarded by that same state being null,
      so the assignment never runs and the plan is never changed. */
  function FixNullToUnknown(req: StringRequest): (r: Value<string>)
    ensures r == req.plan
  {
    if req.state.Null? then req.plan
    else
      var state := req.state;
      var config := req.config;
      if config.Unknown? && state.Null? then config else req.plan
  }

  /** The input that shows the dead branch: nothing in the prior state, an
      unknown configuration and a null proposed plan. The modifier keeps the
      null plan instead of turning it into unknown. */
  lemma FixNullToUnknownKeepsNull(path: string)
    ensures FixNullToUnknown(StringRequest(path, Unknown, Null, Null)) == Null
    ensures FixNullToUnknownIntended(StringRequest(path, Unknown, Null, Null)) == Unknown
  {
  }

  /** What the modifier's name and guarded assignment evidently intend: with
      no prior state and a configuration that is not yet known, the plan
      becomes unknown rather than null; every other request keeps its plan. */
  function FixNullToUnknownIntended(req: StringRequest): (r: Value<string>)
    ensures req.config.Unknown? && req.state.Null? ==> r.Unknown?
    ensures !(req.config.Unknown? && req.state.Null?) ==> r == req.plan
  {
    if req.config.Unknown? && req.state.Null? then req.config else req.plan
  }

  /** The corrected modifier never collapses a not-yet-known configuration
      into null, and changes the plan of a resource with prior state never. */
  lemma FixNullToUnknownIntendedNeverNullForUnknownConfig(req: StringRequest)
    ensures req.config.Unknown? && req.state.Null? ==> !FixNullToUnknownIntended(req).Null?
    ensures !req.state.Null? ==> FixNullToUnknownIntended(req) == FixNullToUnknown(req)
  {
  }

  /** `booleanNilIsFalse`: a boolean left out of the configuration is planned
      as a known false; otherwise the plan is kept. */
  function BooleanNilIsFalse(req: BoolRequest): (r: Value<bool>)
    ensures req.config.Null? ==> r == Known(false)
    ensures !req.config.Null? ==> r == req.plan
  {
    if req.config.Null? then Known(false) else req.plan
  }

  /** The plan differs from the proposal only to replace an absent boolean by
      false, and running the modifier again changes nothing. */
  lemma BooleanNilIsFalseOnlyFillsAbsent(req: BoolRequest)
    ensures BooleanNilIsFalse(req) != req.plan ==> req.config.Null? && BooleanNilIsFalse(req) == Known(false)
    ensures BooleanNilIsFalse(req.(plan := BooleanNilIsFalse(req))) == BooleanNilIsFalse(req)
  {
  }
}
