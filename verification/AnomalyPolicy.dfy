/**
 Anomaly policy values, override layers and patches (app/anomalies/policy.py). Policies map
 fields to numbers; only comparisons and integrality matter, so numbers are reals.
 */
module AnomalyPolicy {
  import opened Prelude

  datatype Field = Interval | OfflineGrace | HotTemp | HotClear | HotGrace | ScheduleGrace

  const ALL_FIELDS: set<Field> := {Interval, OfflineGrace, HotTemp, HotClear, HotGrace, ScheduleGrace}
  const OVERRIDE_FIELDS: set<Field> := {OfflineGrace, HotTemp, HotClear, HotGrace, ScheduleGrace}

  type Values = map<Field, real>

  /** A JSON value: a finite number, null, or something `_normalize_policy_value` rejects. */
  datatype Raw = Num(v: real) | Null | Rejected

  function Minimum(f: Field): real {
    match f
    case Interval => 5.0
    case HotTemp => 40.0
    case HotClear => 30.0
    case _ => 0.0
  }

  function Maximum(f: Field): real {
    match f
    case Interval => 3600.0
    case HotTemp => 120.0
    case HotClear => 119.9
    case _ => 86400.0
  }

  predicate IsInteger(f: Field) {
    f != HotTemp && f != HotClear
  }

  predicate ValidValue(f: Field, v: real) {
    Minimum(f) <= v <= Maximum(f) && (IsInteger(f) ==> v.Floor as real == v)
  }

  /** _normalize_policy_value */
  function NormalizeValue(f: Field, raw: Raw): Option<real> {
    if raw.Num? && ValidValue(f, raw.v) then Some(raw.v) else None
  }

  /** Every field present and in range, and the clear temperature below the hot one. */
  predicate ValidPolicy(p: Values) {
    p.Keys == ALL_FIELDS && (forall f | f in p :: ValidValue(f, p[f])) && p[HotClear] < p[HotTemp]
  }

  predicate ValidOverrides(o: Values) {
    o.Keys <= OVERRIDE_FIELDS && forall f | f in o :: ValidValue(f, o[f])
  }

  /** normalize_anomaly_policy on a request body. */
  function NormalizePolicy(data: map<Field, Raw>): (p: Option<Values>)
    ensures p.Some? ==> ValidPolicy(p.value)
    ensures p.None? <==> data.Keys != ALL_FIELDS || (exists f :: f in data && NormalizeValue(f, data[f]).None?)
                         || data[HotClear].v >= data[HotTemp].v
  {
    if data.Keys != ALL_FIELDS || (exists f | f in data :: NormalizeValue(f, data[f]).None?) then None
    else
      var p := map f | f in data :: data[f].v;
      if p[HotClear] >= p[HotTemp] then None else Some(p)
  }

  /** resolve_anomaly_policy: one layer of overrides. */
  function Resolve(policy: Values, overrides: Values): (r: Option<Values>)
    ensures r.Some? ==> ValidPolicy(r.value)
  {
    if ValidPolicy(policy) && ValidOverrides(overrides) && ValidPolicy(policy + overrides)
    then Some(policy + overrides) else None
  }

  /** resolve_layered_anomaly_policy: the group layer must be valid by itself. */
  function ResolveLayered(global: Values, group: Values, miner: Values): (r: Option<Values>)
    ensures r.Some? ==> ValidPolicy(r.value)
  {
    if !ValidPolicy(global) || !ValidOverrides(group) then None
    else if !ValidPolicy(global + group) || !ValidOverrides(miner) then None
    else if !ValidPolicy(global + group + miner) then None
    else Some(global + group + miner)
  }

  /** The merged overrides of a patch: numbers set a field, null removes it. */
  function Merged(current: Values, patch: map<Field, Raw>): Values {
    map f | f in current.Keys + patch.Keys && (f in patch ==> patch[f].Num?) ::
      if f in patch then patch[f].v else current[f]
  }

  predicate PatchAcceptable(patch: map<Field, Raw>) {
    && patch != map[]
    && patch.Keys <= OVERRIDE_FIELDS
    && forall f | f in patch :: patch[f] == Null || NormalizeValue(f, patch[f]).Some?
  }

  /** The items of a patch already dealt with. */
  function DonePart(patch: map<Field, Raw>, todo: set<Field>): map<Field, Raw> {
    map f | f in patch && f !in todo :: patch[f]
  }

  lemma MergeOneMore(current: Values, patch: map<Field, Raw>, todo: set<Field>, f: Field)
    requires f in todo && todo <= patch.Keys && patch[f] != Rejected
    ensures Merged(current, DonePart(patch, todo - {f})) ==
            (if patch[f] == Null then Merged(current, DonePart(patch, todo)) - {f}
             else Merged(current, DonePart(patch, todo))[f := patch[f].v])
  {
    var before := Merged(current, DonePart(patch, todo));
    var after := Merged(current, DonePart(patch, todo - {f}));
    forall g | g != f ensures (g in before <==> g in after) && (g in before ==> before[g] == after[g]) {
      assert g in DonePart(patch, todo) <==> g in DonePart(patch, todo - {f});
    }
  }

  /**
   apply_anomaly_override_patch, and apply_group_anomaly_override_patch, which differs only in
   going through the layered resolution: the loop over the patch's items.
   */
  method ApplyPatch(policy: Values, current: Values, patch: map<Field, Raw>) returns (merged: Option<Values>)
    requires ValidOverrides(current)
    ensures merged == if PatchAcceptable(patch) && Resolve(policy, Merged(current, patch)).Some?
                      then Some(Merged(current, patch)) else None
  {
    if patch == map[] || !(patch.Keys <= OVERRIDE_FIELDS) {
      return None;
    }
    var result := current;
    var todo := patch.Keys;
    while todo != {}
      invariant todo <= patch.Keys
      invariant forall f :: f in patch && f !in todo ==> patch[f] == Null || NormalizeValue(f, patch[f]).Some?
      invariant result == Merged(current, DonePart(patch, todo))
      decreases |todo|
    {
      var f: Field :| f in todo;
      if patch[f] == Null {
        result := result - {f};
      } else {
        var v := NormalizeValue(f, patch[f]);
        if v.None? {
          return None;
        }
        result := result[f := v.value];
      }
      MergeOneMore(current, patch, todo, f);
      todo := todo - {f};
    }
    assert DonePart(patch, {}) == patch;
    return if Resolve(policy, result).Some? then Some(result) else None;
  }

  /** The ranges in numbers; all but the temperatures are whole. */
  lemma AcceptedRanges(v: real)
    ensures NormalizeValue(Interval, Num(v)) == Some(v) <==> 5.0 <= v <= 3600.0 && v.Floor as real == v
    ensures NormalizeValue(OfflineGrace, Num(v)) == Some(v) <==> 0.0 <= v <= 86400.0 && v.Floor as real == v
    ensures NormalizeValue(HotGrace, Num(v)) == Some(v) <==> 0.0 <= v <= 86400.0 && v.Floor as real == v
    ensures NormalizeValue(ScheduleGrace, Num(v)) == Some(v) <==> 0.0 <= v <= 86400.0 && v.Floor as real == v
    ensures NormalizeValue(HotTemp, Num(v)) == Some(v) <==> 40.0 <= v <= 120.0
    ensures NormalizeValue(HotClear, Num(v)) == Some(v) <==> 30.0 <= v <= 119.9
    ensures forall f :: NormalizeValue(f, Num(v)) in {None, Some(v)}
    ensures forall f :: NormalizeValue(f, Null) == None && NormalizeValue(f, Rejected) == None
  {
  }

  // ---- layers ----

  datatype Layer = GLOBAL | GROUP | MINER

  /** layered_anomaly_policy_sources */
  function Source(group: Values, miner: Values, f: Field): Layer {
    if f in miner then MINER else if f in group then GROUP else GLOBAL
  }

  /** Each effective value is the one its reported source holds. */
  lemma SourcesAreTruthful(global: Values, group: Values, miner: Values, f: Field)
    requires ResolveLayered(global, group, miner).Some? && f in ALL_FIELDS
    ensures var v := ResolveLayered(global, group, miner).value[f];
            match Source(group, miner, f)
            case MINER => f in miner && v == miner[f]
            case GROUP => f in group && f !in miner && v == group[f]
            case GLOBAL => f !in group && f !in miner && v == global[f]
  {
  }

  /**
   Patching a miner against its inherited policy and resolving all three layers agree, on the
   verdict and on every value.
   */
  lemma InheritedPatchAgrees(global: Values, group: Values, miner: Values)
    requires ResolveLayered(global, group, map[]).Some?
    ensures Resolve(ResolveLayered(global, group, map[]).value, miner) == ResolveLayered(global, group, miner)
  {
    assert global + group + map[] == global + group;
  }

  /** What a patch does to each effective value: set it, let it be inherited, or leave it. */
  lemma PatchEffect(inherited: Values, current: Values, patch: map<Field, Raw>, f: Field)
    requires Resolve(inherited, current).Some? && PatchAcceptable(patch) && f in ALL_FIELDS
    requires Resolve(inherited, Merged(current, patch)).Some?
    ensures var before := Resolve(inherited, current).value[f];
            var after := Resolve(inherited, Merged(current, patch)).value[f];
            after == (if f !in patch then before else if patch[f] == Null then inherited[f] else patch[f].v)
  {
  }

  /** A patch of nulls for exactly the set fields undoes any overrides. */
  lemma NullPatchClears(current: Values, patch: map<Field, Raw>)
    requires current.Keys <= patch.Keys && forall f :: f in patch ==> patch[f] == Null
    ensures Merged(current, patch) == map[]
  {
  }
}
