/**
 The GLOBAL / GROUP / MINER policy tables under every kind of accepted edit
 (app/anomalies/repository.py, app/miner_groups/repository.py and their request handlers).
 */
module PolicyStore {
  import opened Prelude
  import opened AnomalyPolicy

  /**
   The tables as one value. `membership` has a key for every miner; `nextGroup` and `nextMiner`
   are the ids the next inserted rows would get.
   */
  datatype Tables = Tables(
    nextGroup: nat, nextMiner: nat,
    global: Values, groups: set<int>, membership: map<int, Option<int>>,
    groupOverrides: map<int, Values>, minerOverrides: map<int, Values>)

  function OverridesOf(t: map<int, Values>, id: int): Values {
    if id in t then t[id] else map[]
  }

  function OfGroup(t: Tables, group: Option<int>): Values {
    if group.Some? then OverridesOf(t.groupOverrides, group.value) else map[]
  }

  function GroupOf(t: Tables, miner: int): Option<int> {
    if miner in t.membership then t.membership[miner] else None
  }

  /** load_group_anomaly_overrides: a row that does not resolve is ignored. */
  function LoadGroup(t: Tables, group: Option<int>): Values {
    if ResolveLayered(t.global, OfGroup(t, group), map[]).Some? then OfGroup(t, group) else map[]
  }

  /** load_miner_anomaly_overrides */
  function LoadMiner(t: Tables, miner: int): Values {
    if ResolveLayered(t.global, LoadGroup(t, GroupOf(t, miner)), OverridesOf(t.minerOverrides, miner)).Some?
    then OverridesOf(t.minerOverrides, miner) else map[]
  }

  /** load_group_anomaly_override_snapshot */
  function GroupSnapshot(t: Tables): map<int, Values> {
    map g | g in t.groupOverrides && LoadGroup(t, Some(g)) != map[] :: LoadGroup(t, Some(g))
  }

  /** load_anomaly_override_snapshot */
  function MinerSnapshot(t: Tables): map<int, Values> {
    map m | m in t.minerOverrides && Joined(t, m) :: LoadMiner(t, m)
  }

  /** The join with the miners table, and a row that resolves to something. */
  predicate Joined(t: Tables, m: int) {
    m in t.membership && LoadMiner(t, m) != map[]
  }

  /** The policy a scan applies to a miner. */
  function Effective(t: Tables, miner: int): Option<Values> {
    ResolveLayered(t.global, LoadGroup(t, GroupOf(t, miner)), LoadMiner(t, miner))
  }

  ghost predicate GroupRowFits(t: Tables, g: int)
    requires g in t.groupOverrides
  {
    g in t.groups && t.groupOverrides[g] != map[] && ResolveLayered(t.global, t.groupOverrides[g], map[]).Some?
  }

  ghost predicate MinerRowFits(t: Tables, m: int)
    requires m in t.minerOverrides
  {
    && m in t.membership && t.minerOverrides[m] != map[]
    && ResolveLayered(t.global, OfGroup(t, GroupOf(t, m)), t.minerOverrides[m]).Some?
  }

  ghost predicate IdsBounded(t: Tables) {
    && (forall g :: g in t.groups ==> 0 <= g < t.nextGroup)
    && (forall m :: m in t.membership ==> 0 <= m < t.nextMiner)
  }

  /** Every stored override is in force. */
  ghost predicate Consistent(t: Tables) {
    && ValidPolicy(t.global)
    && IdsBounded(t)
    && (forall m :: m in t.membership && t.membership[m].Some? ==> t.membership[m].value in t.groups)
    && (forall g :: g in t.groupOverrides ==> GroupRowFits(t, g))
    && (forall m :: m in t.minerOverrides ==> MinerRowFits(t, m))
  }

  lemma GlobalAlone(t: Tables)
    requires ValidPolicy(t.global)
    ensures ResolveLayered(t.global, map[], map[]) == Some(t.global)
  {
    assert t.global + map[] == t.global;
    assert t.global + map[] + map[] == t.global;
  }

  lemma LoadedIsStored(t: Tables, group: Option<int>)
    requires Consistent(t)
    ensures LoadGroup(t, group) == OfGroup(t, group)
    ensures ResolveLayered(t.global, OfGroup(t, group), map[]).Some?
  {
    GlobalAlone(t);
  }

  lemma LoadedMinerIsStored(t: Tables, m: int)
    requires Consistent(t)
    ensures LoadMiner(t, m) == OverridesOf(t.minerOverrides, m)
  {
    LoadedIsStored(t, GroupOf(t, m));
  }

  lemma GroupsDropNothing(t: Tables)
    requires Consistent(t)
    ensures GroupSnapshot(t) == t.groupOverrides
  {
    forall g | g in t.groupOverrides ensures LoadGroup(t, Some(g)) == t.groupOverrides[g] != map[] {
      LoadedIsStored(t, Some(g));
      assert GroupRowFits(t, g);
    }
  }

  lemma MinersDropNothing(t: Tables)
    requires Consistent(t)
    ensures MinerSnapshot(t) == t.minerOverrides
  {
    forall m | m in t.minerOverrides ensures Joined(t, m) && LoadMiner(t, m) == t.minerOverrides[m] {
      LoadedMinerIsStored(t, m);
      assert MinerRowFits(t, m);
    }
  }

  /** The snapshot loaders drop nothing from a consistent store. */
  lemma SnapshotsDropNothing(t: Tables)
    requires Consistent(t)
    ensures GroupSnapshot(t) == t.groupOverrides
    ensures MinerSnapshot(t) == t.minerOverrides
  {
    GroupsDropNothing(t);
    MinersDropNothing(t);
  }

  /** Every miner of a consistent store has a valid effective policy that honours its overrides. */
  lemma EveryMinerHasPolicy(t: Tables, m: int)
    requires Consistent(t)
    ensures Effective(t, m).Some? && ValidPolicy(Effective(t, m).value)
    ensures Effective(t, m).value[HotClear] < Effective(t, m).value[HotTemp]
    ensures forall f :: f in OverridesOf(t.minerOverrides, m) ==> Effective(t, m).value[f] == t.minerOverrides[m][f]
  {
    LoadedIsStored(t, GroupOf(t, m));
    LoadedMinerIsStored(t, m);
  }

  /** Each field of a miner's policy is its own override, else its group's, else the global value. */
  lemma EffectiveIsLayered(t: Tables, m: int, f: Field)
    requires Consistent(t) && m in t.membership && f in ALL_FIELDS
    ensures Effective(t, m).Some? && f in Effective(t, m).value
    ensures Effective(t, m).value[f] ==
            if m in t.minerOverrides && f in t.minerOverrides[m] then t.minerOverrides[m][f]
            else if t.membership[m].Some? && t.membership[m].value in t.groupOverrides
                    && f in t.groupOverrides[t.membership[m].value]
            then t.groupOverrides[t.membership[m].value][f]
            else t.global[f]
  {
    LoadedIsStored(t, GroupOf(t, m));
    LoadedMinerIsStored(t, m);
    EveryMinerHasPolicy(t, m);
  }

  /** Storing a miner's overrides concerns no other row. */
  function WithMiner(t: Tables, m: int, o: Values): Tables {
    t.(minerOverrides := if o == map[] then t.minerOverrides - {m} else t.minerOverrides[m := o])
  }

  function WithGroup(t: Tables, g: int, o: Values): Tables {
    t.(groupOverrides := if o == map[] then t.groupOverrides - {g} else t.groupOverrides[g := o])
  }

  function WithMember(t: Tables, m: int, group: Option<int>): Tables {
    t.(membership := t.membership[m := group])
  }

  function WithoutGroup(t: Tables, g: int): Tables {
    t.(groups := t.groups - {g},
       membership := map m | m in t.membership :: if t.membership[m] == Some(g) then None else t.membership[m],
       groupOverrides := t.groupOverrides - {g})
  }

  /** Each edit stores what it is given, and touches nothing else. */
  lemma EditsTakeEffect(t: Tables, m: int, g: int, group: Option<int>, o: Values)
    ensures OverridesOf(WithMiner(t, m, o).minerOverrides, m) == o
    ensures forall x :: x != m ==> OverridesOf(WithMiner(t, m, o).minerOverrides, x) == OverridesOf(t.minerOverrides, x)
    ensures WithMiner(t, m, o).(minerOverrides := t.minerOverrides) == t
    ensures OverridesOf(WithGroup(t, g, o).groupOverrides, g) == o
    ensures forall x :: x != g ==> OverridesOf(WithGroup(t, g, o).groupOverrides, x) == OverridesOf(t.groupOverrides, x)
    ensures WithGroup(t, g, o).(groupOverrides := t.groupOverrides) == t
    ensures GroupOf(WithMember(t, m, group), m) == group
    ensures forall x :: x != m ==> GroupOf(WithMember(t, m, group), x) == GroupOf(t, x)
    ensures WithMember(t, m, group).(membership := t.membership) == t
  {
  }

  /** A deleted group leaves no row, no layer and no member; everybody else stays where they were. */
  lemma DeletionTakesEffect(t: Tables, g: int)
    ensures var u := WithoutGroup(t, g);
            && u.groups == t.groups - {g} && OverridesOf(u.groupOverrides, g) == map[]
            && (forall x :: x != g ==> OverridesOf(u.groupOverrides, x) == OverridesOf(t.groupOverrides, x))
            && u.membership.Keys == t.membership.Keys
            && (forall m :: GroupOf(u, m) == if GroupOf(t, m) == Some(g) then None else GroupOf(t, m))
            && u.global == t.global && u.minerOverrides == t.minerOverrides
  {
  }

  // ---- what the validators check ----

  ghost predicate GroupStays(t: Tables, p: Values, g: int)
    requires g in t.groupOverrides
  {
    ResolveLayered(t.global, t.groupOverrides[g], map[]).Some? ==> ResolveLayered(p, t.groupOverrides[g], map[]).Some?
  }

  ghost predicate MinerStays(t: Tables, p: Values, m: int)
    requires m in t.minerOverrides
  {
    var group := LoadGroup(t, GroupOf(t, m));
    ResolveLayered(t.global, group, t.minerOverrides[m]).Some? ==> ResolveLayered(p, group, t.minerOverrides[m]).Some?
  }

  ghost predicate MemberStays(t: Tables, g: int, o: Values, m: int)
    requires m in t.minerOverrides
  {
    ResolveLayered(t.global, LoadGroup(t, Some(g)), t.minerOverrides[m]).Some? ==>
      ResolveLayered(t.global, o, t.minerOverrides[m]).Some?
  }

  /** validate_global_policy_against_overrides: what resolves now must resolve then. */
  ghost predicate GlobalFits(t: Tables, p: Values) {
    && (forall g :: g in t.groupOverrides ==> GroupStays(t, p, g))
    && (forall m :: m in t.minerOverrides && m in t.membership ==> MinerStays(t, p, m))
  }

  /** validate_group_policy_against_miner_overrides */
  ghost predicate GroupFits(t: Tables, g: int, o: Values) {
    && ResolveLayered(t.global, o, map[]).Some?
    && (forall m :: m in t.minerOverrides && GroupOf(t, m) == Some(g) ==> MemberStays(t, g, o, m))
  }

  /** validate_miner_group_policy_membership */
  predicate MembershipFits(t: Tables, m: int, group: Option<int>) {
    var o := OverridesOf(t.minerOverrides, m);
    ResolveLayered(t.global, LoadGroup(t, group), if ValidOverrides(o) then o else map[]).Some?
  }

  /** validate_group_policy_removal */
  ghost predicate RemovalFits(t: Tables, g: int) {
    forall m :: m in t.membership && t.membership[m] == Some(g) ==> MembershipFits(t, m, None)
  }

  // ---- accepted edits keep the store consistent ----

  lemma GlobalEditKeeps(t: Tables, p: Values)
    requires Consistent(t) && ValidPolicy(p) && GlobalFits(t, p)
    ensures Consistent(t.(global := p))
  {
    var u := t.(global := p);
    forall m | m in t.minerOverrides ensures MinerRowFits(u, m) {
      LoadedIsStored(t, GroupOf(t, m));
      assert MinerRowFits(t, m);
    }
    forall g | g in t.groupOverrides ensures GroupRowFits(u, g) {
      assert GroupRowFits(t, g);
    }
  }

  lemma GroupEditKeeps(t: Tables, g: int, o: Values)
    requires Consistent(t) && g in t.groups && GroupFits(t, g, o)
    ensures Consistent(WithGroup(t, g, o))
  {
    var u := WithGroup(t, g, o);
    forall x | x in u.groupOverrides ensures GroupRowFits(u, x) {
      assert x != g ==> GroupRowFits(t, x);
    }
    forall m | m in u.minerOverrides ensures MinerRowFits(u, m) {
      assert MinerRowFits(t, m);
      LoadedIsStored(t, Some(g));
      assert GroupOf(t, m) == Some(g) ==> OfGroup(u, GroupOf(u, m)) == o;
      assert GroupOf(t, m) != Some(g) ==> OfGroup(u, GroupOf(u, m)) == OfGroup(t, GroupOf(t, m));
    }
  }

  lemma MinerEditKeeps(t: Tables, m: int, o: Values)
    requires Consistent(t) && m in t.membership
    requires ResolveLayered(t.global, LoadGroup(t, GroupOf(t, m)), o).Some?
    ensures Consistent(WithMiner(t, m, o))
  {
    var u := WithMiner(t, m, o);
    LoadedIsStored(t, GroupOf(t, m));
    forall x | x in u.minerOverrides ensures MinerRowFits(u, x) {
      assert x != m ==> MinerRowFits(t, x);
      assert OfGroup(u, GroupOf(u, x)) == OfGroup(t, GroupOf(t, x));
    }
    forall g | g in u.groupOverrides ensures GroupRowFits(u, g) {
      assert GroupRowFits(t, g);
    }
  }

  lemma MembershipEditKeeps(t: Tables, m: int, group: Option<int>)
    requires Consistent(t) && m in t.membership && MembershipFits(t, m, group)
    requires group.Some? ==> group.value in t.groups
    ensures Consistent(WithMember(t, m, group))
  {
    var u := WithMember(t, m, group);
    LoadedIsStored(t, group);
    forall x | x in u.minerOverrides ensures MinerRowFits(u, x) {
      assert MinerRowFits(t, x);
      assert x != m ==> OfGroup(u, GroupOf(u, x)) == OfGroup(t, GroupOf(t, x));
      assert x == m ==> OfGroup(u, GroupOf(u, x)) == OfGroup(t, group);
    }
    forall g | g in u.groupOverrides ensures GroupRowFits(u, g) {
      assert GroupRowFits(t, g);
    }
  }

  lemma GroupDeletionKeeps(t: Tables, g: int)
    requires Consistent(t) && RemovalFits(t, g)
    ensures Consistent(WithoutGroup(t, g))
  {
    var u := WithoutGroup(t, g);
    forall m | m in u.minerOverrides ensures MinerRowFits(u, m) {
      assert MinerRowFits(t, m);
      LoadedIsStored(t, None);
      assert t.membership[m] == Some(g) ==> MembershipFits(t, m, None);
      assert t.membership[m] != Some(g) ==> OfGroup(u, GroupOf(u, m)) == OfGroup(t, GroupOf(t, m));
      assert t.membership[m] == Some(g) ==> OfGroup(u, GroupOf(u, m)) == map[];
    }
    forall x | x in u.groupOverrides ensures GroupRowFits(u, x) {
      assert GroupRowFits(t, x);
    }
  }

  /**
   What an accepted patch of a miner does to each field of its effective policy: the patch's number,
   what it inherits where the patch clears the field, and what it was where the patch is silent.
   */
  lemma MinerPatchTakesEffect(t: Tables, m: int, patch: map<Field, Raw>, f: Field)
    requires Consistent(t) && m in t.membership && f in ALL_FIELDS && PatchAcceptable(patch)
    requires ResolveLayered(t.global, OfGroup(t, GroupOf(t, m)), Merged(OverridesOf(t.minerOverrides, m), patch)).Some?
    ensures var u := WithMiner(t, m, Merged(OverridesOf(t.minerOverrides, m), patch));
            && Effective(u, m).Some? && Effective(t, m).Some?
            && f in Effective(u, m).value && f in Effective(t, m).value
            && Effective(u, m).value[f] ==
               if f !in patch then Effective(t, m).value[f]
               else if patch[f].Num? then patch[f].v
               else if t.membership[m].Some? && t.membership[m].value in t.groupOverrides
                       && f in t.groupOverrides[t.membership[m].value]
               then t.groupOverrides[t.membership[m].value][f]
               else t.global[f]
  {
    var o := Merged(OverridesOf(t.minerOverrides, m), patch);
    LoadedIsStored(t, GroupOf(t, m));
    MinerEditKeeps(t, m, o);
    EffectiveIsLayered(t, m, f);
    EffectiveIsLayered(WithMiner(t, m, o), m, f);
    EditsTakeEffect(t, m, 0, None, o);
  }

  // ---- and are rejected only for what they would break ----

  /** A global policy is let through exactly when the store stays consistent under it. */
  lemma GlobalFitsIff(t: Tables, p: Values)
    requires Consistent(t) && ValidPolicy(p)
    ensures GlobalFits(t, p) <==> Consistent(t.(global := p))
  {
    var u := t.(global := p);
    if GlobalFits(t, p) {
      GlobalEditKeeps(t, p);
    }
    if Consistent(u) {
      forall g | g in t.groupOverrides ensures GroupStays(t, p, g) {
        assert GroupRowFits(u, g);
      }
      forall m | m in t.minerOverrides && m in t.membership ensures MinerStays(t, p, m) {
        assert MinerRowFits(u, m);
        LoadedIsStored(t, GroupOf(t, m));
      }
    }
  }

  /** So is a group's layer, if it resolves by itself. */
  lemma GroupFitsIff(t: Tables, g: int, o: Values)
    requires Consistent(t) && g in t.groups
    ensures GroupFits(t, g, o) <==> Consistent(WithGroup(t, g, o))
  {
    var u := WithGroup(t, g, o);
    if GroupFits(t, g, o) {
      GroupEditKeeps(t, g, o);
    }
    if Consistent(u) {
      GlobalAlone(t);
      assert g in u.groupOverrides ==> GroupRowFits(u, g);
      forall m | m in t.minerOverrides && GroupOf(t, m) == Some(g) ensures MemberStays(t, g, o, m) {
        assert MinerRowFits(u, m);
      }
    }
  }

  /** So are a miner's overrides. */
  lemma MinerFitsIff(t: Tables, m: int, o: Values)
    requires Consistent(t) && m in t.membership
    ensures ResolveLayered(t.global, LoadGroup(t, GroupOf(t, m)), o).Some? <==> Consistent(WithMiner(t, m, o))
  {
    var u := WithMiner(t, m, o);
    LoadedIsStored(t, GroupOf(t, m));
    if ResolveLayered(t.global, LoadGroup(t, GroupOf(t, m)), o).Some? {
      MinerEditKeeps(t, m, o);
    }
    if Consistent(u) {
      assert m in u.minerOverrides ==> MinerRowFits(u, m);
    }
  }

  /** So is a move of a miner to a group, or out of one. */
  lemma MembershipFitsIff(t: Tables, m: int, group: Option<int>)
    requires Consistent(t) && m in t.membership && (group.Some? ==> group.value in t.groups)
    ensures MembershipFits(t, m, group) <==> Consistent(WithMember(t, m, group))
  {
    var u := WithMember(t, m, group);
    LoadedIsStored(t, group);
    if MembershipFits(t, m, group) {
      MembershipEditKeeps(t, m, group);
    }
    if Consistent(u) {
      assert m in u.minerOverrides ==> MinerRowFits(u, m);
    }
  }

  /** And so is the deletion of a group. */
  lemma RemovalFitsIff(t: Tables, g: int)
    requires Consistent(t)
    ensures RemovalFits(t, g) <==> Consistent(WithoutGroup(t, g))
  {
    var u := WithoutGroup(t, g);
    GlobalAlone(t);
    if RemovalFits(t, g) {
      GroupDeletionKeeps(t, g);
    }
    if Consistent(u) {
      forall m | m in t.membership && t.membership[m] == Some(g) ensures MembershipFits(t, m, None) {
        assert m in u.minerOverrides ==> MinerRowFits(u, m);
      }
    }
  }

  // ---- the store and its handlers ----

  datatype Edit =
    | PutGlobal(data: map<Field, Raw>)
    | PutGroup(group: int, patch: map<Field, Raw>)
    | ClearGroup(group: int)
    | PutMiner(miner: int, patch: map<Field, Raw>)
    | ClearMiner(miner: int)
    | Assign(miner: int, to: Option<int>)
    | DeleteGroup(group: int, hasScheduleRules: bool)

  ghost predicate RowsBounded(t: Tables) {
    && (forall g :: g in t.groupOverrides ==> 0 <= g < t.nextGroup)
    && (forall m :: m in t.minerOverrides ==> 0 <= m < t.nextMiner)
    && (forall m :: m in t.membership ==> 0 <= m < t.nextMiner)
  }

  lemma ConsistentRowsBounded(t: Tables)
    requires Consistent(t)
    ensures RowsBounded(t)
  {
    forall g | g in t.groupOverrides ensures 0 <= g < t.nextGroup {
      assert GroupRowFits(t, g);
    }
    forall m | m in t.minerOverrides ensures 0 <= m < t.nextMiner {
      assert MinerRowFits(t, m);
    }
  }

  class Store {
    var t: Tables

    constructor (initial: Tables)
      requires Consistent(initial)
      ensures t == initial
    {
      t := initial;
    }

    /** The first loop: the group rows in id order. */
    method ValidateGroupRows(p: Values) returns (fits: bool)
      requires RowsBounded(t)
      ensures fits <==> forall g :: g in t.groupOverrides ==> GroupStays(t, p, g)
    {
      for g := 0 to t.nextGroup
        invariant forall x :: x in t.groupOverrides && x < g ==> GroupStays(t, p, x)
      {
        if g in t.groupOverrides {
          var o := t.groupOverrides[g];
          if ResolveLayered(t.global, o, map[]).Some? && ResolveLayered(p, o, map[]).None? {
            assert !GroupStays(t, p, g);
            return false;
          }
        }
      }
      return true;
    }

    /** The second loop: the miner rows in id order. */
    method ValidateMinerRows(p: Values) returns (fits: bool)
      requires RowsBounded(t)
      ensures fits <==> forall m :: m in t.minerOverrides && m in t.membership ==> MinerStays(t, p, m)
    {
      for m := 0 to t.nextMiner
        invariant forall x :: x in t.minerOverrides && x in t.membership && x < m ==> MinerStays(t, p, x)
      {
        if m in t.minerOverrides && m in t.membership {
          var group := LoadGroup(t, GroupOf(t, m));
          var o := t.minerOverrides[m];
          if ResolveLayered(t.global, group, o).Some? && ResolveLayered(p, group, o).None? {
            assert !MinerStays(t, p, m);
            return false;
          }
        }
      }
      return true;
    }

    method ValidateGlobal(p: Values) returns (fits: bool)
      requires RowsBounded(t)
      ensures fits <==> GlobalFits(t, p)
    {
      fits := ValidateGroupRows(p);
      if fits {
        fits := ValidateMinerRows(p);
      }
    }

    method ValidateGroup(g: int, o: Values) returns (fits: bool)
      requires RowsBounded(t)
      ensures fits <==> GroupFits(t, g, o)
    {
      if ResolveLayered(t.global, o, map[]).None? {
        return false;
      }
      var current := LoadGroup(t, Some(g));
      for m := 0 to t.nextMiner
        invariant forall x :: x in t.minerOverrides && x < m && GroupOf(t, x) == Some(g) ==> MemberStays(t, g, o, x)
      {
        if m in t.minerOverrides && GroupOf(t, m) == Some(g) {
          var own := t.minerOverrides[m];
          if ResolveLayered(t.global, current, own).Some? && ResolveLayered(t.global, o, own).None? {
            return false;
          }
        }
      }
      return true;
    }

    method ValidateRemoval(g: int) returns (fits: bool)
      requires RowsBounded(t)
      ensures fits <==> RemovalFits(t, g)
    {
      for m := 0 to t.nextMiner
        invariant forall x :: x in t.membership && x < m && t.membership[x] == Some(g) ==> MembershipFits(t, x, None)
      {
        if m in t.membership && t.membership[m] == Some(g) && !MembershipFits(t, m, None) {
          return false;
        }
      }
      return true;
    }

    method PutGlobalPolicy(data: map<Field, Raw>) returns (accepted: bool)
      requires Consistent(t)
      modifies this
      ensures Consistent(t)
      ensures accepted <==> NormalizePolicy(data).Some? && GlobalFits(old(t), NormalizePolicy(data).value)
      ensures t == if accepted then old(t).(global := NormalizePolicy(data).value) else old(t)
    {
      var p := NormalizePolicy(data);
      if p.None? {
        return false;
      }
      ConsistentRowsBounded(t);
      accepted := ValidateGlobal(p.value);
      if accepted {
        GlobalEditKeeps(t, p.value);
        t := t.(global := p.value);
      }
    }

    method PutGroupPatch(g: int, patch: map<Field, Raw>) returns (accepted: bool)
      requires Consistent(t)
      modifies this
      ensures Consistent(t)
      ensures accepted ==> g in old(t).groups && PatchAcceptable(patch)
                           && t == WithGroup(old(t), g, Merged(OverridesOf(old(t).groupOverrides, g), patch))
      ensures !accepted ==> t == old(t)
      ensures accepted <==> g in old(t).groups && PatchAcceptable(patch)
                            && GroupFits(old(t), g, Merged(OverridesOf(old(t).groupOverrides, g), patch))
    {
      LoadedIsStored(t, Some(g));
      GlobalAlone(t);
      if g !in t.groups {
        return false;
      }
      var previous := LoadGroup(t, Some(g));
      var merged := ApplyPatch(t.global, previous, patch);
      OneLayer(t.global, Merged(previous, patch));
      if merged.None? {
        return false;
      }
      GroupUnchangedFits(t, g);
      if merged.value != previous {
        ConsistentRowsBounded(t);
        accepted := ValidateGroup(g, merged.value);
        if accepted {
          GroupEditKeeps(t, g, merged.value);
          t := WithGroup(t, g, merged.value);
        }
      } else {
        StoringAgain(t, g);
        accepted := true;
      }
    }

    method ClearGroupOverrides(g: int) returns (accepted: bool)
      requires Consistent(t)
      modifies this
      ensures Consistent(t)
      ensures accepted ==> t == WithGroup(old(t), g, map[])
      ensures !accepted ==> t == old(t)
      ensures accepted <==> g in old(t).groups && GroupFits(old(t), g, map[])
    {
      LoadedIsStored(t, Some(g));
      if g !in t.groups {
        return false;
      }
      if LoadGroup(t, Some(g)) == map[] {
        GroupUnchangedFits(t, g);
        StoringAgain(t, g);
        return true;
      }
      ConsistentRowsBounded(t);
      accepted := ValidateGroup(g, map[]);
      if accepted {
        GroupEditKeeps(t, g, map[]);
        t := WithGroup(t, g, map[]);
      }
    }

    method PutMinerPatch(m: int, patch: map<Field, Raw>) returns (accepted: bool)
      requires Consistent(t)
      modifies this
      ensures Consistent(t)
      ensures accepted ==> m in old(t).membership
                           && t == WithMiner(old(t), m, Merged(OverridesOf(old(t).minerOverrides, m), patch))
      ensures !accepted ==> t == old(t)
      ensures accepted <==> m in old(t).membership && PatchAcceptable(patch)
                            && ResolveLayered(old(t).global, OfGroup(old(t), GroupOf(old(t), m)),
                                              Merged(OverridesOf(old(t).minerOverrides, m), patch)).Some?
    {
      LoadedIsStored(t, GroupOf(t, m));
      LoadedMinerIsStored(t, m);
      if m !in t.membership {
        return false;
      }
      var group := LoadGroup(t, GroupOf(t, m));
      var inherited := ResolveLayered(t.global, group, map[]).value;
      var previous := LoadMiner(t, m);
      var merged := ApplyPatch(inherited, previous, patch);
      InheritedPatchAgrees(t.global, group, Merged(previous, patch));
      if merged.None? {
        return false;
      }
      if merged.value != previous {
        MinerEditKeeps(t, m, merged.value);
        t := WithMiner(t, m, merged.value);
      } else {
        assert m in t.minerOverrides ==> MinerRowFits(t, m);
        assert t == WithMiner(t, m, previous);
      }
      return true;
    }

    method ClearMinerOverrides(m: int) returns (accepted: bool)
      requires Consistent(t)
      modifies this
      ensures Consistent(t)
      ensures accepted <==> m in old(t).membership
      ensures t == if accepted then WithMiner(old(t), m, map[]) else old(t)
    {
      if m !in t.membership {
        return false;
      }
      LoadedIsStored(t, GroupOf(t, m));
      MinerEditKeeps(t, m, map[]);
      t := WithMiner(t, m, map[]);
      return true;
    }

    method AssignGroup(m: int, group: Option<int>) returns (accepted: bool)
      requires Consistent(t)
      modifies this
      ensures Consistent(t)
      ensures accepted <==> (&& m in old(t).membership && (group.Some? ==> group.value in old(t).groups)
                             && MembershipFits(old(t), m, group))
      ensures t == if accepted then WithMember(old(t), m, group) else old(t)
    {
      if m !in t.membership || (group.Some? && group.value !in t.groups) || !MembershipFits(t, m, group) {
        return false;
      }
      MembershipEditKeeps(t, m, group);
      t := WithMember(t, m, group);
      return true;
    }

    method RemoveGroup(g: int, hasScheduleRules: bool) returns (accepted: bool)
      requires Consistent(t)
      modifies this
      ensures Consistent(t)
      ensures accepted <==> g in old(t).groups && RemovalFits(old(t), g) && !hasScheduleRules
      ensures t == if accepted then WithoutGroup(old(t), g) else old(t)
    {
      if g !in t.groups {
        return false;
      }
      ConsistentRowsBounded(t);
      var fits := ValidateRemoval(g);
      if !fits || hasScheduleRules {
        return false;
      }
      GroupDeletionKeeps(t, g);
      t := WithoutGroup(t, g);
      return true;
    }

    /** Any sequence of edits, accepted or not, leaves the store consistent. */
    method Serve(edits: seq<Edit>)
      requires Consistent(t)
      modifies this
      ensures Consistent(t)
      ensures GroupSnapshot(t) == t.groupOverrides && MinerSnapshot(t) == t.minerOverrides
    {
      for i := 0 to |edits|
        invariant Consistent(t)
      {
        var accepted;
        match edits[i] {
          case PutGlobal(data) => accepted := PutGlobalPolicy(data);
          case PutGroup(g, patch) => accepted := PutGroupPatch(g, patch);
          case ClearGroup(g) => accepted := ClearGroupOverrides(g);
          case PutMiner(m, patch) => accepted := PutMinerPatch(m, patch);
          case ClearMiner(m) => accepted := ClearMinerOverrides(m);
          case Assign(m, to) => accepted := AssignGroup(m, to);
          case DeleteGroup(g, rules) => accepted := RemoveGroup(g, rules);
        }
      }
      SnapshotsDropNothing(t);
    }
  }

  lemma OneLayer(global: Values, o: Values)
    requires ValidPolicy(global)
    ensures Resolve(global, o) == ResolveLayered(global, o, map[])
  {
    assert global + o + map[] == global + o;
  }

  lemma GroupUnchangedFits(t: Tables, g: int)
    requires Consistent(t)
    ensures GroupFits(t, g, OverridesOf(t.groupOverrides, g))
  {
    LoadedIsStored(t, Some(g));
  }

  lemma StoringAgain(t: Tables, g: int)
    requires Consistent(t)
    ensures WithGroup(t, g, OverridesOf(t.groupOverrides, g)) == t
  {
    assert g in t.groupOverrides ==> GroupRowFits(t, g);
    if g !in t.groupOverrides {
      assert t.groupOverrides - {g} == t.groupOverrides;
    }
  }
}
