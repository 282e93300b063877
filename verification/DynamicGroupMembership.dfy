/**
 The two reconcilers of dynamic-group membership: one refreshes a whole group,
 the other one device in all groups of its organization.
 */
module DynamicGroupMembership {
  import opened Common
  import opened SqlText
  import opened DynamicGroupRules
  import opened DynamicGroupMeaning

  datatype Device = Device(orgId: string, columns: Row)

  datatype Kind = Static | Dynamic | Ldap

  datatype GroupRow = GroupRow(id: string, orgId: string, kind: Kind, rules: Option<Rule>, policyCount: nat)

  datatype Audit = MembersAdded(group: string, count: nat, policyCount: nat) | MembersRemoved(group: string, count: nat)

  type Devices = map<string, Device>

  type Members = set<(string, string)>

  /** The columns a query sees: the device's own, its id and its organization. */
  function RowOf(id: string, device: Device): Row {
    c => if c == Plain("id") then Some(id) else if c == Plain("org_id") then Some(device.orgId) else device.columns(c)
  }

  /** Running a WHERE clause selects the rows where it is true; text the database cannot parse or type is an error. */
  function Select(d: Dialect, devices: Devices, clause: string): Result<set<string>> {
    match ParseWhere(clause)
    case None => Err("syntax error")
    case Some(e) =>
      if !Accepted(d, e) then Err("type error") else Ok(set id | id in devices && Eval(d, RowOf(id, devices[id]), e) == True)
  }

  /** Ids are compared exactly, contain no quotes and are accepted by their columns. */
  ghost predicate ProperIds(d: Dialect, devices: Devices, groups: seq<GroupRow>) {
    && (forall c, a, b :: c == Plain("id") || c == Plain("org_id") ==> (d.equal(c, a, b) <==> a == b))
    && (forall id :: id in devices ==> IsId(d, "id", id))
    && (forall i :: 0 <= i < |groups| ==> IsId(d, "org_id", groups[i].orgId))
    && (forall i, j :: 0 <= i < j < |groups| ==> groups[i].id != groups[j].id)
  }

  predicate IsId(d: Dialect, column: string, id: string) {
    NoQuote(id) && d.accepts(Plain(column), Eq, id)
  }

  predicate Ruled(g: GroupRow) {
    g.kind == Dynamic && g.rules.Some?
  }

  /** The rules compile and the database accepts them. */
  predicate Runnable(d: Dialect, g: GroupRow) {
    Ruled(g) ==> BuildRule(g.rules.value).Ok? && WellFormed(g.rules.value) && WellTyped(d, g.rules.value)
  }

  /** The devices of the group's organization that satisfy its rules. */
  function Matching(d: Dialect, devices: Devices, g: GroupRow): set<string>
    requires Ruled(g)
  {
    set id | id in devices && devices[id].orgId == g.orgId && Satisfies(d, devices, id, g)
  }

  predicate Satisfies(d: Dialect, devices: Devices, id: string, g: GroupRow)
    requires Ruled(g) && id in devices
  {
    Meaning(d, RowOf(id, devices[id]), g.rules.value) == True
  }

  function MembersOf(members: Members, group: string): set<string> {
    set p | p in members && p.0 == group :: p.1
  }

  lemma SelectByOrg(d: Dialect, devices: Devices, groups: seq<GroupRow>, g: GroupRow)
    requires ProperIds(d, devices, groups) && g in groups && Ruled(g) && BuildRule(g.rules.value).Ok?
    ensures Select(d, devices, WhereText("org_id", g.orgId, BuildRule(g.rules.value).value))
         == if !WellFormed(g.rules.value) then Err("syntax error")
            else if !WellTyped(d, g.rules.value) then Err("type error") else Ok(Matching(d, devices, g))
  {
    var rule := g.rules.value;
    var clause := WhereText("org_id", g.orgId, BuildRule(rule).value);
    assert IsWord("org_id");
    BuildsIffKnown(rule);
    ParseWhereRule("org_id", g.orgId, rule);
    if WellFormed(rule) {
      forall id | id in devices
        ensures Eval(d, RowOf(id, devices[id]), ParseWhere(clause).value) == True
           <==> devices[id].orgId == g.orgId && Satisfies(d, devices, id, g)
      {
        CompilationPreservesMeaning(d, RowOf(id, devices[id]), "org_id", g.orgId, rule);
      }
      CompilationPreservesMeaning(d, c => None, "org_id", g.orgId, rule);
      if WellTyped(d, rule) {
        assert Select(d, devices, clause).value == Matching(d, devices, g);
      }
    }
  }

  lemma SelectById(d: Dialect, devices: Devices, groups: seq<GroupRow>, g: GroupRow, device: string)
    requires ProperIds(d, devices, groups) && device in devices && Ruled(g) && BuildRule(g.rules.value).Ok?
    ensures Select(d, devices, WhereText("id", device, BuildRule(g.rules.value).value))
         == if !WellFormed(g.rules.value) then Err("syntax error")
            else if !WellTyped(d, g.rules.value) then Err("type error")
            else Ok(if Satisfies(d, devices, device, g) then {device} else {})
  {
    var rule := g.rules.value;
    var clause := WhereText("id", device, BuildRule(rule).value);
    assert IsWord("id");
    BuildsIffKnown(rule);
    ParseWhereRule("id", device, rule);
    if WellFormed(rule) {
      forall id | id in devices
        ensures Eval(d, RowOf(id, devices[id]), ParseWhere(clause).value) == True
           <==> id == device && Satisfies(d, devices, id, g)
      {
        CompilationPreservesMeaning(d, RowOf(id, devices[id]), "id", device, rule);
      }
      CompilationPreservesMeaning(d, c => None, "id", device, rule);
      if WellTyped(d, rule) {
        assert Select(d, devices, clause).value == if Satisfies(d, devices, device, g) then {device} else {};
      }
    }
  }

  // ----- What the reconcilers leave behind -----

  /** The group's members become exactly the given devices. */
  function Refresh(members: Members, group: string, matching: set<string>): Members {
    (set p | p in members && p.0 != group) + (set id | id in matching :: (group, id))
  }

  /** One device's membership in one group becomes the given answer. */
  function Settle(members: Members, group: string, device: string, match': bool): Members {
    if match' then members + {(group, device)} else members - {(group, device)}
  }

  /** Sweeping a device through groups in order, up to the first group whose rules cannot be run. */
  function Sweep(d: Dialect, devices: Devices, groups: seq<GroupRow>, device: string, members: Members): (Members, bool)
    requires device in devices
  {
    if groups == [] then (members, true)
    else
      var g := groups[0];
      if !Concerns(g, devices[device].orgId) then Sweep(d, devices, groups[1..], device, members)
      else if !Runnable(d, g) then (members, false)
      else Sweep(d, devices, groups[1..], device, Settle(members, g.id, device, Satisfies(d, devices, device, g)))
  }

  predicate Concerns(g: GroupRow, orgId: string) {
    g.orgId == orgId && Ruled(g)
  }

  /** Additions are logged for groups with policies, removals always. */
  function ChangeAudits(g: GroupRow, added: nat, removed: nat): seq<Audit> {
    (if added > 0 && g.policyCount > 0 then [MembersAdded(g.id, added, g.policyCount)] else [])
    + (if removed > 0 then [MembersRemoved(g.id, removed)] else [])
  }

  /** What such a sweep logs: each change of the device's membership. */
  function SweepAudits(d: Dialect, devices: Devices, groups: seq<GroupRow>, device: string, members: Members): seq<Audit>
    requires device in devices
  {
    if groups == [] then []
    else
      var g := groups[0];
      if !Concerns(g, devices[device].orgId) then SweepAudits(d, devices, groups[1..], device, members)
      else if !Runnable(d, g) then []
      else
        var fits, was := Satisfies(d, devices, device, g), (g.id, device) in members;
        ChangeAudits(g, if fits && !was then 1 else 0, if was && !fits then 1 else 0)
        + SweepAudits(d, devices, groups[1..], device, Settle(members, g.id, device, fits))
  }

  /** A group of another organization, of another kind or without rules is passed over. */
  lemma OtherGroupsArePassedOver(d: Dialect, devices: Devices, g: GroupRow, rest: seq<GroupRow>, device: string, members: Members)
    requires device in devices && (g.orgId != devices[device].orgId || g.kind != Dynamic || g.rules == None)
    ensures Sweep(d, devices, [g] + rest, device, members) == Sweep(d, devices, rest, device, members)
    ensures SweepAudits(d, devices, [g] + rest, device, members) == SweepAudits(d, devices, rest, device, members)
  {
    assert ([g] + rest)[1..] == rest;
  }

  /**
   A ruled group of the device's organization: where its rules cannot be run the sweep fails and goes no further. Else the
   device is added or removed as its rules say; a removal is logged, and an addition where the group has policies.
   */
  lemma RuledGroupsAreSettled(d: Dialect, devices: Devices, g: GroupRow, rest: seq<GroupRow>, device: string, members: Members)
    requires device in devices && g.orgId == devices[device].orgId && g.kind == Dynamic && g.rules.Some?
    ensures var rules, was := g.rules.value, (g.id, device) in members;
      var fits := Meaning(d, RowOf(device, devices[device]), rules) == True;
      var after := if fits then members + {(g.id, device)} else members - {(g.id, device)};
      var log := if fits && !was && g.policyCount > 0 then [MembersAdded(g.id, 1, g.policyCount)]
                 else if was && !fits then [MembersRemoved(g.id, 1)] else [];
      if BuildRule(rules).Ok? && WellFormed(rules) && WellTyped(d, rules) then
        && Sweep(d, devices, [g] + rest, device, members) == Sweep(d, devices, rest, device, after)
        && SweepAudits(d, devices, [g] + rest, device, members) == log + SweepAudits(d, devices, rest, device, after)
      else
        && Sweep(d, devices, [g] + rest, device, members) == (members, false)
        && SweepAudits(d, devices, [g] + rest, device, members) == []
  {
    assert ([g] + rest)[1..] == rest;
    OneChange(g, Meaning(d, RowOf(device, devices[device]), g.rules.value) == True, (g.id, device) in members);
  }

  lemma OneChange(g: GroupRow, fits: bool, was: bool)
    ensures ChangeAudits(g, if fits && !was then 1 else 0, if was && !fits then 1 else 0)
         == if fits && !was && g.policyCount > 0 then [MembersAdded(g.id, 1, g.policyCount)]
            else if was && !fits then [MembersRemoved(g.id, 1)] else []
  {
  }

  lemma SweepEnds(d: Dialect, devices: Devices, device: string, members: Members)
    requires device in devices
    ensures Sweep(d, devices, [], device, members) == (members, true) && SweepAudits(d, devices, [], device, members) == []
  {
  }

  /** Added and removed devices are logged with their numbers, additions only where the group has policies. */
  lemma ChangesAreLogged(g: GroupRow, added: nat, removed: nat)
    ensures added > 0 && g.policyCount > 0 ==>
      ChangeAudits(g, added, removed) == [MembersAdded(g.id, added, g.policyCount)] + if removed == 0 then [] else [MembersRemoved(g.id, removed)]
    ensures added == 0 || g.policyCount == 0 ==>
      ChangeAudits(g, added, removed) == if removed == 0 then [] else [MembersRemoved(g.id, removed)]
  {
  }

  class GroupStore {
    const dialect: Dialect
    const devices: Devices
    const groups: seq<GroupRow>
    var members: Members
    var audits: seq<Audit>

    constructor (dialect: Dialect, devices: Devices, groups: seq<GroupRow>, members: Members)
      ensures this.dialect == dialect && this.devices == devices && this.groups == groups
      ensures this.members == members && audits == []
    {
      this.dialect, this.devices, this.groups, this.members, this.audits := dialect, devices, groups, members, [];
    }

    ghost predicate Valid() {
      ProperIds(dialect, devices, groups)
    }

    /** The row with the given id; ids are unique. */
    method FindGroup(id: string) returns (g: Option<GroupRow>)
      ensures g.Some? ==> g.value in groups && g.value.id == id
      ensures g.None? ==> forall h :: h in groups ==> h.id != id
      ensures Valid() && g.Some? ==> forall h :: h in groups && h.id == id ==> h == g.value
    {
      for i := 0 to |groups|
        invariant forall j :: 0 <= j < i ==> groups[j].id != id
      {
        if groups[i].id == id {
          return Some(groups[i]);
        }
      }
      return None;
    }

    /** Makes the members of a dynamic group the matching devices and counts the changes; an error changes nothing. */
    method EvaluateMembership(groupId: string) returns (r: Result<(nat, nat)>)
      requires Valid()
      modifies this`members, this`audits
      ensures (forall g :: g in groups && g.id == groupId ==> !(g.kind == Dynamic && g.rules.Some?)) ==>
        r == Ok((0, 0)) && members == old(members) && audits == old(audits)
      ensures forall g :: g in groups && g.id == groupId && g.kind == Dynamic && g.rules.Some? ==>
        && (r.Ok? <==> Runnable(dialect, g))
        && (r.Err? ==> members == old(members) && audits == old(audits))
        && (r.Ok? ==>
             var current, matching := MembersOf(old(members), groupId), Matching(dialect, devices, g);
             && members == Refresh(old(members), groupId, matching)
             && r.value == (|matching - current|, |current - matching|)
             && audits == old(audits) + ChangeAudits(g, |matching - current|, |current - matching|))
    {
      var found := FindGroup(groupId);
      if found.None? || found.value.kind != Dynamic || found.value.rules.None? {
        return Ok((0, 0));
      }
      var group := found.value;
      var clause := BuildRule(group.rules.value);
      if clause.Err? {
        return Err(clause.message);
      }
      SelectByOrg(dialect, devices, groups, group);
      var selected := Select(dialect, devices, WhereText("org_id", group.orgId, clause.value));
      if selected.Err? {
        return Err(selected.message);
      }
      var added, removed := ReplaceMembers(group, selected.value);
      return Ok((added, removed));
    }

    method ReplaceMembers(group: GroupRow, matching: set<string>) returns (added: nat, removed: nat)
      modifies this`members, this`audits
      ensures var current := MembersOf(old(members), group.id);
        added == |matching - current| && removed == |current - matching|
      ensures members == Refresh(old(members), group.id, matching)
      ensures audits == old(audits) + ChangeAudits(group, added, removed)
    {
      var current := MembersOf(members, group.id);
      var toAdd := matching - current;
      var toRemove := current - matching;
      added, removed := |toAdd|, |toRemove|;
      if toAdd != {} {
        members := members + (set id | id in toAdd :: (group.id, id));
        OnDevicesAdded(group, added);
      }
      if toRemove != {} {
        members := members - (set id | id in toRemove :: (group.id, id));
        OnDevicesRemoved(group.id, removed);
      }
      RefreshByDifference(old(members), group.id, matching);
    }

    /** Settles the device in every ruled group of its organization, stopping at the first group that cannot be run. */
    method EvaluateDevice(deviceId: string) returns (r: Result<()>)
      requires Valid()
      modifies this`members, this`audits
      ensures deviceId !in devices ==> r.Ok? && members == old(members) && audits == old(audits)
      ensures deviceId in devices ==>
        var (after, done) := Sweep(dialect, devices, groups, deviceId, old(members));
        members == after && r.Ok? == done && audits == old(audits) + SweepAudits(dialect, devices, groups, deviceId, old(members))
    {
      if deviceId !in devices {
        return Ok(());
      }
      var orgId := devices[deviceId].orgId;
      for i := 0 to |groups|
        invariant Sweep(dialect, devices, groups[i..], deviceId, members) == Sweep(dialect, devices, groups, deviceId, old(members))
        invariant audits + SweepAudits(dialect, devices, groups[i..], deviceId, members)
               == old(audits) + SweepAudits(dialect, devices, groups, deviceId, old(members))
      {
        r := SweepGroup(i, orgId, deviceId);
        if r.Err? {
          return;
        }
      }
      return Ok(());
    }

    method SweepGroup(i: nat, orgId: string, deviceId: string) returns (r: Result<()>)
      requires Valid() && i < |groups| && deviceId in devices && orgId == devices[deviceId].orgId
      modifies this`members, this`audits
      ensures Sweep(dialect, devices, groups[i..], deviceId, old(members))
           == if r.Ok? then Sweep(dialect, devices, groups[i + 1..], deviceId, members) else (members, false)
      ensures old(audits) + SweepAudits(dialect, devices, groups[i..], deviceId, old(members))
           == audits + if r.Ok? then SweepAudits(dialect, devices, groups[i + 1..], deviceId, members) else []
    {
      var group := groups[i];
      assert groups[i..][0] == group && groups[i..][1..] == groups[i + 1..];
      if group.orgId == orgId && group.kind == Dynamic && group.rules.Some? {
        r := SettleDevice(group, deviceId);
      } else {
        r := Ok(());
      }
    }

    /** One group of the sweep: the device's membership becomes what its rules say, and a change is logged. */
    method SettleDevice(group: GroupRow, deviceId: string) returns (r: Result<()>)
      requires Valid() && deviceId in devices && group in groups && Ruled(group)
      modifies this`members, this`audits
      ensures r.Ok? <==> Runnable(dialect, group)
      ensures r.Err? ==> members == old(members) && audits == old(audits)
      ensures r.Ok? ==>
        var fits, was := Satisfies(dialect, devices, deviceId, group), (group.id, deviceId) in old(members);
        && members == Settle(old(members), group.id, deviceId, fits)
        && audits == old(audits) + ChangeAudits(group, if fits && !was then 1 else 0, if was && !fits then 1 else 0)
    {
      var clause := BuildRule(group.rules.value);
      if clause.Err? {
        return Err(clause.message);
      }
      SelectById(dialect, devices, groups, group, deviceId);
      var selected := Select(dialect, devices, WhereText("id", deviceId, clause.value));
      if selected.Err? {
        return Err(selected.message);
      }
      var isMatch := selected.value != {};
      assert isMatch ==> deviceId in selected.value;
      var existing := (group.id, deviceId) in members;
      if isMatch && !existing {
        members := members + {(group.id, deviceId)};
        OnDevicesAdded(group, 1);
      } else if !isMatch && existing {
        members := members - {(group.id, deviceId)};
        OnDevicesRemoved(group.id, 1);
      }
      assert members == Settle(members, group.id, deviceId, isMatch);
      return Ok(());
    }

    /** The number of devices the rules would match, and at most a hundred of them. */
    method PreviewRules(orgId: string, rules: Rule) returns (r: Result<(nat, set<string>)>)
      requires Valid() && IsId(dialect, "org_id", orgId)
      ensures r.Ok? <==> BuildRule(rules).Ok? && WellFormed(rules) && WellTyped(dialect, rules)
      ensures r.Ok? ==>
        var matching := Matching(dialect, devices, GroupRow("", orgId, Dynamic, Some(rules), 0));
        r.value.0 == |matching| && r.value.1 <= matching && |r.value.1| == if |matching| < 100 then |matching| else 100
    {
      var clause := BuildRule(rules);
      if clause.Err? {
        return Err(clause.message);
      }
      ghost var g := GroupRow("", orgId, Dynamic, Some(rules), 0);
      SelectByOrg(dialect, devices, [g], g);
      var selected := Select(dialect, devices, WhereText("org_id", orgId, clause.value));
      if selected.Err? {
        return Err(selected.message);
      }
      var shown := FirstHundred(selected.value);
      return Ok((|selected.value|, shown));
    }

    method OnDevicesAdded(group: GroupRow, count: nat)
      modifies this`audits
      ensures audits == old(audits) + if group.policyCount > 0 then [MembersAdded(group.id, count, group.policyCount)] else []
    {
      if group.policyCount == 0 {
        return;
      }
      audits := audits + [MembersAdded(group.id, count, group.policyCount)];
    }

    method OnDevicesRemoved(groupId: string, count: nat)
      modifies this`audits
      ensures audits == old(audits) + [MembersRemoved(groupId, count)]
    {
      audits := audits + [MembersRemoved(groupId, count)];
    }
  }

  /** LIMIT 100. */
  method FirstHundred(ids: set<string>) returns (shown: set<string>)
    ensures shown <= ids && |shown| == if |ids| < 100 then |ids| else 100
  {
    shown := {};
    var left := ids;
    while left != {} && |shown| < 100
      invariant shown <= ids && left == ids - shown && |shown| <= 100
      invariant |shown| + |left| == |ids|
      decreases |left|
    {
      var id :| id in left;
      shown, left := shown + {id}, left - {id};
    }
  }

  lemma RefreshByDifference(members: Members, group: string, matching: set<string>)
    ensures var current := MembersOf(members, group);
      Refresh(members, group, matching)
      == members + (set id | id in matching - current :: (group, id)) - (set id | id in current - matching :: (group, id))
  {
    var current := MembersOf(members, group);
    var after := members + (set id | id in matching - current :: (group, id)) - (set id | id in current - matching :: (group, id));
    forall p
      ensures p in Refresh(members, group, matching) <==> p in after
    {
      if p.0 == group {
        assert p == (group, p.1);
        assert p in members <==> p.1 in current;
      }
    }
  }

  /** A second refresh with the same answers changes nothing and would count nothing. */
  lemma RefreshIdempotent(members: Members, group: string, matching: set<string>)
    ensures var once := Refresh(members, group, matching);
      && MembersOf(once, group) == matching
      && Refresh(once, group, matching) == once
  {
    var once := Refresh(members, group, matching);
    forall id
      ensures id in MembersOf(once, group) <==> id in matching
    {
      assert (group, id) in once <==> id in matching;
    }
    forall p
      ensures p in Refresh(once, group, matching) <==> p in once
    {
    }
  }

  // ----- The two reconcilers agree -----

  /** Refreshing every ruled group. */
  function RefreshAll(d: Dialect, devices: Devices, groups: seq<GroupRow>, members: Members): Members {
    if groups == [] then members
    else
      RefreshAll(d, devices, groups[1..],
        if Ruled(groups[0]) then Refresh(members, groups[0].id, Matching(d, devices, groups[0])) else members)
  }

  /** Sweeping every device. */
  function SweepAll(d: Dialect, devices: Devices, groups: seq<GroupRow>, ids: seq<string>, members: Members): Members
    requires forall i :: 0 <= i < |ids| ==> ids[i] in devices
  {
    if ids == [] then members
    else SweepAll(d, devices, groups, ids[1..], Sweep(d, devices, groups, ids[0], members).0)
  }

  ghost predicate DistinctGroups(groups: seq<GroupRow>) {
    forall i, j :: 0 <= i < j < |groups| ==> groups[i].id != groups[j].id
  }

  /** The ruled group with this id, if any. */
  function RuledGroup(groups: seq<GroupRow>, id: string): (g: Option<GroupRow>)
    ensures g.Some? ==> g.value in groups && g.value.id == id && Ruled(g.value)
  {
    if groups == [] then None
    else if groups[0].id == id && Ruled(groups[0]) then Some(groups[0])
    else RuledGroup(groups[1..], id)
  }

  lemma {:induction false} RuledGroupAbsent(groups: seq<GroupRow>, id: string)
    requires forall i :: 0 <= i < |groups| ==> groups[i].id != id
    ensures RuledGroup(groups, id).None?
  {
    if groups != [] {
      RuledGroupAbsent(groups[1..], id);
    }
  }

  lemma {:induction false} RefreshAllAt(d: Dialect, devices: Devices, groups: seq<GroupRow>, members: Members, p: (string, string))
    requires DistinctGroups(groups)
    ensures p in RefreshAll(d, devices, groups, members)
      <==> match RuledGroup(groups, p.0)
           case None => p in members
           case Some(g) => p.1 in Matching(d, devices, g)
  {
    if groups != [] {
      var g := groups[0];
      var next := if Ruled(g) then Refresh(members, g.id, Matching(d, devices, g)) else members;
      RefreshAllAt(d, devices, groups[1..], next, p);
      if g.id == p.0 {
        RuledGroupAbsent(groups[1..], p.0);
        assert p == (g.id, p.1);
      }
    }
  }

  lemma {:induction false} SweepAt(d: Dialect, devices: Devices, groups: seq<GroupRow>, device: string, members: Members, p: (string, string))
    requires device in devices && DistinctGroups(groups)
    requires forall g :: g in groups ==> Runnable(d, g)
    ensures p in Sweep(d, devices, groups, device, members).0
      <==> match RuledGroup(groups, p.0)
           case None => p in members
           case Some(g) =>
             if p.1 == device && g.orgId == devices[device].orgId then Satisfies(d, devices, device, g) else p in members
    ensures Sweep(d, devices, groups, device, members).1
  {
    if groups != [] {
      var g := groups[0];
      assert g in groups;
      var next := if !Concerns(g, devices[device].orgId) then members else Settle(members, g.id, device, Satisfies(d, devices, device, g));
      SweepAt(d, devices, groups[1..], device, next, p);
      if g.id == p.0 {
        RuledGroupAbsent(groups[1..], p.0);
        assert p == (g.id, p.1);
      }
    }
  }

  lemma {:induction false} SweepAllAt(d: Dialect, devices: Devices, groups: seq<GroupRow>, ids: seq<string>, members: Members, p: (string, string))
    requires forall i :: 0 <= i < |ids| ==> ids[i] in devices
    requires DistinctGroups(groups) && forall g :: g in groups ==> Runnable(d, g)
    ensures p in SweepAll(d, devices, groups, ids, members)
      <==> match RuledGroup(groups, p.0)
           case None => p in members
           case Some(g) =>
             if p.1 in ids && g.orgId == devices[p.1].orgId then Satisfies(d, devices, p.1, g) else p in members
  {
    if ids != [] {
      SweepAt(d, devices, groups, ids[0], members, p);
      SweepAllAt(d, devices, groups, ids[1..], Sweep(d, devices, groups, ids[0], members).0, p);
      assert p.1 in ids <==> p.1 == ids[0] || p.1 in ids[1..];
    }
  }

  /** A member of a ruled group that is no device of the group's organization. */
  ghost predicate ForeignMember(devices: Devices, groups: seq<GroupRow>, p: (string, string)) {
    var g := RuledGroup(groups, p.0);
    g.Some? && !(p.1 in devices && devices[p.1].orgId == g.value.orgId)
  }

  /**
   Refreshing every group and sweeping every device, in any order, lead to the same memberships
   exactly when no prior member of a ruled group is foreign to the group's organization.
   */
  lemma ReconcilersAgree(d: Dialect, devices: Devices, groups: seq<GroupRow>, ids: seq<string>, members: Members)
    requires DistinctGroups(groups) && forall g :: g in groups ==> Runnable(d, g)
    requires forall id :: id in ids <==> id in devices
    ensures RefreshAll(d, devices, groups, members) == SweepAll(d, devices, groups, ids, members)
       <==> (forall p :: p in members ==> !ForeignMember(devices, groups, p))
  {
    var refreshed, swept := RefreshAll(d, devices, groups, members), SweepAll(d, devices, groups, ids, members);
    forall p
      ensures (p in refreshed <==> p in swept) <==> !(p in members && ForeignMember(devices, groups, p))
    {
      RefreshAllAt(d, devices, groups, members, p);
      SweepAllAt(d, devices, groups, ids, members, p);
    }
    if p :| p in members && ForeignMember(devices, groups, p) {
      assert refreshed != swept;
    } else {
      assert forall p :: p in refreshed <==> p in swept;
    }
  }
}
