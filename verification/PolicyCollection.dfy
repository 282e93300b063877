/** The policies that reach a device through its organisation, its groups and the device itself. */
module PolicyCollection {
  import opened Common
  import opened PolicyMerge
  import opened PolicyResolver

  /** What the policy repository answers; a missing entry is a failed lookup. */
  datatype Repository = Repository(
    assignments: map<(Target, string), seq<string>>,
    policies: map<string, Policy>,
    latestVersions: map<string, Payload>)

  /** The ids assigned to one target; None where the query fails. */
  function Assigned(repo: Repository, target: Target, id: string): Option<seq<string>> {
    if (target, id) in repo.assignments then Some(repo.assignments[(target, id)]) else None
  }

  function GroupAssignments(repo: Repository, groupIds: seq<string>): Option<seq<string>> {
    if groupIds == [] then Some([])
    else
      var before := GroupAssignments(repo, groupIds[..|groupIds| - 1]);
      var last := Assigned(repo, Group, groupIds[|groupIds| - 1]);
      if before.None? || last.None? then None else Some(before.value + last.value)
  }

  // ----- What should be collected -----

  datatype Assignments = Assignments(org: seq<string>, groups: seq<string>, device: seq<string>) {
    function All(): seq<string> {
      org + groups + device
    }

    /** The most specific level at which the policy is assigned. */
    function ScopeOf(pid: string): Target
      requires pid in All()
    {
      if pid in device then Device else if pid in groups then Group else Org
    }
  }

  function ReadAssignments(repo: Repository, orgId: string, deviceId: string, groupIds: seq<string>): Option<Assignments> {
    var org, groups, device := Assigned(repo, Org, orgId), GroupAssignments(repo, groupIds), Assigned(repo, Device, deviceId);
    if org.None? || groups.None? || device.None? then None
    else Some(Assignments(org.value, groups.value, device.value))
  }

  /** Known, active and with a version. */
  predicate Applies(repo: Repository, pid: string) {
    pid in repo.policies && repo.policies[pid].isActive && pid in repo.latestVersions
  }

  function Entry(repo: Repository, asg: Assignments, pid: string): Scoped
    requires pid in asg.All() && Applies(repo, pid)
  {
    Scoped(repo.policies[pid], repo.latestVersions[pid], asg.ScopeOf(pid))
  }

  /** The ids of one type that apply, each once, in order of first appearance. */
  function OfType(repo: Repository, ids: seq<string>, policyType: string): (r: seq<string>)
    ensures forall pid :: pid in r <==> pid in ids && Applies(repo, pid) && repo.policies[pid].policyType == policyType
    ensures Distinct(ids) ==> Distinct(r)
  {
    if ids == [] then []
    else
      var before, last := OfType(repo, ids[..|ids| - 1], policyType), ids[|ids| - 1];
      assert ids == ids[..|ids| - 1] + [last];
      if Applies(repo, last) && repo.policies[last].policyType == policyType then before + [last] else before
  }

  ghost predicate Distinct(ids: seq<string>) {
    forall i, j :: 0 <= i < j < |ids| ==> ids[i] != ids[j]
  }

  /** Under each type exactly its applying policies, each once, with the most specific scope it is assigned at. */
  ghost predicate Collected(repo: Repository, asg: Assignments, ids: seq<string>, byType: map<string, seq<Scoped>>)
    requires forall pid :: pid in ids ==> pid in asg.All()
  {
    forall t :: CollectedUnder(repo, asg, OfType(repo, ids, t), byType, t)
  }

  ghost predicate CollectedUnder(repo: Repository, asg: Assignments, pids: seq<string>, byType: map<string, seq<Scoped>>, t: string)
    requires forall pid :: pid in pids ==> pid in asg.All() && Applies(repo, pid)
  {
    if pids == [] then t !in byType else t in byType && ListsEntries(repo, asg, pids, byType[t])
  }

  ghost predicate ListsEntries(repo: Repository, asg: Assignments, pids: seq<string>, entries: seq<Scoped>)
    requires forall pid :: pid in pids ==> pid in asg.All() && Applies(repo, pid)
  {
    |entries| == |pids| && forall i :: 0 <= i < |pids| ==> entries[i] == Entry(repo, asg, pids[i])
  }

  // ----- How it is collected -----

  /** Later levels overwrite earlier ones. */
  method RecordScopes(ids: seq<string>, target: Target, before: map<string, Target>) returns (scopes: map<string, Target>)
    ensures scopes.Keys == before.Keys + set pid | pid in ids
    ensures forall pid :: pid in scopes ==> scopes[pid] == if pid in ids then target else before[pid]
  {
    scopes := before;
    for i := 0 to |ids|
      invariant scopes.Keys == before.Keys + set pid | pid in ids[..i]
      invariant forall pid :: pid in scopes ==> scopes[pid] == if pid in ids[..i] then target else before[pid]
    {
      assert ids[..i + 1] == ids[..i] + [ids[i]];
      scopes := scopes[ids[i] := target];
    }
    assert ids[..|ids|] == ids;
  }

  /** Each id once, where it stands first. */
  function FirstOccurrences(ids: seq<string>): (unique: seq<string>)
    ensures Distinct(unique) && forall pid :: pid in unique <==> pid in ids
  {
    if ids == [] then []
    else
      var before, last := FirstOccurrences(ids[..|ids| - 1]), ids[|ids| - 1];
      assert ids == ids[..|ids| - 1] + [last];
      if last in before then before else before + [last]
  }

  method UniqueIds(ids: seq<string>) returns (unique: seq<string>)
    ensures unique == FirstOccurrences(ids)
  {
    var seen: set<string> := {};
    unique := [];
    for i := 0 to |ids|
      invariant unique == FirstOccurrences(ids[..i])
      invariant forall pid :: pid in seen <==> pid in unique
    {
      assert ids[..i + 1][..i] == ids[..i];
      if ids[i] !in seen {
        seen := seen + {ids[i]};
        unique := unique + [ids[i]];
      }
    }
    assert ids[..|ids|] == ids;
  }

  method ReadGroupAssignments(repo: Repository, groupIds: seq<string>) returns (r: Option<seq<string>>)
    ensures r == GroupAssignments(repo, groupIds)
  {
    var all: seq<string> := [];
    for i := 0 to |groupIds|
      invariant GroupAssignments(repo, groupIds[..i]) == Some(all)
    {
      assert groupIds[..i + 1][..i] == groupIds[..i];
      var ga := Assigned(repo, Group, groupIds[i]);
      if ga.None? {
        GroupFailureStays(repo, groupIds, i + 1);
        return None;
      }
      all := all + ga.value;
    }
    assert groupIds[..|groupIds|] == groupIds;
    return Some(all);
  }

  lemma {:induction false} GroupFailureStays(repo: Repository, groupIds: seq<string>, n: nat)
    requires n <= |groupIds| && GroupAssignments(repo, groupIds[..n]).None?
    ensures GroupAssignments(repo, groupIds).None?
    decreases |groupIds| - n
  {
    if n == |groupIds| {
      assert groupIds[..n] == groupIds;
    } else {
      assert groupIds[..n + 1][..n] == groupIds[..n];
      GroupFailureStays(repo, groupIds, n + 1);
    }
  }

  /** Fails exactly where one of the assignment queries fails; unusable policies are skipped. */
  method CollectPoliciesByType(repo: Repository, orgId: string, deviceId: string, groupIds: seq<string>)
    returns (r: Option<map<string, seq<Scoped>>>, ghost unique: seq<string>)
    ensures r.None? <==> ReadAssignments(repo, orgId, deviceId, groupIds).None?
    ensures r.Some? ==> IsCollection(repo, ReadAssignments(repo, orgId, deviceId, groupIds).value, unique, r.value)
  {
    unique := [];
    var org := Assigned(repo, Org, orgId);
    if org.None? {
      return None, [];
    }
    var groups := ReadGroupAssignments(repo, groupIds);
    if groups.None? {
      return None, [];
    }
    var device := Assigned(repo, Device, deviceId);
    if device.None? {
      return None, [];
    }
    ghost var asg := Assignments(org.value, groups.value, device.value);
    var scopes := RecordScopes(org.value, Org, map[]);
    scopes := RecordScopes(groups.value, Group, scopes);
    scopes := RecordScopes(device.value, Device, scopes);
    var ids := UniqueIds(org.value + groups.value + device.value);
    unique := ids;
    var byType := LoadPolicies(repo, asg, ids, scopes);
    r := Some(byType);
  }

  method LoadPolicies(repo: Repository, ghost asg: Assignments, ids: seq<string>, scopes: map<string, Target>)
    returns (byType: map<string, seq<Scoped>>)
    requires forall pid :: pid in ids ==> pid in asg.All() && pid in scopes && scopes[pid] == asg.ScopeOf(pid)
    ensures Collected(repo, asg, ids, byType)
  {
    byType := map[];
    for i := 0 to |ids|
      invariant Collected(repo, asg, ids[..i], byType)
    {
      var pid := ids[i];
      assert ids[..i + 1] == ids[..i] + [pid];
      CollectedGrows(repo, asg, ids[..i], pid, byType);
      if pid in repo.policies && repo.policies[pid].isActive && pid in repo.latestVersions {
        var entry := Scoped(repo.policies[pid], repo.latestVersions[pid], scopes[pid]);
        byType := Appended(byType, entry.policy.policyType, entry);
      }
    }
    assert ids[..|ids|] == ids;
  }

  function Appended(byType: map<string, seq<Scoped>>, policyType: string, entry: Scoped): map<string, seq<Scoped>> {
    byType[policyType := (if policyType in byType then byType[policyType] else []) + [entry]]
  }

  lemma CollectedGrows(repo: Repository, asg: Assignments, ids: seq<string>, pid: string, byType: map<string, seq<Scoped>>)
    requires forall id :: id in ids + [pid] ==> id in asg.All()
    requires Collected(repo, asg, ids, byType)
    ensures Collected(repo, asg, ids + [pid],
      if Applies(repo, pid) then Appended(byType, repo.policies[pid].policyType, Entry(repo, asg, pid)) else byType)
  {
    forall t
      ensures CollectedUnder(repo, asg, OfType(repo, ids + [pid], t),
        if Applies(repo, pid) then Appended(byType, repo.policies[pid].policyType, Entry(repo, asg, pid)) else byType, t)
    {
      OfTypeGrows(repo, ids, pid, t);
      TypeGrows(repo, asg, OfType(repo, ids, t), pid, byType, t);
    }
  }

  lemma OfTypeGrows(repo: Repository, ids: seq<string>, pid: string, t: string)
    ensures OfType(repo, ids + [pid], t)
         == if Applies(repo, pid) && repo.policies[pid].policyType == t then OfType(repo, ids, t) + [pid] else OfType(repo, ids, t)
  {
    var all := ids + [pid];
    assert all[..|all| - 1] == ids && all[|all| - 1] == pid;
  }

  lemma TypeGrows(repo: Repository, asg: Assignments, pids: seq<string>, pid: string, byType: map<string, seq<Scoped>>, t: string)
    requires forall id :: id in pids + [pid] ==> id in asg.All()
    requires forall id :: id in pids ==> Applies(repo, id)
    requires CollectedUnder(repo, asg, pids, byType, t)
    ensures !Applies(repo, pid) || repo.policies[pid].policyType == t || CollectedUnder(repo, asg, pids, Appended(byType, repo.policies[pid].policyType, Entry(repo, asg, pid)), t)
    ensures Applies(repo, pid) && repo.policies[pid].policyType == t ==>
      CollectedUnder(repo, asg, pids + [pid], Appended(byType, t, Entry(repo, asg, pid)), t)
  {
    assert pid in pids + [pid];
  }

  // ----- The effective policies -----

  /** One resolved policy for every type that has a policy, and none for other types. */
  ghost predicate ResolvesAll(byType: map<string, seq<Scoped>>, types: seq<string>, resolved: seq<Resolved>) {
    && Distinct(types) && (forall t :: t in types <==> t in byType)
    && |resolved| == |types| && forall i :: 0 <= i < |types| ==> Resolves(byType[types[i]], Some(resolved[i]))
  }

  method GetEffectivePolicies(repo: Repository, orgId: string, deviceId: string, groupIds: seq<string>)
    returns (r: Option<seq<Resolved>>, ghost unique: seq<string>, ghost byType: map<string, seq<Scoped>>, ghost types: seq<string>)
    ensures r.None? <==> ReadAssignments(repo, orgId, deviceId, groupIds).None?
    ensures r.Some? ==> IsCollection(repo, ReadAssignments(repo, orgId, deviceId, groupIds).value, unique, byType)
    ensures r.Some? ==> ResolvesAll(byType, types, r.value)
  {
    types, byType, unique := [], map[], [];
    var collected;
    collected, unique := CollectPoliciesByType(repo, orgId, deviceId, groupIds);
    if collected.None? {
      return None, unique, byType, types;
    }
    byType := collected.value;
    var resolved: seq<Resolved> := [];
    var left := collected.value.Keys;
    while left != {}
      invariant left <= byType.Keys
      invariant Distinct(types) && forall t :: t in types <==> t in byType && t !in left
      invariant |resolved| == |types| && forall i :: 0 <= i < |types| ==> Resolves(byType[types[i]], Some(resolved[i]))
    {
      var t :| t in left;
      left := left - {t};
      CollectedTypesHavePolicies(repo, ReadAssignments(repo, orgId, deviceId, groupIds).value, unique, byType, t);
      var rp := ResolveType(collected.value[t]);
      resolved, types := resolved + [rp], types + [t];
    }
    r := Some(resolved);
  }

  ghost predicate IsCollection(repo: Repository, asg: Assignments, unique: seq<string>, byType: map<string, seq<Scoped>>) {
    unique == FirstOccurrences(asg.All()) && Collected(repo, asg, unique, byType)
  }

  lemma CollectedTypesHavePolicies(repo: Repository, asg: Assignments, unique: seq<string>, byType: map<string, seq<Scoped>>, t: string)
    requires IsCollection(repo, asg, unique, byType) && t in byType
    ensures byType[t] != []
  {
    assert CollectedUnder(repo, asg, OfType(repo, unique, t), byType, t);
  }

  method ResolveType(policies: seq<Scoped>) returns (r: Resolved)
    requires policies != []
    ensures Resolves(policies, Some(r))
  {
    var a := new Scoped[|policies|](i requires 0 <= i < |policies| => policies[i]);
    assert a[..] == policies;
    var rp := ResolveConflicts(a);
    assert IsOrderOf(a[..], policies);
    r := rp.value;
  }

  /** Every applying policy is collected under its type exactly once, at the most specific level it is assigned at. */
  lemma EveryApplyingPolicyIsCollected(repo: Repository, asg: Assignments, unique: seq<string>, byType: map<string, seq<Scoped>>, pid: string)
    returns (i: nat)
    requires IsCollection(repo, asg, unique, byType) && pid in asg.All() && Applies(repo, pid)
    ensures var t := repo.policies[pid].policyType;
      && t in byType && i < |byType[t]|
      && byType[t][i] == Scoped(repo.policies[pid], repo.latestVersions[pid],
                                if pid in asg.device then Device else if pid in asg.groups then Group else Org)
  {
    var t := repo.policies[pid].policyType;
    assert pid in OfType(repo, unique, t);
    i :| 0 <= i < |OfType(repo, unique, t)| && OfType(repo, unique, t)[i] == pid;
    assert CollectedUnder(repo, asg, OfType(repo, unique, t), byType, t);
  }

  /** And nothing else is collected: every entry is an assigned, active policy of that type with its latest version. */
  lemma OnlyApplyingPoliciesAreCollected(repo: Repository, asg: Assignments, unique: seq<string>, byType: map<string, seq<Scoped>>, t: string, i: nat)
    returns (pid: string)
    requires IsCollection(repo, asg, unique, byType) && t in byType && i < |byType[t]|
    ensures pid in asg.org || pid in asg.groups || pid in asg.device
    ensures pid in repo.policies && repo.policies[pid].isActive && repo.policies[pid].policyType == t && pid in repo.latestVersions
    ensures byType[t][i].policy == repo.policies[pid] && byType[t][i].payload == repo.latestVersions[pid]
  {
    var pids := OfType(repo, unique, t);
    assert CollectedUnder(repo, asg, pids, byType, t);
    pid := pids[i];
    assert pid in pids && pid in asg.All();
  }

  // ----- The order of the rows -----

  /** The policy is taken whole for its priority. */
  predicate ByPriority(p: Policy) {
    p.resolution.LeastRestrictive? || p.resolution.Unspecified?
  }

  /**
   Two policies of equal priority assigned to the device alone are collected in the order of their rows, which is an
   order of precedence and left as it is: the row that is read first decides.
   */
  lemma FirstRowDecides(repo: Repository, p: string, q: string, unique: seq<string>, byType: map<string, seq<Scoped>>)
    requires p != q && Applies(repo, p) && Applies(repo, q) && IsCollection(repo, Assignments([], [], [p, q]), unique, byType)
    requires repo.policies[p].policyType == repo.policies[q].policyType && repo.policies[p].priority == repo.policies[q].priority
    requires ByPriority(repo.policies[p])
    ensures var t := repo.policies[p].policyType;
      && t in byType && |byType[t]| == 2 && Sorted(byType[t])
      && forall r :: Outcome(byType[t], r) <==> r == Resolved(repo.policies[p], repo.latestVersions[p])
  {
    CollectedTwo(repo, p, q, unique, byType);
  }

  lemma CollectedTwo(repo: Repository, p: string, q: string, unique: seq<string>, byType: map<string, seq<Scoped>>)
    requires p != q && Applies(repo, p) && Applies(repo, q) && IsCollection(repo, Assignments([], [], [p, q]), unique, byType)
    requires repo.policies[p].policyType == repo.policies[q].policyType
    ensures var t := repo.policies[p].policyType;
      t in byType && byType[t] == [Scoped(repo.policies[p], repo.latestVersions[p], Device), Scoped(repo.policies[q], repo.latestVersions[q], Device)]
  {
    var asg, t := Assignments([], [], [p, q]), repo.policies[p].policyType;
    assert asg.All() == [p, q];
    FirstOccurrencesOfTwo(p, q);
    OfTypeOfTwo(repo, p, q);
    assert [p] + [q] == [p, q];
    assert CollectedUnder(repo, asg, OfType(repo, unique, t), byType, t);
  }

  lemma OfTypeOfTwo(repo: Repository, p: string, q: string)
    requires Applies(repo, p) && Applies(repo, q) && repo.policies[p].policyType == repo.policies[q].policyType
    ensures OfType(repo, [p] + [q], repo.policies[p].policyType) == [p] + [q]
  {
    OfTypeOfOne(repo, p);
    OfTypeGrows(repo, [p], q, repo.policies[p].policyType);
  }

  lemma OfTypeOfOne(repo: Repository, p: string)
    requires Applies(repo, p)
    ensures OfType(repo, [p], repo.policies[p].policyType) == [p]
  {
    OfTypeGrows(repo, [], p, repo.policies[p].policyType);
    assert [] + [p] == [p];
  }

  lemma FirstOccurrencesOfTwo(p: string, q: string)
    requires p != q
    ensures FirstOccurrences([p, q]) == [p, q]
  {
    assert [p, q][..1] == [p] && [p][..0] == [];
    assert FirstOccurrences([p]) == [p];
  }
}
