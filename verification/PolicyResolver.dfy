/** Which policy of a type applies to a device when several are assigned to it. */
module PolicyResolver {
  import opened Common
  import opened PolicyMerge
  import opened PolicyPreview

  datatype Resolved = Resolved(policy: Policy, payload: Payload)

  // ----- The order of precedence -----

  function ScopeRank(scope: Target): nat {
    match scope
    case Device => 3
    case Group => 2
    case Org => 1
    case Elsewhere(_) => 0
  }

  /** p comes before q: higher priority first, the more specific scope among equals. */
  predicate Precedes(p: Scoped, q: Scoped) {
    p.policy.priority > q.policy.priority
    || (p.policy.priority == q.policy.priority && ScopeRank(p.scope) > ScopeRank(q.scope))
  }

  predicate Tie(p: Scoped, q: Scoped) {
    !Precedes(p, q) && !Precedes(q, p)
  }

  ghost predicate Sorted(policies: seq<Scoped>) {
    forall i, j :: 0 <= i < j < |policies| ==> !Precedes(policies[j], policies[i])
  }

  /** The library sort, in place, by insertion as it sorts short lists; policies already in order are left as they are. */
  method SortPolicies(a: array<Scoped>)
    modifies a
    ensures Sorted(a[..]) && multiset(a[..]) == multiset(old(a[..]))
    ensures Sorted(old(a[..])) ==> a[..] == old(a[..])
  {
    for n := 0 to a.Length
      invariant Sorted(a[..n]) && multiset(a[..]) == multiset(old(a[..]))
      invariant Sorted(old(a[..])) ==> a[..] == old(a[..])
    {
      Insert(a, n);
    }
    assert a[..a.Length] == a[..];
  }

  method Insert(a: array<Scoped>, n: nat)
    requires n < a.Length && Sorted(a[..n])
    modifies a
    ensures Sorted(a[..n + 1]) && multiset(a[..]) == multiset(old(a[..]))
    ensures n == 0 || !Precedes(old(a[n]), old(a[n - 1])) ==> a[..] == old(a[..])
  {
    if n == 0 || !Precedes(a[n], a[n - 1]) {
      StaysSorted(a[..n + 1]);
      return;
    }
    MoveDown(a, n);
  }

  lemma StaysSorted(s: seq<Scoped>)
    requires s != [] && Sorted(s[..|s| - 1])
    requires |s| == 1 || !Precedes(s[|s| - 1], s[|s| - 2])
    ensures Sorted(s)
  {
    var before := s[..|s| - 1];
    forall i, j | 0 <= i < j < |s|
      ensures !Precedes(s[j], s[i])
    {
      if j < |s| - 1 {
        assert !Precedes(before[j], before[i]);
      } else if i < |s| - 2 {
        assert !Precedes(before[|s| - 2], before[i]);
      }
    }
  }

  method MoveDown(a: array<Scoped>, n: nat)
    requires n < a.Length && Sorted(a[..n])
    modifies a
    ensures Sorted(a[..n + 1]) && multiset(a[..]) == multiset(old(a[..]))
  {
    var i := n;
    while i > 0 && Precedes(a[i], a[i - 1])
      invariant 0 <= i <= n
      invariant forall k, l :: 0 <= k < l <= n && l != i ==> !Precedes(a[l], a[k])
      invariant multiset(a[..]) == multiset(old(a[..]))
    {
      a[i - 1], a[i] := a[i], a[i - 1];
      i := i - 1;
    }
  }

  // ----- The outcome -----

  /** Position w holds the first policy of the scope, or is 0 where there is none. */
  ghost predicate FirstInScope(order: seq<Scoped>, scope: Target, w: nat) {
    && w < |order|
    && (forall i :: 0 <= i < w ==> order[i].scope != scope)
    && (order[w].scope == scope || (w == 0 && forall i :: 0 <= i < |order| ==> order[i].scope != scope))
  }

  /** The outcome for policies in precedence order; the strategy is that of the first. */
  ghost predicate Outcome(order: seq<Scoped>, r: Resolved)
    requires order != []
  {
    match order[0].policy.resolution
    case MostRestrictive => r.policy == order[0].policy && IsMerge(order, r.payload)
    case DeviceWins => TakesFirst(order, Device, r)
    case OrgWins => TakesFirst(order, Org, r)
    case _ => r == Resolved(order[0].policy, order[0].payload)
  }

  ghost predicate TakesFirst(order: seq<Scoped>, scope: Target, r: Resolved) {
    exists w: nat :: FirstInScope(order, scope, w) && r == Resolved(order[w].policy, order[w].payload)
  }

  /** Whatever the strategy, one precedence order has one outcome: the plain and the detailed resolution agree. */
  lemma OutcomeIsUnique(order: seq<Scoped>, r: Resolved, s: Resolved)
    requires order != [] && Outcome(order, r) && Outcome(order, s)
    ensures r == s
  {
    if order[0].policy.resolution.MostRestrictive? {
      MergeIsUnique(order, r.payload, s.payload);
    }
  }

  /** A single policy is its own outcome under every strategy, so taking it at once changes nothing. */
  lemma OutcomeOfOne(p: Scoped)
    ensures Outcome([p], Resolved(p.policy, p.payload))
  {
    MergeOfOne(p);
    if p.policy.resolution.DeviceWins? || p.policy.resolution.OrgWins? {
      var scope := if p.policy.resolution.DeviceWins? then Device else Org;
      assert FirstInScope([p], scope, 0);
    }
  }

  /** r is an outcome for the policies collected in some order: one already in precedence order is resolved as it stands. */
  ghost predicate Resolves(policies: seq<Scoped>, r: Option<Resolved>) {
    if policies == [] then r.None?
    else r.Some? && exists order: seq<Scoped> :: IsOrderOf(order, policies) && Outcome(order, r.value)
  }

  ghost predicate IsOrderOf(order: seq<Scoped>, policies: seq<Scoped>) {
    order != [] && Sorted(order) && multiset(order) == multiset(policies)
  }

  method ResolveConflicts(a: array<Scoped>) returns (r: Option<Resolved>)
    modifies a
    ensures Sorted(a[..]) && multiset(a[..]) == multiset(old(a[..]))
    ensures Sorted(old(a[..])) ==> a[..] == old(a[..])
    ensures r.None? <==> a.Length == 0
    ensures r.Some? ==> Outcome(a[..], r.value)
  {
    if a.Length == 0 {
      return None;
    }
    if a.Length == 1 {
      OutcomeOfOne(a[0]);
      assert a[..] == [a[0]];
      return Some(Resolved(a[0].policy, a[0].payload));
    }
    SortPolicies(a);
    match a[0].policy.resolution
    case MostRestrictive =>
      var merged := MergeRestrictive(a[..]);
      return Some(Resolved(a[0].policy, merged));
    case DeviceWins =>
      var w := FindScope(a, Device);
      return Some(Resolved(a[w].policy, a[w].payload));
    case OrgWins =>
      var w := FindScope(a, Org);
      return Some(Resolved(a[w].policy, a[w].payload));
    case _ =>
      return Some(Resolved(a[0].policy, a[0].payload));
  }

  method FindScope(a: array<Scoped>, scope: Target) returns (w: nat)
    requires a.Length > 0
    ensures FirstInScope(a[..], scope, w)
  {
    for i := 0 to a.Length
      invariant forall k :: 0 <= k < i ==> a[k].scope != scope
    {
      if a[i].scope == scope {
        return i;
      }
    }
    return 0;
  }

  /** What is reported where one policy's payload is taken whole. */
  ghost predicate ReportsWhole(winner: Scoped, reason: Reason, count: nat, conflicts: seq<ConflictDetail>) {
    && OnePerKey(winner.payload.Keys, conflicts)
    && forall d :: d in conflicts ==> WholeReport(winner, reason, count, d)
  }

  ghost predicate WholeReport(winner: Scoped, reason: Reason, count: nat, d: ConflictDetail) {
    d.key in winner.payload
    && d == ConflictDetail(d.key, winner.payload[d.key], winner.policy.name, winner.scope, reason, count)
  }

  method ReportWhole(winner: Scoped, reason: Reason, count: nat) returns (conflicts: seq<ConflictDetail>)
    ensures ReportsWhole(winner, reason, count, conflicts)
  {
    conflicts := [];
    var keys := winner.payload.Keys;
    while keys != {}
      invariant keys <= winner.payload.Keys && OnePerKey(winner.payload.Keys - keys, conflicts)
      invariant forall d :: d in conflicts ==> WholeReport(winner, reason, count, d)
    {
      var key :| key in keys;
      var d := ConflictDetail(key, winner.payload[key], winner.policy.name, winner.scope, reason, count);
      OnePerKeyGrows(winner.payload.Keys - keys, conflicts, d);
      Removed(winner.payload.Keys, keys, key);
      keys, conflicts := keys - {key}, conflicts + [d];
    }
    assert winner.payload.Keys - keys == winner.payload.Keys;
  }

  /** The reports that go with an outcome: per key of a merge, or of the one policy taken whole. */
  ghost predicate Explains(order: seq<Scoped>, r: Resolved, conflicts: seq<ConflictDetail>)
    requires order != []
  {
    if |order| == 1 then ReportsWhole(order[0], OnlyPolicy, 1, conflicts)
    else
      match order[0].policy.resolution
      case MostRestrictive => OnePerKey(r.payload.Keys, conflicts) && AllReport(order, r.payload, conflicts)
      case DeviceWins => ExplainsScope(order, Device, DeviceLevelWins, conflicts)
      case OrgWins => ExplainsScope(order, Org, OrgLevelWins, conflicts)
      case _ => ReportsWhole(order[0], HighestPriorityOf(order[0].policy.priority), |order|, conflicts)
  }

  ghost predicate ExplainsScope(order: seq<Scoped>, scope: Target, reason: Reason, conflicts: seq<ConflictDetail>) {
    exists w: nat :: FirstInScope(order, scope, w)
      && ReportsWhole(order[w], if order[w].scope == scope then reason else HighestPriority, |order|, conflicts)
  }

  method ResolveConflictsWithDetails(a: array<Scoped>) returns (r: Option<Resolved>, conflicts: seq<ConflictDetail>)
    modifies a
    ensures Sorted(a[..]) && multiset(a[..]) == multiset(old(a[..]))
    ensures Sorted(old(a[..])) ==> a[..] == old(a[..])
    ensures r.None? <==> a.Length == 0
    ensures r.Some? ==> Outcome(a[..], r.value) && Explains(a[..], r.value, conflicts)
  {
    if a.Length == 0 {
      return None, [];
    }
    if a.Length == 1 {
      OutcomeOfOne(a[0]);
      assert a[..] == [a[0]];
      conflicts := ReportWhole(a[0], OnlyPolicy, 1);
      return Some(Resolved(a[0].policy, a[0].payload)), conflicts;
    }
    SortPolicies(a);
    match a[0].policy.resolution
    case MostRestrictive =>
      var merged;
      merged, conflicts := MergeRestrictiveWithDetails(a[..]);
      return Some(Resolved(a[0].policy, merged)), conflicts;
    case DeviceWins =>
      var w;
      w, conflicts := ScopeWithDetails(a, Device, DeviceLevelWins);
      return Some(Resolved(a[w].policy, a[w].payload)), conflicts;
    case OrgWins =>
      var w;
      w, conflicts := ScopeWithDetails(a, Org, OrgLevelWins);
      return Some(Resolved(a[w].policy, a[w].payload)), conflicts;
    case _ =>
      conflicts := ReportWhole(a[0], HighestPriorityOf(a[0].policy.priority), a.Length);
      return Some(Resolved(a[0].policy, a[0].payload)), conflicts;
  }

  method ScopeWithDetails(a: array<Scoped>, scope: Target, levelWins: Reason) returns (w: nat, conflicts: seq<ConflictDetail>)
    requires a.Length > 0
    ensures FirstInScope(a[..], scope, w) && ExplainsScope(a[..], scope, levelWins, conflicts)
  {
    w := FindScope(a, scope);
    var reason := HighestPriority;
    if a[w].scope == scope {
      reason := levelWins;
    }
    conflicts := ReportWhole(a[w], reason, a.Length);
  }

  // ----- What wins -----

  /** The outcome's policy, and the strategy, come from a policy that no other precedes. */
  lemma NothingPrecedesTheFirst(policies: seq<Scoped>, order: seq<Scoped>, p: Scoped)
    requires IsOrderOf(order, policies) && p in policies
    ensures order[0] in policies && !Precedes(p, order[0])
  {
    SameMembers(order, policies, p);
    SameMembers(order, policies, order[0]);
    var i :| 0 <= i < |order| && order[i] == p;
  }

  lemma SameMembers(s: seq<Scoped>, t: seq<Scoped>, p: Scoped)
    requires multiset(s) == multiset(t)
    ensures p in s <==> p in t
  {
    assert p in s <==> p in multiset(s);
    assert p in t <==> p in multiset(t);
  }

  /** Under a scope strategy the winner is of that scope if any policy is, and none of the scope precedes it. */
  lemma ScopeStrategyPicksBestOfScope(policies: seq<Scoped>, order: seq<Scoped>, scope: Target, r: Resolved, p: Scoped)
    requires IsOrderOf(order, policies) && TakesFirst(order, scope, r) && p in policies && p.scope == scope
    ensures exists w: Scoped :: w in policies && w.scope == scope && r == Resolved(w.policy, w.payload) && !Precedes(p, w)
  {
    var w: nat :| FirstInScope(order, scope, w) && r == Resolved(order[w].policy, order[w].payload);
    SameMembers(order, policies, p);
    var i :| 0 <= i < |order| && order[i] == p;
    SameMembers(order, policies, order[w]);
    assert order[w].scope == scope && i >= w;
  }

  // ----- When the outcome does not depend on the sort -----

  /** Only equal policies tie. */
  ghost predicate NoTies(policies: seq<Scoped>) {
    forall i, j :: 0 <= i < j < |policies| && Tie(policies[i], policies[j]) ==> policies[i] == policies[j]
  }

  lemma {:induction false} SortedOrderIsUnique(s: seq<Scoped>, t: seq<Scoped>)
    requires Sorted(s) && Sorted(t) && multiset(s) == multiset(t) && NoTies(s)
    ensures s == t
  {
    assert |multiset(s)| == |s| && |multiset(t)| == |t|;
    if s != [] {
      HeadsAgree(s, t);
      TailsAgree(s, t);
      SortedOrderIsUnique(s[1..], t[1..]);
      assert s == [s[0]] + s[1..] && t == [t[0]] + t[1..];
    }
  }

  lemma HeadsAgree(s: seq<Scoped>, t: seq<Scoped>)
    requires s != [] && t != [] && Sorted(s) && Sorted(t) && multiset(s) == multiset(t) && NoTies(s)
    ensures s[0] == t[0]
  {
    SameMembers(s, t, s[0]);
    SameMembers(s, t, t[0]);
    var i :| 0 <= i < |t| && t[i] == s[0];
    var j :| 0 <= j < |s| && s[j] == t[0];
  }

  lemma TailsAgree(s: seq<Scoped>, t: seq<Scoped>)
    requires s != [] && t != [] && s[0] == t[0] && multiset(s) == multiset(t)
    ensures multiset(s[1..]) == multiset(t[1..])
  {
    assert s == [s[0]] + s[1..] && t == [t[0]] + t[1..];
    assert multiset(s[1..]) == multiset(s) - multiset{s[0]};
    assert multiset(t[1..]) == multiset(t) - multiset{t[0]};
  }

  lemma NoTiesInOrder(policies: seq<Scoped>, order: seq<Scoped>)
    requires NoTies(policies) && multiset(order) == multiset(policies)
    ensures NoTies(order)
  {
    forall i, j | 0 <= i < j < |order| && Tie(order[i], order[j])
      ensures order[i] == order[j]
    {
      SameMembers(order, policies, order[i]);
      SameMembers(order, policies, order[j]);
    }
  }

  /** Without ties every two resolutions of the same policies give the same policy and payload. */
  lemma ResolutionIsDeterministic(policies: seq<Scoped>, r: Option<Resolved>, s: Option<Resolved>)
    requires NoTies(policies) && Resolves(policies, r) && Resolves(policies, s)
    ensures r == s
  {
    if policies != [] {
      var o: seq<Scoped> :| IsOrderOf(o, policies) && Outcome(o, r.value);
      var q: seq<Scoped> :| IsOrderOf(q, policies) && Outcome(q, s.value);
      NoTiesInOrder(policies, o);
      SortedOrderIsUnique(o, q);
      OutcomeIsUnique(o, r.value, s.value);
    }
  }
}
