/** The order of precedence in terms of priorities and scopes, and who wins by it. */
module PolicyPrecedence {
  import opened Common
  import opened PolicyMerge
  import opened PolicyPreview
  import opened PolicyResolver

  predicate MoreSpecific(a: Target, b: Target) {
    match a
    case Device => b != Device
    case Group => b == Org || b.Elsewhere?
    case Org => b.Elsewhere?
    case Elsewhere(_) => false
  }

  /** Higher priorities stand first, more specific scopes first among equal ones. */
  ghost predicate ByPriorityThenScope(order: seq<Scoped>) {
    forall i, j :: 0 <= i < j < |order| ==>
      && order[i].policy.priority >= order[j].policy.priority
      && (order[i].policy.priority == order[j].policy.priority ==> !MoreSpecific(order[j].scope, order[i].scope))
  }

  lemma SortedIsByPriorityThenScope(order: seq<Scoped>)
    ensures Sorted(order) <==> ByPriorityThenScope(order)
  {
  }

  /** No policy that counts has a higher priority, and none of the same priority is more specific. */
  ghost predicate RanksHighest(policies: seq<Scoped>, p: Scoped) {
    p in policies && forall q :: q in policies ==>
      q.policy.priority < p.policy.priority || (q.policy.priority == p.policy.priority && !MoreSpecific(q.scope, p.scope))
  }

  /** Of the scope, if any policy is, and then of the highest priority among those of the scope. */
  ghost predicate RanksHighestOf(policies: seq<Scoped>, scope: Target, p: Scoped) {
    if exists q :: q in policies && q.scope == scope
    then p in policies && p.scope == scope && forall q :: q in policies && q.scope == scope ==> q.policy.priority <= p.policy.priority
    else RanksHighest(policies, p)
  }

  lemma FirstRanksHighest(policies: seq<Scoped>, order: seq<Scoped>)
    requires IsOrderOf(order, policies)
    ensures RanksHighest(policies, order[0])
  {
    SameMembers(order, policies, order[0]);
    forall q | q in policies
      ensures !Precedes(q, order[0])
    {
      NothingPrecedesTheFirst(policies, order, q);
    }
  }

  /** The policy of the highest priority, the most specific one among equals, sets the strategy, and wins by default. */
  lemma HighestPriorityWins(policies: seq<Scoped>, order: seq<Scoped>, r: Resolved)
    requires IsOrderOf(order, policies) && Outcome(order, r)
    ensures RanksHighest(policies, order[0])
    ensures order[0].policy.resolution == MostRestrictive ==> r.policy == order[0].policy
    ensures order[0].policy.resolution == LeastRestrictive || order[0].policy.resolution == Unspecified ==>
      r == Resolved(order[0].policy, order[0].payload)
  {
    FirstRanksHighest(policies, order);
  }

  /** Under device_wins the device's highest priority wins, under org_wins the organisation's. */
  lemma HighestOfScopeWins(policies: seq<Scoped>, order: seq<Scoped>, r: Resolved) returns (w: Scoped)
    requires IsOrderOf(order, policies) && Outcome(order, r)
    requires order[0].policy.resolution == DeviceWins || order[0].policy.resolution == OrgWins
    ensures RanksHighestOf(policies, if order[0].policy.resolution == DeviceWins then Device else Org, w)
    ensures r == Resolved(w.policy, w.payload)
  {
    var scope := if order[0].policy.resolution == DeviceWins then Device else Org;
    var k: nat :| FirstInScope(order, scope, k) && r == Resolved(order[k].policy, order[k].payload);
    w := order[k];
    FirstRanksHighest(policies, order);
    SameMembers(order, policies, w);
    forall q | q in policies && q.scope == scope
      ensures w.scope == scope && q.policy.priority <= w.policy.priority
    {
      SameMembers(order, policies, q);
      var i :| 0 <= i < |order| && order[i] == q;
      assert k <= i;
    }
  }

  // ----- What is reported -----

  /** Of the policy taken whole every key is reported once, with its own value, name and scope. */
  ghost predicate ReportsEveryKey(winner: Scoped, reason: Reason, count: nat, conflicts: seq<ConflictDetail>) {
    && (forall key :: key in winner.payload ==> exists d :: d in conflicts && d.key == key)
    && forall d :: d in conflicts ==>
      && d.key in winner.payload && d.winningValue == winner.payload[d.key]
      && d.winningPolicy == winner.policy.name && d.winningScope == winner.scope
      && d.reason == reason && d.candidateCount == count
  }

  /** The report on the winner under a scope strategy. */
  ghost predicate ReportsWinner(w: Scoped, scope: Target, reason: Reason, r: Resolved, count: nat, conflicts: seq<ConflictDetail>) {
    && r == Resolved(w.policy, w.payload)
    && ReportsEveryKey(w, if w.scope == scope then reason else HighestPriority, count, conflicts)
  }

  /**
   One policy is the only one; by default the highest priority is named as the reason; under a scope strategy the scope,
   or the highest priority where no policy has that scope. Every policy counts as a candidate.
   */
  lemma ReasonsAreGiven(order: seq<Scoped>, r: Resolved, conflicts: seq<ConflictDetail>)
    requires order != [] && Outcome(order, r) && Explains(order, r, conflicts)
    ensures |order| == 1 ==> ReportsEveryKey(order[0], OnlyPolicy, 1, conflicts)
    ensures |order| > 1 && (order[0].policy.resolution == LeastRestrictive || order[0].policy.resolution == Unspecified) ==>
      ReportsEveryKey(order[0], HighestPriorityOf(order[0].policy.priority), |order|, conflicts)
    ensures |order| > 1 && order[0].policy.resolution == DeviceWins ==>
      exists w :: w in order && ReportsWinner(w, Device, DeviceLevelWins, r, |order|, conflicts)
    ensures |order| > 1 && order[0].policy.resolution == OrgWins ==>
      exists w :: w in order && ReportsWinner(w, Org, OrgLevelWins, r, |order|, conflicts)
  {
    if |order| > 1 && order[0].policy.resolution == DeviceWins {
      ScopeIsReported(order, Device, DeviceLevelWins, r, conflicts);
    } else if |order| > 1 && order[0].policy.resolution == OrgWins {
      ScopeIsReported(order, Org, OrgLevelWins, r, conflicts);
    }
  }

  lemma ScopeIsReported(order: seq<Scoped>, scope: Target, reason: Reason, r: Resolved, conflicts: seq<ConflictDetail>)
    requires TakesFirst(order, scope, r) && ExplainsScope(order, scope, reason, conflicts)
    ensures exists w :: w in order && ReportsWinner(w, scope, reason, r, |order|, conflicts)
  {
    var w: nat :| FirstInScope(order, scope, w) && r == Resolved(order[w].policy, order[w].payload);
    var v: nat :| FirstInScope(order, scope, v)
      && ReportsWhole(order[v], if order[v].scope == scope then reason else HighestPriority, |order|, conflicts);
    assert v == w;
    assert order[w] in order;
    assert ReportsWinner(order[w], scope, reason, r, |order|, conflicts);
  }

  /** The policies that hold a key, by their places in the order. */
  function Holders(policies: seq<Scoped>, key: string): set<nat> {
    set i: nat | i < |policies| && key in policies[i].payload
  }

  lemma HoldersGrow(policies: seq<Scoped>, key: string)
    requires policies != []
    ensures var front, n := policies[..|policies| - 1], |policies| - 1;
      |Holders(policies, key)| == |Holders(front, key)| + if key in policies[n].payload then 1 else 0
  {
    var front, n := policies[..|policies| - 1], |policies| - 1;
    assert n !in Holders(front, key);
    assert Holders(policies, key) == Holders(front, key) + if key in policies[n].payload then {n} else {};
  }

  lemma {:induction false} ValuesAreCounted(policies: seq<Scoped>, key: string)
    ensures |ValuesFor(policies, key)| == |Holders(policies, key)|
  {
    if policies != [] {
      var front := policies[..|policies| - 1];
      ValuesAreCounted(front, key);
      HoldersGrow(policies, key);
    } else {
      assert Holders(policies, key) == {};
    }
  }

  /** Of a merged key: its value, the earliest policy that holds it, how many policies hold the key, and whether only one does. */
  lemma MergeIsReported(policies: seq<Scoped>, merged: Payload, d: ConflictDetail) returns (j: nat)
    requires IsMerge(policies, merged) && Reports(policies, merged, d)
    ensures d.key in merged && d.winningValue == merged[d.key]
    ensures d.candidateCount == |Holders(policies, d.key)|
    ensures d.reason == if |Holders(policies, d.key)| == 1 then OnlySource else MostRestrictiveValue
    ensures j in Holders(policies, d.key) && policies[j].payload[d.key] == merged[d.key]
    ensures forall i :: i in Holders(policies, d.key) && i < j ==> policies[i].payload[d.key] != merged[d.key]
    ensures d.winningPolicy == policies[j].policy.name && d.winningScope == policies[j].scope
  {
    ValuesAreCounted(policies, d.key);
    var w: Scoped :| WinnerFor(policies, d.key, d.winningValue, w) && d.winningPolicy == w.policy.name && d.winningScope == w.scope;
    j :| Supplies(policies, d.key, d.winningValue, j) && policies[j] == w;
  }
}
