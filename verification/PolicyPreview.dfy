/** The merge that also reports, key by key, which policy its value came from. */
module PolicyPreview {
  import opened PolicyMerge

  /** The reason texts of the report. */
  datatype Reason = OnlyPolicy | OnlySource | MostRestrictiveValue | DeviceLevelWins | OrgLevelWins | HighestPriority | HighestPriorityOf(priority: int)

  datatype ConflictDetail = ConflictDetail(key: string, winningValue: Value, winningPolicy: string, winningScope: Target, reason: Reason, candidateCount: nat)

  /** Policy j is the earliest to hold the merged value of the key. */
  ghost predicate Supplies(policies: seq<Scoped>, key: string, merged: Value, j: nat) {
    && j < |policies| && key in policies[j].payload && policies[j].payload[key] == merged
    && forall i :: 0 <= i < j && key in policies[i].payload ==> policies[i].payload[key] != merged
  }

  /** The recorded winner of every merged key is the earliest policy that holds its value. */
  ghost predicate WinnersFor(policies: seq<Scoped>, merged: Payload, winners: map<string, Scoped>) {
    && winners.Keys == merged.Keys
    && forall key :: key in merged ==> WinnerFor(policies, key, merged[key], winners[key])
  }

  ghost predicate WinnerFor(policies: seq<Scoped>, key: string, merged: Value, winner: Scoped) {
    exists j: nat :: Supplies(policies, key, merged, j) && policies[j] == winner
  }

  /** What is reported of a key: its merged value, the earliest policy holding it, and how many policies hold the key. */
  ghost predicate Reports(policies: seq<Scoped>, merged: Payload, d: ConflictDetail) {
    && d.key in merged && d.winningValue == merged[d.key]
    && d.candidateCount == |ValuesFor(policies, d.key)|
    && d.reason == (if d.candidateCount == 1 then OnlySource else MostRestrictiveValue)
    && exists w: Scoped :: WinnerFor(policies, d.key, d.winningValue, w) && d.winningPolicy == w.policy.name && d.winningScope == w.scope
  }

  /** One report for each key. */
  ghost predicate OnePerKey(keys: set<string>, conflicts: seq<ConflictDetail>) {
    && (forall key :: key in keys <==> exists d :: d in conflicts && d.key == key)
    && forall i, j :: 0 <= i < j < |conflicts| ==> conflicts[i].key != conflicts[j].key
  }

  lemma OnePerKeyGrows(keys: set<string>, conflicts: seq<ConflictDetail>, d: ConflictDetail)
    requires OnePerKey(keys, conflicts) && d.key !in keys
    ensures OnePerKey(keys + {d.key}, conflicts + [d])
  {
    assert forall i :: 0 <= i < |conflicts| ==> conflicts[i] in conflicts;
    assert forall key :: key in keys ==> exists e :: e in conflicts && e.key == key;
    assert forall e :: e in conflicts ==> e in conflicts + [d];
    assert (conflicts + [d])[|conflicts|] == d;
  }

  method MergeRestrictiveWithDetails(policies: seq<Scoped>) returns (merged: Payload, conflicts: seq<ConflictDetail>)
    ensures IsMerge(policies, merged)
    ensures OnePerKey(merged.Keys, conflicts) && AllReport(policies, merged, conflicts)
  {
    var winners: map<string, Scoped>;
    merged, winners := MergeWithWinners(policies);
    var keyCounts := CountKeys(policies);
    conflicts := [];
    var keys := merged.Keys;
    while keys != {}
      invariant keys <= merged.Keys
      invariant OnePerKey(merged.Keys - keys, conflicts)
      invariant AllReport(policies, merged, conflicts)
    {
      var key :| key in keys;
      var d := Report(policies, merged, winners, keyCounts, key);
      OnePerKeyGrows(merged.Keys - keys, conflicts, d);
      Removed(merged.Keys, keys, key);
      AllReportGrows(policies, merged, conflicts, d);
      keys, conflicts := keys - {key}, conflicts + [d];
    }
    assert merged.Keys - keys == merged.Keys;
  }

  ghost predicate AllReport(policies: seq<Scoped>, merged: Payload, conflicts: seq<ConflictDetail>) {
    forall d :: d in conflicts ==> Reports(policies, merged, d)
  }

  lemma AllReportGrows(policies: seq<Scoped>, merged: Payload, conflicts: seq<ConflictDetail>, d: ConflictDetail)
    requires AllReport(policies, merged, conflicts) && Reports(policies, merged, d)
    ensures AllReport(policies, merged, conflicts + [d])
  {
  }

  lemma Removed(all: set<string>, keys: set<string>, key: string)
    requires keys <= all && key in keys
    ensures all - keys + {key} == all - (keys - {key})
  {
  }

  method Report(ghost policies: seq<Scoped>, merged: Payload, winners: map<string, Scoped>, keyCounts: map<string, nat>, key: string)
    returns (d: ConflictDetail)
    requires IsMerge(policies, merged) && WinnersFor(policies, merged, winners) && Counts(policies, keyCounts) && key in merged
    ensures d.key == key && Reports(policies, merged, d)
  {
    var w := winners[key];
    var reason := MostRestrictiveValue;
    if keyCounts[key] == 1 {
      reason := OnlySource;
    }
    d := ConflictDetail(key, merged[key], w.policy.name, w.scope, reason, keyCounts[key]);
    assert WinnerFor(policies, d.key, d.winningValue, w);
  }

  method MergeWithWinners(policies: seq<Scoped>) returns (merged: Payload, winners: map<string, Scoped>)
    ensures IsMerge(policies, merged) && WinnersFor(policies, merged, winners)
  {
    merged, winners := map[], map[];
    for n := 0 to |policies|
      invariant IsMerge(policies[..n], merged) && WinnersFor(policies[..n], merged, winners)
    {
      merged, winners := MergeOneWithWinners(policies[..n], policies[n], merged, winners);
      assert policies[..n] + [policies[n]] == policies[..n + 1];
    }
    assert policies[..|policies|] == policies;
  }

  method MergeOneWithWinners(ghost policies: seq<Scoped>, p: Scoped, before: Payload, winnersBefore: map<string, Scoped>)
    returns (merged: Payload, winners: map<string, Scoped>)
    requires IsMerge(policies, before) && WinnersFor(policies, before, winnersBefore)
    ensures IsMerge(policies + [p], merged) && WinnersFor(policies + [p], merged, winners)
  {
    merged, winners := before, winnersBefore;
    var keys := p.payload.Keys;
    while keys != {}
      invariant keys <= p.payload.Keys && MergedSoFar(policies, p, before, keys, merged)
      invariant WinnersSoFar(before, winnersBefore, p, keys, merged, winners)
    {
      var key :| key in keys;
      merged, winners := MergeKeyWithWinner(policies, before, winnersBefore, p, keys, key, merged, winners);
      keys := keys - {key};
    }
    MergeGrows(policies, p, before, merged);
    WinnersGrow(policies, p, before, winnersBefore, merged, winners);
  }

  ghost predicate WinnersSoFar(before: Payload, winnersBefore: map<string, Scoped>, p: Scoped, keys: set<string>, merged: Payload, winners: map<string, Scoped>)
    requires winnersBefore.Keys == before.Keys && merged.Keys == before.Keys + (p.payload.Keys - keys)
  {
    && winners.Keys == merged.Keys
    && forall key :: key in merged ==> winners[key] == WinnerStep(before, winnersBefore, p, keys, key)
  }

  method MergeKeyWithWinner(ghost policies: seq<Scoped>, ghost before: Payload, ghost winnersBefore: map<string, Scoped>,
                            p: Scoped, ghost keys: set<string>, key: string, merged: Payload, winners: map<string, Scoped>)
    returns (merged': Payload, winners': map<string, Scoped>)
    requires winnersBefore.Keys == before.Keys && key in keys && keys <= p.payload.Keys
    requires MergedSoFar(policies, p, before, keys, merged) && WinnersSoFar(before, winnersBefore, p, keys, merged, winners)
    ensures MergedSoFar(policies, p, before, keys - {key}, merged')
    ensures WinnersSoFar(before, winnersBefore, p, keys - {key}, merged', winners')
  {
    var v := p.payload[key];
    if key !in merged {
      OneMore(policies, before, winnersBefore, p, keys, key, merged, winners, merged[key := v], winners[key := p]);
      return merged[key := v], winners[key := p];
    }
    var newVal := MergeValue(key, merged[key], v);
    if newVal != merged[key] {
      OneMore(policies, before, winnersBefore, p, keys, key, merged, winners, merged[key := newVal], winners[key := p]);
      return merged[key := newVal], winners[key := p];
    }
    OneMore(policies, before, winnersBefore, p, keys, key, merged, winners, merged, winners);
    return merged, winners;
  }

  lemma OneMore(policies: seq<Scoped>, before: Payload, winnersBefore: map<string, Scoped>, p: Scoped, keys: set<string>, key: string,
                merged: Payload, winners: map<string, Scoped>, merged': Payload, winners': map<string, Scoped>)
    requires winnersBefore.Keys == before.Keys && key in keys && keys <= p.payload.Keys
    requires MergedSoFar(policies, p, before, keys, merged) && WinnersSoFar(before, winnersBefore, p, keys, merged, winners)
    requires merged'.Keys == merged.Keys + {key} == winners'.Keys
    requires forall k :: k in merged && k != key ==> merged'[k] == merged[k] && winners'[k] == winners[k]
    requires merged'[key] == Step(before, p, keys - {key}, key)
    requires winners'[key] == WinnerStep(before, winnersBefore, p, keys - {key}, key)
    ensures MergedSoFar(policies, p, before, keys - {key}, merged')
    ensures WinnersSoFar(before, winnersBefore, p, keys - {key}, merged', winners')
  {
    forall k | k in merged'
      ensures merged'[k] == Step(before, p, keys - {key}, k)
      ensures winners'[k] == WinnerStep(before, winnersBefore, p, keys - {key}, k)
    {
      if k != key {
        assert merged[k] == Step(before, p, keys, k);
      }
    }
  }

  lemma WinnersGrow(policies: seq<Scoped>, p: Scoped, before: Payload, winnersBefore: map<string, Scoped>, merged: Payload, winners: map<string, Scoped>)
    requires IsMerge(policies, before) && WinnersFor(policies, before, winnersBefore)
    requires MergedSoFar(policies, p, before, {}, merged) && WinnersSoFar(before, winnersBefore, p, {}, merged, winners)
    ensures WinnersFor(policies + [p], merged, winners)
  {
    forall key | key in merged
      ensures WinnerFor(policies + [p], key, merged[key], winners[key])
    {
      assert merged[key] == Step(before, p, {}, key);
      WinnerGrows(policies, p, before, winnersBefore, key);
    }
  }

  /** Who supplies a key's value after one more policy, some of whose keys may be still to come. */
  function WinnerStep(before: Payload, winners: map<string, Scoped>, p: Scoped, keys: set<string>, key: string): Scoped
    requires (key in before || key in p.payload) && winners.Keys == before.Keys
  {
    if key !in before || (key in p.payload && key !in keys && MergeValue(key, before[key], p.payload[key]) != before[key]) then p
    else winners[key]
  }

  lemma WinnerGrows(policies: seq<Scoped>, p: Scoped, before: Payload, winners: map<string, Scoped>, key: string)
    requires IsMerge(policies, before) && WinnersFor(policies, before, winners)
    requires key in before || key in p.payload
    ensures WinnerFor(policies + [p], key, Step(before, p, {}, key), WinnerStep(before, winners, p, {}, key))
  {
    if WinnerStep(before, winners, p, {}, key) == p && (key !in before || Step(before, p, {}, key) != before[key]) {
      LastSupplies(policies, p, before, key);
    } else {
      EarlierSupplies(policies, p, key, before[key], winners[key]);
    }
  }

  lemma LastSupplies(policies: seq<Scoped>, p: Scoped, before: Payload, key: string)
    requires IsMerge(policies, before) && key in p.payload
    requires key in before ==> MergeValue(key, before[key], p.payload[key]) != before[key]
    ensures WinnerFor(policies + [p], key, Step(before, p, {}, key), p)
  {
    var value := Step(before, p, {}, key);
    if key in before {
      MergeTakesTheHigher(key, before[key], p.payload[key]);
    }
    forall i | 0 <= i < |policies| && key in policies[i].payload
      ensures policies[i].payload[key] != value
    {
      EarlierIsLower(policies, p, before, key, i);
    }
    assert Supplies(policies + [p], key, value, |policies|);
  }

  lemma EarlierSupplies(policies: seq<Scoped>, p: Scoped, key: string, value: Value, winner: Scoped)
    requires WinnerFor(policies, key, value, winner)
    ensures WinnerFor(policies + [p], key, value, winner)
  {
    var j: nat :| Supplies(policies, key, value, j) && policies[j] == winner;
    assert Supplies(policies + [p], key, value, j) && (policies + [p])[j] == winner;
  }

  /** A value that replaces the merged one was held by no earlier policy. */
  lemma EarlierIsLower(policies: seq<Scoped>, p: Scoped, before: Payload, key: string, i: nat)
    requires IsMerge(policies, before) && i < |policies| && key in policies[i].payload && key in p.payload
    requires key in before ==> MergeValue(key, before[key], p.payload[key]) != before[key]
    ensures key in before && policies[i].payload[key] != p.payload[key]
    ensures policies[i].payload[key] != MergeValue(key, before[key], p.payload[key])
  {
    assert key in KeysOf(policies);
    var values := ValuesFor(policies, key);
    MergeTakesTheHigher(key, before[key], p.payload[key]);
    MergedIsWinner(key, values);
    assert policies[i] in policies;
    ValuesForMembers(policies, key, policies[i].payload[key]);
  }

  /** How many policies hold each key. */
  method CountKeys(policies: seq<Scoped>) returns (keyCounts: map<string, nat>)
    ensures Counts(policies, keyCounts)
  {
    keyCounts := map[];
    for n := 0 to |policies|
      invariant Counts(policies[..n], keyCounts)
    {
      var before, keys := keyCounts, policies[n].payload.Keys;
      while keys != {}
        invariant keys <= policies[n].payload.Keys
        invariant keyCounts.Keys == before.Keys + (policies[n].payload.Keys - keys)
        invariant forall key :: key in keyCounts ==>
          keyCounts[key] == (if key in before then before[key] else 0) + (if key in policies[n].payload && key !in keys then 1 else 0)
      {
        var key :| key in keys;
        keys := keys - {key};
        keyCounts := keyCounts[key := (if key in keyCounts then keyCounts[key] else 0) + 1];
      }
      CountsGrow(policies[..n], policies[n], before, keyCounts);
      assert policies[..n] + [policies[n]] == policies[..n + 1];
    }
    assert policies[..|policies|] == policies;
  }

  ghost predicate Counts(policies: seq<Scoped>, keyCounts: map<string, nat>) {
    && keyCounts.Keys == KeysOf(policies)
    && forall key :: key in keyCounts ==> keyCounts[key] == |ValuesFor(policies, key)|
  }

  lemma CountsGrow(policies: seq<Scoped>, p: Scoped, before: map<string, nat>, after: map<string, nat>)
    requires Counts(policies, before)
    requires after.Keys == before.Keys + p.payload.Keys
    requires forall key :: key in after ==>
      after[key] == (if key in before then before[key] else 0) + (if key in p.payload then 1 else 0)
    ensures Counts(policies + [p], after)
  {
    forall key
      ensures key in KeysOf(policies + [p]) <==> key in after
      ensures key in after ==> after[key] == |ValuesFor(policies + [p], key)|
    {
      KeyHasValues(policies + [p], key);
      KeyHasValues(policies, key);
      ValuesGrow(policies, p, key);
    }
  }
}
