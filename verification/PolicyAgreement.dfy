/** Exactly when the outcome for several policies does not depend on the order in which they were collected. */
module PolicyAgreement {
  import opened Common
  import opened PolicyMerge
  import opened PolicyResolver

  // ----- Orders with a given policy first -----

  /** No policy precedes it. */
  ghost predicate IsMaximal(policies: seq<Scoped>, p: Scoped) {
    p in policies && forall q :: q in policies ==> !Precedes(q, p)
  }

  lemma FirstIsMaximal(policies: seq<Scoped>, order: seq<Scoped>)
    requires IsOrderOf(order, policies)
    ensures IsMaximal(policies, order[0])
  {
    forall q | q in policies
      ensures !Precedes(q, order[0])
    {
      NothingPrecedesTheFirst(policies, order, q);
    }
    SameMembers(order, policies, order[0]);
  }

  function SortedList(policies: seq<Scoped>): (order: seq<Scoped>)
    ensures Sorted(order) && multiset(order) == multiset(policies)
  {
    if policies == [] then []
    else
      assert policies == policies[..|policies| - 1] + [policies[|policies| - 1]];
      Inserted(SortedList(policies[..|policies| - 1]), policies[|policies| - 1])
  }

  /** In front of everything it ties with or precedes. */
  function Inserted(order: seq<Scoped>, p: Scoped): (r: seq<Scoped>)
    requires Sorted(order)
    ensures Sorted(r) && multiset(r) == multiset(order) + multiset{p}
    ensures exists w: nat :: w < |r| && r[w] == p && forall i :: 0 <= i < w ==> Precedes(r[i], p)
  {
    var w := Position(order, p);
    InsertedKeepsAll(order[..w], p, order[w..]);
    assert order == order[..w] + order[w..];
    var r := order[..w] + [p] + order[w..];
    assert r[w] == p;
    r
  }

  lemma InsertedKeepsAll(front: seq<Scoped>, p: Scoped, back: seq<Scoped>)
    requires Sorted(front + back)
    requires (forall i :: 0 <= i < |front| ==> Precedes(front[i], p)) && forall i :: 0 <= i < |back| ==> !Precedes(back[i], p)
    ensures Sorted(front + [p] + back) && multiset(front + [p] + back) == multiset(front + back) + multiset{p}
  {
    var all, r := front + back, front + [p] + back;
    forall i, j | 0 <= i < j < |r|
      ensures !Precedes(r[j], r[i])
    {
      if i != |front| && j != |front| {
        assert r[i] == all[if i < |front| then i else i - 1] && r[j] == all[if j < |front| then j else j - 1];
      }
    }
  }

  function Position(order: seq<Scoped>, p: Scoped): (w: nat)
    requires Sorted(order)
    ensures w <= |order| && (forall i :: 0 <= i < w ==> Precedes(order[i], p)) && forall i :: w <= i < |order| ==> !Precedes(order[i], p)
  {
    if order == [] || !Precedes(order[0], p) then
      assert order != [] ==> forall i :: 0 < i < |order| ==> !Precedes(order[i], order[0]);
      0
    else 1 + Position(order[1..], p)
  }

  function Without(policies: seq<Scoped>, p: Scoped): (rest: seq<Scoped>)
    requires p in policies
    ensures multiset(rest) + multiset{p} == multiset(policies)
  {
    if policies[0] == p then
      assert policies == [p] + policies[1..];
      policies[1..]
    else
      assert policies == [policies[0]] + policies[1..];
      [policies[0]] + Without(policies[1..], p)
  }

  /** An order that starts with f and has w before everything that w ties with, f aside. */
  lemma OrderFrom(policies: seq<Scoped>, f: Scoped, w: Scoped) returns (order: seq<Scoped>, k: nat)
    requires IsMaximal(policies, f) && w in policies
    ensures IsOrderOf(order, policies) && order[0] == f && k < |order| && order[k] == w
    ensures forall i :: 0 < i < k ==> Precedes(order[i], w)
  {
    var others, rest := Without(policies, f), [];
    if w == f {
      rest, k := SortedList(others), 0;
    } else {
      assert w in multiset(policies) && w in multiset(others);
      rest, k := OrderBefore(others, w);
      k := k + 1;
    }
    StartsWith(policies, f, rest);
    order := [f] + rest;
  }

  /** The policies in precedence order, w before everything that it ties with. */
  lemma OrderBefore(policies: seq<Scoped>, w: Scoped) returns (order: seq<Scoped>, k: nat)
    requires w in policies
    ensures Sorted(order) && multiset(order) == multiset(policies) && k < |order| && order[k] == w
    ensures forall i :: 0 <= i < k ==> Precedes(order[i], w)
  {
    order := Inserted(SortedList(Without(policies, w)), w);
    k :| k < |order| && order[k] == w && forall i :: 0 <= i < k ==> Precedes(order[i], w);
  }

  lemma StartsWith(policies: seq<Scoped>, f: Scoped, rest: seq<Scoped>)
    requires IsMaximal(policies, f) && Sorted(rest) && multiset(rest) + multiset{f} == multiset(policies)
    ensures IsOrderOf([f] + rest, policies)
  {
    var order := [f] + rest;
    assert multiset(order) == multiset(policies);
    forall i, j | 0 <= i < j < |order|
      ensures !Precedes(order[j], order[i])
    {
      SameMembers(order, policies, order[j]);
      if i > 0 {
        assert order[i] == rest[i - 1] && order[j] == rest[j - 1];
      }
    }
  }

  // ----- Strategies that take one policy whole -----

  predicate TakesWhole(f: Scoped) {
    !f.policy.resolution.MostRestrictive?
  }

  /** What the strategy of f, as the first policy, can choose: f itself, or any best policy of another scope. */
  ghost predicate WinsUnder(policies: seq<Scoped>, f: Scoped, w: Scoped) {
    match f.policy.resolution
    case DeviceWins => WinsForScope(policies, f, Device, w)
    case OrgWins => WinsForScope(policies, f, Org, w)
    case _ => w == f
  }

  ghost predicate WinsForScope(policies: seq<Scoped>, f: Scoped, scope: Target, w: Scoped) {
    if f.scope != scope && exists q :: q in policies && q.scope == scope
    then w in policies && w.scope == scope && forall q :: q in policies && q.scope == scope ==> !Precedes(q, w)
    else w == f
  }

  /** Each of these choices is made for some order that starts with f. */
  lemma EveryWinnerWins(policies: seq<Scoped>, f: Scoped, w: Scoped) returns (order: seq<Scoped>)
    requires IsMaximal(policies, f) && TakesWhole(f) && WinsUnder(policies, f, w)
    ensures IsOrderOf(order, policies) && order[0] == f && Outcome(order, Resolved(w.policy, w.payload))
  {
    var k;
    order, k := OrderFrom(policies, f, w);
    match f.policy.resolution
    case DeviceWins => BestIsFirst(policies, order, Device, w, k);
    case OrgWins => BestIsFirst(policies, order, Org, w, k);
    case _ =>
  }

  lemma BestIsFirst(policies: seq<Scoped>, order: seq<Scoped>, scope: Target, w: Scoped, k: nat)
    requires IsOrderOf(order, policies) && k < |order| && order[k] == w && forall i :: 0 < i < k ==> Precedes(order[i], w)
    requires WinsForScope(policies, order[0], scope, w)
    ensures TakesFirst(order, scope, Resolved(w.policy, w.payload))
  {
    forall i | 0 <= i < |order|
      ensures order[i] in policies
    {
      SameMembers(order, policies, order[i]);
    }
    assert FirstInScope(order, scope, if w == order[0] then 0 else k);
  }

  /** And no other choice is ever made. */
  lemma WinnerIsChosen(policies: seq<Scoped>, order: seq<Scoped>, r: Resolved) returns (w: Scoped)
    requires IsOrderOf(order, policies) && TakesWhole(order[0]) && Outcome(order, r)
    ensures WinsUnder(policies, order[0], w) && r == Resolved(w.policy, w.payload)
  {
    w := order[0];
    match order[0].policy.resolution
    case DeviceWins => w := FirstIsBest(policies, order, Device, r);
    case OrgWins => w := FirstIsBest(policies, order, Org, r);
    case _ =>
  }

  lemma FirstIsBest(policies: seq<Scoped>, order: seq<Scoped>, scope: Target, r: Resolved) returns (w: Scoped)
    requires IsOrderOf(order, policies) && TakesFirst(order, scope, r)
    ensures WinsForScope(policies, order[0], scope, w) && r == Resolved(w.policy, w.payload)
  {
    var k: nat :| FirstInScope(order, scope, k) && r == Resolved(order[k].policy, order[k].payload);
    w := order[k];
    SameMembers(order, policies, w);
    forall q | q in policies && q.scope == scope
      ensures w.scope == scope && !Precedes(q, w)
    {
      SameMembers(order, policies, q);
      var i :| 0 <= i < |order| && order[i] == q;
      assert k <= i;
    }
  }

  // ----- The merge -----

  /** The first holder of a key in some order that starts with f. */
  ghost predicate MayHoldFirst(policies: seq<Scoped>, f: Scoped, key: string, p: Scoped) {
    if key in f.payload then p == f
    else p in policies && key in p.payload && forall q :: q in policies && key in q.payload ==> !Precedes(q, p)
  }

  /** The value is held, beats every other value that may come first, and is beaten by none. */
  ghost predicate Prevails(policies: seq<Scoped>, f: Scoped, key: string, m: Value) {
    && (exists p :: p in policies && key in p.payload && p.payload[key] == m)
    && (forall p :: MayHoldFirst(policies, f, key, p) ==> p.payload[key] == m || Beats(key, m, p.payload[key]))
    && forall p :: p in policies && key in p.payload ==> !Beats(key, p.payload[key], m)
  }

  ghost predicate AllPrevail(policies: seq<Scoped>, f: Scoped, payload: Payload) {
    payload.Keys == KeysOf(policies) && forall key :: key in payload ==> Prevails(policies, f, key, payload[key])
  }

  /** A held value that replaces the first one and that none replaces is the merged one. */
  lemma UnbeatenIsMerged(key: string, values: seq<Value>, m: Value, w: nat)
    requires m in values && (values[0] == m || Beats(key, m, values[0]))
    requires forall x :: x in values ==> !Beats(key, x, m)
    requires WinsAt(key, values, w)
    ensures values[w] == m
  {
    assert values[w] in values;
    var k :| 0 <= k < |values| && values[k] == m;
    if values[0] != m {
      OneValueAbove(key, values[0], m, values[w]);
    }
  }

  /** Above a value of its kind there is one value on each level. */
  lemma OneValueAbove(key: string, low: Value, a: Value, b: Value)
    requires Beats(key, a, low) && Comparable(key, a, b) && Level(a) == Level(b)
    ensures a == b
  {
    if a.Text? {
      assert PasswordQualityRank(a.text) == PasswordQualityRank(b.text) > 0;
    }
  }

  lemma {:induction false} FirstValue(order: seq<Scoped>, key: string, i: nat)
    requires i < |order| && key in order[i].payload && forall k :: 0 <= k < i ==> key !in order[k].payload
    ensures ValuesFor(order, key) != [] && ValuesFor(order, key)[0] == order[i].payload[key]
    decreases |order|
  {
    var before, last := order[..|order| - 1], order[|order| - 1];
    if i < |before| {
      FirstValue(before, key, i);
    } else {
      NoValues(before, key);
    }
  }

  lemma {:induction false} NoValues(policies: seq<Scoped>, key: string)
    requires forall k :: 0 <= k < |policies| ==> key !in policies[k].payload
    ensures ValuesFor(policies, key) == []
  {
    if policies != [] {
      NoValues(policies[..|policies| - 1], key);
    }
  }

  /** Whoever holds a key first in an order may do so. */
  lemma FirstHolder(policies: seq<Scoped>, order: seq<Scoped>, key: string) returns (i: nat)
    requires IsOrderOf(order, policies) && key in KeysOf(policies)
    ensures i < |order| && key in order[i].payload && forall k :: 0 <= k < i ==> key !in order[k].payload
    ensures MayHoldFirst(policies, order[0], key, order[i])
  {
    var n :| 0 <= n < |policies| && key in policies[n].payload;
    SameMembers(order, policies, policies[n]);
    var at :| 0 <= at < |order| && order[at] == policies[n];
    i := LeastHolder(order, key, at);
    SameMembers(order, policies, order[i]);
    forall q | q in policies && key in q.payload
      ensures !Precedes(q, order[i])
    {
      SameMembers(order, policies, q);
      var j :| 0 <= j < |order| && order[j] == q;
      assert i <= j;
    }
  }

  lemma {:induction false} LeastHolder(order: seq<Scoped>, key: string, at: nat) returns (i: nat)
    requires at < |order| && key in order[at].payload
    ensures i <= at && key in order[i].payload && forall k :: 0 <= k < i ==> key !in order[k].payload
    decreases at
  {
    if k: nat :| k < at && key in order[k].payload {
      i := LeastHolder(order, key, k);
    } else {
      i := at;
    }
  }

  /** Whoever may hold a key first does so in some order that starts with f. */
  lemma HoldsFirst(policies: seq<Scoped>, f: Scoped, key: string, p: Scoped) returns (order: seq<Scoped>)
    requires IsMaximal(policies, f) && key in KeysOf(policies) && MayHoldFirst(policies, f, key, p)
    ensures IsOrderOf(order, policies) && order[0] == f
    ensures ValuesFor(order, key) != [] && ValuesFor(order, key)[0] == p.payload[key]
  {
    var k;
    order, k := OrderFrom(policies, f, p);
    if p == f {
      FirstValue(order, key, 0);
    } else {
      forall i | 0 <= i < k
        ensures key !in order[i].payload
      {
        SameMembers(order, policies, order[i]);
      }
      FirstValue(order, key, k);
    }
  }

  lemma HeldInOrder(policies: seq<Scoped>, order: seq<Scoped>, key: string, v: Value)
    requires IsOrderOf(order, policies)
    ensures v in ValuesFor(order, key) <==> exists p :: p in policies && key in p.payload && p.payload[key] == v
  {
    ValuesForMembers(order, key, v);
    if p :| p in policies && key in p.payload && p.payload[key] == v {
      SameMembers(order, policies, p);
    }
    if p :| p in order && key in p.payload && p.payload[key] == v {
      SameMembers(order, policies, p);
    }
  }

  lemma SameKeysInOrder(policies: seq<Scoped>, order: seq<Scoped>)
    requires IsOrderOf(order, policies)
    ensures KeysOf(order) == KeysOf(policies)
  {
    forall p
      ensures p in order <==> p in policies
    {
      SameMembers(order, policies, p);
    }
    SameKeys(order, policies);
    SameKeys(policies, order);
  }

  /** Where such values prevail, every order that starts with f merges to them. */
  lemma PrevailingIsMerged(policies: seq<Scoped>, order: seq<Scoped>, payload: Payload)
    requires IsOrderOf(order, policies) && AllPrevail(policies, order[0], payload)
    ensures IsMerge(order, payload)
  {
    SameKeysInOrder(policies, order);
    forall key | key in payload
      ensures ValuesFor(order, key) != [] && payload[key] == Merged(key, ValuesFor(order, key))
    {
      PrevailingValue(policies, order, key, payload[key]);
    }
  }

  lemma PrevailingValue(policies: seq<Scoped>, order: seq<Scoped>, key: string, m: Value)
    requires IsOrderOf(order, policies) && key in KeysOf(policies) && Prevails(policies, order[0], key, m)
    ensures ValuesFor(order, key) != [] && m == Merged(key, ValuesFor(order, key))
  {
    var i := FirstHolder(policies, order, key);
    FirstValue(order, key, i);
    var values := ValuesFor(order, key);
    HeldInOrder(policies, order, key, m);
    forall x | x in values
      ensures !Beats(key, x, m)
    {
      HeldInOrder(policies, order, key, x);
    }
    MergedIsWinner(key, values);
    UnbeatenIsMerged(key, values, m, Winner(key, values));
  }

  /** A merged value is the first or beats it, and is beaten by none. */
  lemma MergedIsUnbeaten(key: string, values: seq<Value>, w: nat)
    requires WinsAt(key, values, w)
    ensures values[w] == values[0] || Beats(key, values[w], values[0])
    ensures forall x :: x in values ==> !Beats(key, x, values[w])
  {
  }

  /** Only such values do: what every order that starts with f merges to prevails. */
  lemma MergedPrevails(policies: seq<Scoped>, f: Scoped, payload: Payload)
    requires IsMaximal(policies, f)
    requires forall order :: IsOrderOf(order, policies) && order[0] == f ==> IsMerge(order, payload)
    ensures AllPrevail(policies, f, payload)
  {
    var order, k := OrderFrom(policies, f, f);
    SameKeysInOrder(policies, order);
    forall key | key in payload
      ensures Prevails(policies, f, key, payload[key])
    {
      var values := ValuesFor(order, key);
      MergedIsWinner(key, values);
      MergedIsUnbeaten(key, values, Winner(key, values));
      HeldInOrder(policies, order, key, payload[key]);
      forall p | p in policies && key in p.payload
        ensures !Beats(key, p.payload[key], payload[key])
      {
        HeldInOrder(policies, order, key, p.payload[key]);
      }
      forall p | MayHoldFirst(policies, f, key, p)
        ensures p.payload[key] == payload[key] || Beats(key, payload[key], p.payload[key])
      {
        FirstIsBeaten(policies, f, key, p, payload);
      }
    }
  }

  lemma FirstIsBeaten(policies: seq<Scoped>, f: Scoped, key: string, p: Scoped, payload: Payload)
    requires IsMaximal(policies, f) && key in payload && key in KeysOf(policies) && MayHoldFirst(policies, f, key, p)
    requires forall order :: IsOrderOf(order, policies) && order[0] == f ==> IsMerge(order, payload)
    ensures p.payload[key] == payload[key] || Beats(key, payload[key], p.payload[key])
  {
    var order := HoldsFirst(policies, f, key, p);
    var values := ValuesFor(order, key);
    MergedIsWinner(key, values);
    MergedIsUnbeaten(key, values, Winner(key, values));
  }

  // ----- All strategies -----

  /** Every resolution of the policies, whatever order they were collected in, is r. */
  ghost predicate AlwaysResolvesTo(policies: seq<Scoped>, r: Resolved) {
    forall s: Option<Resolved> :: Resolves(policies, s) ==> s == Some(r)
  }

  /** Whichever policy can come first, its strategy can only choose or merge to r. */
  ghost predicate Determines(policies: seq<Scoped>, r: Resolved) {
    forall f :: IsMaximal(policies, f) ==> DeterminesFrom(policies, f, r)
  }

  ghost predicate DeterminesFrom(policies: seq<Scoped>, f: Scoped, r: Resolved) {
    if TakesWhole(f) then forall w :: WinsUnder(policies, f, w) ==> r == Resolved(w.policy, w.payload)
    else r.policy == f.policy && AllPrevail(policies, f, r.payload)
  }

  /** The merge of any policies. */
  function MergeOf(policies: seq<Scoped>): (merged: Payload)
    ensures IsMerge(policies, merged)
  {
    assert forall key :: key in KeysOf(policies) ==> ValuesFor(policies, key) != [] by {
      forall key {
        KeyHasValues(policies, key);
      }
    }
    map key | key in KeysOf(policies) :: Merged(key, ValuesFor(policies, key))
  }

  lemma DeterminedFrom(policies: seq<Scoped>, order: seq<Scoped>, r: Resolved, s: Resolved)
    requires IsOrderOf(order, policies) && DeterminesFrom(policies, order[0], r) && Outcome(order, s)
    ensures s == r
  {
    if TakesWhole(order[0]) {
      var w := WinnerIsChosen(policies, order, s);
    } else {
      PrevailingIsMerged(policies, order, r.payload);
      MergeIsUnique(order, r.payload, s.payload);
    }
  }

  lemma DeterminedOnlyFrom(policies: seq<Scoped>, f: Scoped, r: Resolved)
    requires IsMaximal(policies, f) && AlwaysResolvesTo(policies, r)
    ensures DeterminesFrom(policies, f, r)
  {
    if TakesWhole(f) {
      forall w | WinsUnder(policies, f, w)
        ensures r == Resolved(w.policy, w.payload)
      {
        var order := EveryWinnerWins(policies, f, w);
        assert Resolves(policies, Some(Resolved(w.policy, w.payload)));
      }
    } else {
      forall order | IsOrderOf(order, policies) && order[0] == f
        ensures r.policy == f.policy && IsMerge(order, r.payload)
      {
        assert Outcome(order, Resolved(f.policy, MergeOf(order)));
        assert Resolves(policies, Some(Resolved(f.policy, MergeOf(order))));
      }
      var order, k := OrderFrom(policies, f, f);
      MergedPrevails(policies, f, r.payload);
    }
  }

  /**
   Under every strategy: the outcome is r for every order of collection if and only if each policy that can come first
   can only choose r, or has r's policy and every merged value of r prevails.
   */
  lemma ResolvesToIffDetermined(policies: seq<Scoped>, r: Resolved)
    requires policies != []
    ensures AlwaysResolvesTo(policies, r) <==> Determines(policies, r)
  {
    if AlwaysResolvesTo(policies, r) {
      forall f | IsMaximal(policies, f)
        ensures DeterminesFrom(policies, f, r)
      {
        DeterminedOnlyFrom(policies, f, r);
      }
    }
    if Determines(policies, r) {
      forall s: Option<Resolved> | Resolves(policies, s)
        ensures s == Some(r)
      {
        var order: seq<Scoped> :| IsOrderOf(order, policies) && Outcome(order, s.value);
        FirstIsMaximal(policies, order);
        DeterminedFrom(policies, order, r, s.value);
      }
    }
  }
}
