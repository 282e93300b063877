/** The most-restrictive merge of policy payloads. */
module PolicyMerge {
  /** Payload values as they come out of JSON; numbers are exact here. */
  datatype Value = Flag(on: bool) | Number(amount: real) | Text(text: string) | Null

  type Payload = map<string, Value>

  datatype Target = Org | Group | Device | Elsewhere(name: string)

  datatype ConflictResolution = MostRestrictive | LeastRestrictive | DeviceWins | OrgWins | Unspecified

  datatype Policy = Policy(id: string, name: string, policyType: string, priority: int, resolution: ConflictResolution, isActive: bool)

  datatype Scoped = Scoped(policy: Policy, payload: Payload, scope: Target)

  // ----- Two values of one key -----

  function PasswordQualityRank(level: string): nat {
    match level
    case "unspecified" => 0
    case "biometric_weak" => 1
    case "something" => 2
    case "numeric" => 3
    case "numeric_complex" => 4
    case "alphabetic" => 5
    case "alphanumeric" => 6
    case "complex" => 7
    case _ => 0
  }

  predicate IsPasswordQualityField(key: string) {
    key == "password_quality" || key == "passcode_quality"
  }

  function MergeValue(key: string, existing: Value, incoming: Value): Value {
    if incoming.Flag? && existing.Flag? then Flag(incoming.on || existing.on)
    else if incoming.Number? && existing.Number? then
      if incoming.amount > existing.amount then incoming else existing
    else if incoming.Text? && existing.Text? && IsPasswordQualityField(key) then
      if PasswordQualityRank(incoming.text) > PasswordQualityRank(existing.text) then incoming else existing
    else existing
  }

  // ----- The order behind the merge -----

  datatype Kind = Flags | Numbers | Qualities | Opaque

  function KindOf(key: string, v: Value): Kind {
    match v
    case Flag(_) => Flags
    case Number(_) => Numbers
    case Text(_) => if IsPasswordQualityField(key) then Qualities else Opaque
    case Null => Opaque
  }

  /** How restrictive a value is among those of its kind. */
  function Level(v: Value): real {
    match v
    case Flag(on) => if on then 1.0 else 0.0
    case Number(amount) => amount
    case Text(text) => PasswordQualityRank(text) as real
    case Null => 0.0
  }

  predicate Comparable(key: string, v: Value, w: Value) {
    KindOf(key, v) == KindOf(key, w) && !KindOf(key, v).Opaque?
  }

  predicate Beats(key: string, v: Value, w: Value) {
    Comparable(key, v, w) && Level(v) > Level(w)
  }

  /** All three branches are one rule: the incoming value replaces one that it beats. */
  lemma MergeTakesTheHigher(key: string, existing: Value, incoming: Value)
    ensures MergeValue(key, existing, incoming) == if Beats(key, incoming, existing) then incoming else existing
  {
  }

  /** The quality levels from the least to the most restrictive. */
  const QUALITY_LEVELS: seq<string> :=
    ["unspecified", "biometric_weak", "something", "numeric", "numeric_complex", "alphabetic", "alphanumeric", "complex"]

  /**
   Of two flags one that is set wins, of two numbers the greater, of two password qualities the later one of the list;
   everything else, texts of other keys and unlike values included, keeps what came first.
   */
  lemma MergesAsDocumented(key: string, a: bool, b: bool, x: real, y: real, i: nat, j: nat, s: string, t: string)
    requires i <= j < |QUALITY_LEVELS|
    ensures MergeValue(key, Flag(a), Flag(b)) == Flag(a || b)
    ensures MergeValue(key, Number(x), Number(y)) == Number(if y > x then y else x)
    ensures key == "password_quality" || key == "passcode_quality" ==>
      && MergeValue(key, Text(QUALITY_LEVELS[i]), Text(QUALITY_LEVELS[j])) == Text(QUALITY_LEVELS[j])
      && MergeValue(key, Text(QUALITY_LEVELS[j]), Text(QUALITY_LEVELS[i])) == Text(QUALITY_LEVELS[j])
    ensures key != "password_quality" && key != "passcode_quality" ==> MergeValue(key, Text(s), Text(t)) == Text(s)
  {
    QualityRanks(i);
    QualityRanks(j);
  }

  lemma QualityRanks(i: nat)
    requires i < |QUALITY_LEVELS|
    ensures PasswordQualityRank(QUALITY_LEVELS[i]) == i
  {
  }

  lemma UnlikeValuesKeepTheFirst(key: string, v: Value, w: Value)
    requires v.Null? || w.Null? || (v.Flag? && !w.Flag?) || (v.Number? && !w.Number?) || (v.Text? && !w.Text?)
    ensures MergeValue(key, v, w) == v
  {
  }

  /** A quality that is not in the list ranks with the lowest: it never replaces one and every later one replaces it. */
  lemma UnknownQualitiesAreLowest(key: string, s: string, t: string)
    requires (key == "password_quality" || key == "passcode_quality") && s !in QUALITY_LEVELS
    ensures MergeValue(key, Text(t), Text(s)) == Text(t)
    ensures t in QUALITY_LEVELS[1..] ==> MergeValue(key, Text(s), Text(t)) == Text(t)
    ensures t !in QUALITY_LEVELS[1..] ==> MergeValue(key, Text(s), Text(t)) == Text(s)
  {
    Unranked(s);
    if t in QUALITY_LEVELS {
      var i :| 0 <= i < |QUALITY_LEVELS| && QUALITY_LEVELS[i] == t;
      QualityRanks(i);
    } else {
      Unranked(t);
    }
  }

  lemma Unranked(s: string)
    requires s !in QUALITY_LEVELS
    ensures PasswordQualityRank(s) == 0
  {
    assert QUALITY_LEVELS[1] == "biometric_weak" && QUALITY_LEVELS[2] == "something" && QUALITY_LEVELS[3] == "numeric";
    assert QUALITY_LEVELS[4] == "numeric_complex" && QUALITY_LEVELS[5] == "alphabetic";
    assert QUALITY_LEVELS[6] == "alphanumeric" && QUALITY_LEVELS[7] == "complex";
  }

  // ----- All values of one key -----

  /** The values of a key in policy order, merged one after the other. */
  function Merged(key: string, values: seq<Value>): Value
    requires values != []
  {
    if |values| == 1 then values[0] else MergeValue(key, Merged(key, values[..|values| - 1]), values[|values| - 1])
  }

  /** Where the merged value comes from: the earliest of the highest values comparable to the first. */
  ghost predicate WinsAt(key: string, values: seq<Value>, w: nat) {
    && w < |values|
    && (w == 0 || Comparable(key, values[0], values[w]))
    && (forall i :: 0 <= i < w && Comparable(key, values[0], values[i]) ==> Level(values[i]) < Level(values[w]))
    && (forall i :: w <= i < |values| && Comparable(key, values[0], values[i]) ==> Level(values[i]) <= Level(values[w]))
  }

  /** The position whose value the merge ends up with. */
  function Winner(key: string, values: seq<Value>): (w: nat)
    requires values != []
    ensures WinsAt(key, values, w)
  {
    if |values| == 1 then 0
    else
      var before := values[..|values| - 1];
      var w := Winner(key, before);
      assert forall i :: 0 <= i < |before| ==> before[i] == values[i];
      if Beats(key, values[|values| - 1], values[w]) then |values| - 1 else w
  }

  lemma {:induction false} MergedIsWinner(key: string, values: seq<Value>)
    requires values != []
    ensures Merged(key, values) == values[Winner(key, values)]
  {
    if |values| > 1 {
      var before := values[..|values| - 1];
      MergedIsWinner(key, before);
      MergeTakesTheHigher(key, Merged(key, before), values[|values| - 1]);
    }
  }

  lemma WinnerIsUnique(key: string, values: seq<Value>, v: nat, w: nat)
    requires WinsAt(key, values, v) && WinsAt(key, values, w)
    ensures v == w
  {
  }

  /**
   Values that are all flags, all numbers or all quality levels merge into their least upper bound:
   one of them, and at least as restrictive as each.
   */
  lemma MergedIsLeastUpperBound(key: string, values: seq<Value>)
    requires values != [] && forall i :: 0 <= i < |values| ==> Comparable(key, values[0], values[i])
    ensures Merged(key, values) in values
    ensures forall i :: 0 <= i < |values| ==>
      Comparable(key, Merged(key, values), values[i]) && Level(values[i]) <= Level(Merged(key, values))
    ensures values[0].Flag? ==> Merged(key, values) == Flag(Flag(true) in values)
  {
    MergedIsWinner(key, values);
    if values[0].Flag? {
      assert forall i :: 0 <= i < |values| ==> values[i].Flag?;
      if Flag(true) in values {
        var i :| 0 <= i < |values| && values[i] == Flag(true);
        assert Level(values[i]) <= Level(Merged(key, values));
      }
    }
  }

  /** A first value that is opaque for its key is never replaced. */
  lemma OpaqueStays(key: string, values: seq<Value>)
    requires values != [] && KindOf(key, values[0]).Opaque?
    ensures Merged(key, values) == values[0]
  {
    MergedIsWinner(key, values);
  }

  // ----- When the order of the policies does not matter -----

  /** Every other value is of m's kind and strictly less restrictive. */
  predicate Tops(key: string, values: seq<Value>, m: Value) {
    forall i :: 0 <= i < |values| ==> values[i] == m || Beats(key, m, values[i])
  }

  /** One of the values is alike in kind to all others and tied with none that differs from it. */
  predicate Settled(key: string, values: seq<Value>) {
    exists j :: 0 <= j < |values| && Tops(key, values, values[j])
  }

  /** A value that tops the values is the one the merge ends up with. */
  lemma TopWins(key: string, values: seq<Value>, m: Value, w: nat)
    requires m in values && Tops(key, values, m) && WinsAt(key, values, w)
    ensures values[w] == m
  {
    var k :| 0 <= k < |values| && values[k] == m;
    assert values[0] == m || Beats(key, m, values[0]);
  }

  lemma TopIsMerged(key: string, values: seq<Value>)
    requires values != []
    ensures Settled(key, values) <==> Tops(key, values, Merged(key, values))
  {
    MergedIsWinner(key, values);
    if j :| 0 <= j < |values| && Tops(key, values, values[j]) {
      TopWins(key, values, values[j], Winner(key, values));
    }
  }

  /** Then only the set of values counts, not their order or repetition. */
  lemma SettledIsOrderIndependent(key: string, values: seq<Value>, others: seq<Value>)
    requires values != [] && others != [] && Settled(key, values)
    requires forall v :: v in values <==> v in others
    ensures Merged(key, others) == Merged(key, values)
  {
    TopIsMerged(key, values);
    MergedIsWinner(key, values);
    MergedIsWinner(key, others);
    TopsCarryOver(key, values, others, Merged(key, values));
    TopWins(key, others, Merged(key, values), Winner(key, others));
  }

  lemma TopsCarryOver(key: string, values: seq<Value>, others: seq<Value>, m: Value)
    requires forall v :: v in values <==> v in others
    requires Tops(key, values, m)
    ensures Tops(key, others, m)
  {
    forall i | 0 <= i < |others|
      ensures others[i] == m || Beats(key, m, others[i])
    {
      assert others[i] in values;
    }
  }

  function MovedToFront(values: seq<Value>, j: nat): (moved: seq<Value>)
    requires j < |values|
    ensures multiset(moved) == multiset(values)
  {
    assert values == values[..j] + [values[j]] + values[j + 1..];
    [values[j]] + values[..j] + values[j + 1..]
  }

  /** Otherwise some reordering of the same values changes the merged value. */
  lemma UnsettledDependsOnOrder(key: string, values: seq<Value>) returns (j: nat)
    requires values != [] && !Settled(key, values)
    ensures j < |values| && Merged(key, MovedToFront(values, j)) != Merged(key, values)
  {
    var m := Merged(key, values);
    TopIsMerged(key, values);
    j :| 0 <= j < |values| && values[j] != m && !Beats(key, m, values[j]);
    var moved := MovedToFront(values, j);
    MergedIsWinner(key, moved);
    UnbeatenFirstStays(key, moved, m, Winner(key, moved));
  }

  lemma UnbeatenFirstStays(key: string, values: seq<Value>, m: Value, w: nat)
    requires WinsAt(key, values, w)
    requires values[0] != m && !Beats(key, m, values[0])
    ensures values[w] != m
  {
  }

  /** The merged value is the same for every order of the values if and only if they are settled. */
  lemma SettledIffOrderIndependent(key: string, values: seq<Value>)
    requires values != []
    ensures Settled(key, values) <==>
      forall others :: others != [] && multiset(others) == multiset(values) ==> Merged(key, others) == Merged(key, values)
  {
    if Settled(key, values) {
      forall others | others != [] && multiset(others) == multiset(values)
        ensures Merged(key, others) == Merged(key, values)
      {
        assert forall v :: v in values <==> v in multiset(values);
        assert forall v :: v in others <==> v in multiset(others);
        SettledIsOrderIndependent(key, values, others);
      }
    } else {
      var j := UnsettledDependsOnOrder(key, values);
      assert MovedToFront(values, j) != [];
    }
  }

  /** Flags, numbers and the known quality levels never tie, so keys holding only such values are settled. */
  lemma AlikeValuesAreSettled(key: string, values: seq<Value>)
    requires values != [] && forall i :: 0 <= i < |values| ==> Comparable(key, values[0], values[i])
    requires forall i :: 0 <= i < |values| && values[i].Text? ==> IsQualityLevel(values[i].text)
    ensures Settled(key, values)
  {
    MergedIsLeastUpperBound(key, values);
    TopIsMerged(key, values);
    var m := Merged(key, values);
    forall i | 0 <= i < |values| && values[i] != m
      ensures Beats(key, m, values[i])
    {
      HigherBeats(key, m, values[i]);
    }
  }

  lemma HigherBeats(key: string, m: Value, v: Value)
    requires m != v && Comparable(key, m, v) && Level(v) <= Level(m)
    requires m.Text? ==> IsQualityLevel(m.text)
    requires v.Text? ==> IsQualityLevel(v.text)
    ensures Beats(key, m, v)
  {
    if m.Text? {
      RanksDiffer(m.text, v.text);
    }
  }

  predicate IsQualityLevel(level: string) {
    level == "unspecified" || PasswordQualityRank(level) > 0
  }

  lemma RanksDiffer(a: string, b: string)
    requires IsQualityLevel(a) && IsQualityLevel(b) && a != b
    ensures PasswordQualityRank(a) != PasswordQualityRank(b)
  {
  }

  // ----- All keys of all policies -----

  function ValueIn(p: Scoped, key: string): seq<Value> {
    if key in p.payload then [p.payload[key]] else []
  }

  function ValuesFor(policies: seq<Scoped>, key: string): seq<Value> {
    if policies == [] then []
    else ValuesFor(policies[..|policies| - 1], key) + ValueIn(policies[|policies| - 1], key)
  }

  function KeysOf(policies: seq<Scoped>): set<string> {
    set i, key | 0 <= i < |policies| && key in policies[i].payload :: key
  }

  lemma {:induction false} ValuesForMembers(policies: seq<Scoped>, key: string, v: Value)
    ensures v in ValuesFor(policies, key) <==> exists p :: p in policies && key in p.payload && p.payload[key] == v
  {
    if policies != [] {
      var before, last := policies[..|policies| - 1], policies[|policies| - 1];
      ValuesForMembers(before, key, v);
      assert policies == before + [last];
    }
  }

  lemma {:induction false} KeyHasValues(policies: seq<Scoped>, key: string)
    ensures key in KeysOf(policies) <==> ValuesFor(policies, key) != []
  {
    if policies != [] {
      var before, last := policies[..|policies| - 1], policies[|policies| - 1];
      KeyHasValues(before, key);
      assert policies == before + [last];
      if key in last.payload {
        assert policies[|policies| - 1] == last;
      } else if key in KeysOf(policies) {
        var i :| 0 <= i < |policies| && key in policies[i].payload;
        assert before[i] == policies[i];
      } else {
        assert forall i :: 0 <= i < |before| ==> policies[i] == before[i];
      }
    }
  }

  /** The merged payload: for each key that some policy holds, the merge of its values. */
  ghost predicate IsMerge(policies: seq<Scoped>, merged: Payload) {
    && merged.Keys == KeysOf(policies)
    && forall key :: key in merged ==> ValuesFor(policies, key) != [] && merged[key] == Merged(key, ValuesFor(policies, key))
  }

  lemma MergeIsUnique(policies: seq<Scoped>, a: Payload, b: Payload)
    requires IsMerge(policies, a) && IsMerge(policies, b)
    ensures a == b
  {
    assert forall key :: key in a ==> a[key] == b[key];
  }

  /** The merge of a single policy is its own payload. */
  lemma MergeOfOne(p: Scoped)
    ensures IsMerge([p], p.payload)
  {
    assert KeysOf([p]) == p.payload.Keys by {
      assert forall key :: key in p.payload ==> key in [p][0].payload;
    }
    forall key | key in p.payload
      ensures ValuesFor([p], key) == [p.payload[key]]
    {
      assert [p][..0] == [];
    }
  }

  /** Policies in another order, or given twice, merge alike when every key is settled. */
  lemma MergeIsOrderIndependent(policies: seq<Scoped>, others: seq<Scoped>, merged: Payload)
    requires forall p :: p in policies <==> p in others
    requires IsMerge(policies, merged)
    requires forall key :: key in merged ==> Settled(key, ValuesFor(policies, key))
    ensures IsMerge(others, merged)
  {
    assert KeysOf(others) == KeysOf(policies) by {
      SameKeys(policies, others);
      SameKeys(others, policies);
    }
    forall key | key in merged
      ensures ValuesFor(others, key) != [] && merged[key] == Merged(key, ValuesFor(others, key))
    {
      KeyHasValues(others, key);
      forall v
        ensures v in ValuesFor(policies, key) <==> v in ValuesFor(others, key)
      {
        ValuesForMembers(policies, key, v);
        ValuesForMembers(others, key, v);
      }
      SettledIsOrderIndependent(key, ValuesFor(policies, key), ValuesFor(others, key));
    }
  }

  lemma SameKeys(policies: seq<Scoped>, others: seq<Scoped>)
    requires forall p :: p in policies ==> p in others
    ensures KeysOf(policies) <= KeysOf(others)
  {
    forall key | key in KeysOf(policies)
      ensures key in KeysOf(others)
    {
      var i :| 0 <= i < |policies| && key in policies[i].payload;
      assert policies[i] in others;
    }
  }

  // ----- The merge loop -----

  /** Whatever order the keys of a payload come in, the result is the merge. */
  method MergeRestrictive(policies: seq<Scoped>) returns (merged: Payload)
    ensures IsMerge(policies, merged)
  {
    merged := map[];
    for n := 0 to |policies|
      invariant IsMerge(policies[..n], merged)
    {
      merged := MergeOne(policies[..n], policies[n], merged);
      assert policies[..n] + [policies[n]] == policies[..n + 1];
    }
    assert policies[..|policies|] == policies;
  }

  ghost predicate MergedSoFar(policies: seq<Scoped>, p: Scoped, before: Payload, keys: set<string>, merged: Payload) {
    && merged.Keys == before.Keys + (p.payload.Keys - keys)
    && forall key :: key in merged ==> merged[key] == Step(before, p, keys, key)
  }

  /** The value of a key after one more policy, some of whose keys may be still to come. */
  function Step(before: Payload, p: Scoped, keys: set<string>, key: string): Value
    requires key in before || key in p.payload
  {
    if key !in before then p.payload[key]
    else if key in p.payload && key !in keys then MergeValue(key, before[key], p.payload[key])
    else before[key]
  }

  method MergeOne(ghost policies: seq<Scoped>, p: Scoped, before: Payload) returns (merged: Payload)
    requires IsMerge(policies, before)
    ensures IsMerge(policies + [p], merged)
  {
    merged := before;
    var keys := p.payload.Keys;
    while keys != {}
      invariant keys <= p.payload.Keys && MergedSoFar(policies, p, before, keys, merged)
    {
      var key :| key in keys;
      keys := keys - {key};
      var v := p.payload[key];
      if key !in merged {
        merged := merged[key := v];
      } else {
        merged := merged[key := MergeValue(key, merged[key], v)];
      }
    }
    MergeGrows(policies, p, before, merged);
  }

  lemma MergeGrows(policies: seq<Scoped>, p: Scoped, before: Payload, merged: Payload)
    requires IsMerge(policies, before) && MergedSoFar(policies, p, before, {}, merged)
    ensures IsMerge(policies + [p], merged)
  {
    forall key
      ensures key in KeysOf(policies + [p]) <==> key in merged
      ensures key in merged ==> ValuesFor(policies + [p], key) != []
      ensures key in merged ==> merged[key] == Merged(key, ValuesFor(policies + [p], key))
    {
      KeyHasValues(policies + [p], key);
      KeyHasValues(policies, key);
      ValuesGrow(policies, p, key);
      if key in merged {
        assert merged[key] == Step(before, p, {}, key);
        MergedGrows(key, ValuesFor(policies, key), ValueIn(p, key));
      }
    }
  }

  lemma ValuesGrow(policies: seq<Scoped>, p: Scoped, key: string)
    ensures ValuesFor(policies + [p], key) == ValuesFor(policies, key) + ValueIn(p, key)
  {
    var all := policies + [p];
    assert all[..|all| - 1] == policies && all[|all| - 1] == p;
  }

  lemma MergedGrows(key: string, values: seq<Value>, more: seq<Value>)
    requires |more| <= 1
    ensures more == [] ==> values + more == values
    ensures more != [] && values == [] ==> Merged(key, values + more) == more[0]
    ensures more != [] && values != [] ==> Merged(key, values + more) == MergeValue(key, Merged(key, values), more[0])
  {
    assert more == [] ==> values + more == values;
    if more != [] {
      var all := values + more;
      assert all[..|all| - 1] == values && all[|all| - 1] == more[0];
    }
  }
}
