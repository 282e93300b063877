/** Comparing version strings part by part. */
module Versions {
  import S = Strings

  // ----- Parts as numbers -----

  const MAX_INT: int := 0x7FFF_FFFF_FFFF_FFFF
  const MIN_INT: int := -0x8000_0000_0000_0000

  const MAX_UINT: nat := 0xFFFF_FFFF_FFFF_FFFF

  /** What the library makes of the characters read so far; a first overflow or malformed character ends the reading. */
  datatype Reading = Read(n: nat) | Malformed | TooLarge

  function ReadDigits(s: string): Reading {
    if s == "" then Read(0) else Next(ReadDigits(s[..|s| - 1]), s[|s| - 1])
  }

  function Next(before: Reading, c: char): Reading {
    if !before.Read? then before
    else if !S.IsDigit(c) then Malformed
    else
      var n := before.n * 10 + (c - '0') as nat;
      if n > MAX_UINT then TooLarge else Read(n)
  }

  function Clamp(n: int): (r: int)
    ensures MIN_INT <= r <= MAX_INT
  {
    if n < MIN_INT then MIN_INT else if n > MAX_INT then MAX_INT else n
  }

  /** What `strconv.Atoi` yields when its error is ignored: 0 for no number, the nearest 64-bit integer for one too large. */
  function Atoi(s: string): (n: int)
    ensures MIN_INT <= n <= MAX_INT
  {
    var negative := s != "" && s[0] == '-';
    var digits := if negative || (s != "" && s[0] == '+') then s[1..] else s;
    match ReadDigits(digits)
    case Read(n) => Clamp(if negative then -(n as int) else n)
    case Malformed => 0
    case TooLarge => if negative then MIN_INT else MAX_INT
  }

  /** The number a string of digits stands for. */
  function Digits(s: string): nat {
    if s == "" then 0
    else Digits(s[..|s| - 1]) * 10 + if S.IsDigit(s[|s| - 1]) then (s[|s| - 1] - '0') as nat else 0
  }

  lemma {:induction false} ReadDigitsIsValue(s: string)
    requires forall i :: 0 <= i < |s| ==> S.IsDigit(s[i])
    ensures ReadDigits(s) == if Digits(s) <= MAX_UINT then Read(Digits(s)) else TooLarge
  {
    if s != "" {
      ReadDigitsIsValue(s[..|s| - 1]);
    }
  }

  /** A first malformed character or overflow settles the reading. */
  lemma {:induction false} FailureEndsReading(s: string, t: string)
    requires !ReadDigits(s).Read?
    ensures ReadDigits(s + t) == ReadDigits(s)
  {
    if t == "" {
      assert s + t == s;
    } else {
      FailureEndsReading(s, t[..|t| - 1]);
      assert (s + t)[..|s + t| - 1] == s + t[..|t| - 1];
    }
  }

  /**
   A part of digits counts as the nearest 64-bit integer; once the digits exceed the unsigned range, whatever follows
   them makes no difference.
   */
  lemma AtoiReadsNumbers(s: string, t: string)
    requires S.IsDigits(s)
    ensures Atoi(s) == Clamp(Digits(s)) && Atoi("+" + s) == Clamp(Digits(s)) && Atoi("-" + s) == Clamp(0 - Digits(s))
    ensures Digits(s) > MAX_UINT ==> Atoi(s + t) == MAX_INT && Atoi("-" + s + t) == MIN_INT
  {
    ReadDigitsIsValue(s);
    assert ("-" + s)[1..] == s && ("+" + s)[1..] == s && ("-" + s + t)[1..] == s + t;
    if Digits(s) > MAX_UINT {
      FailureEndsReading(s, t);
    }
  }

  lemma OtherCharacterEndsReading(s: string, c: char, t: string)
    requires (forall i :: 0 <= i < |s| ==> S.IsDigit(s[i])) && Digits(s) <= MAX_UINT && !S.IsDigit(c)
    ensures ReadDigits(s + [c] + t) == Malformed
  {
    ReadDigitsIsValue(s);
    var read := s + [c];
    assert read[..|read| - 1] == s && read[|read| - 1] == c;
    FailureEndsReading(read, t);
  }

  lemma AtoiIsZeroUnread(sign: string, digits: string)
    requires sign == "" || sign == "-" || sign == "+"
    requires sign == "" && digits != "" ==> digits[0] != '-' && digits[0] != '+'
    requires ReadDigits(digits) == Malformed || ReadDigits(digits) == Read(0)
    ensures Atoi(sign + digits) == 0
  {
    assert (sign + digits)[|sign|..] == digits;
  }

  /** Any other part counts as 0: one without digits, or with a character that is no digit before the digits overflow. */
  lemma AtoiOfOthers(sign: string, s: string, c: char, t: string)
    requires sign == "" || sign == "-" || sign == "+"
    requires (forall i :: 0 <= i < |s| ==> S.IsDigit(s[i])) && Digits(s) <= MAX_UINT && !S.IsDigit(c)
    requires sign == "" && s == "" ==> c != '-' && c != '+'
    ensures Atoi(sign) == 0 && Atoi(sign + (s + [c] + t)) == 0
  {
    var digits := s + [c] + t;
    assert digits[0] == if s == "" then c else s[0];
    OtherCharacterEndsReading(s, c, t);
    AtoiIsZeroUnread(sign, digits);
    AtoiIsZeroUnread(sign, "");
    assert sign + "" == sign;
  }

  function Pow10(n: nat): nat {
    if n == 0 then 1 else 10 * Pow10(n - 1)
  }

  lemma DigitsStep(s: string, d: char)
    requires S.IsDigit(d)
    ensures Digits(s + [d]) == Digits(s) * 10 + (d - '0') as nat
  {
    assert (s + [d])[..|s + [d]| - 1] == s;
  }

  /** Digits are decimal: a digit counts as its distance from '0' times ten to the number of digits behind it. */
  lemma {:induction false} DigitsAreDecimal(c: char, s: string)
    requires S.IsDigit(c) && forall i :: 0 <= i < |s| ==> S.IsDigit(s[i])
    ensures Digits([c] + s) == (c - '0') as nat * Pow10(|s|) + Digits(s)
  {
    if s == "" {
      DigitsStep("", c);
      assert [c] + s == "" + [c];
    } else {
      var front, d := s[..|s| - 1], s[|s| - 1];
      assert front + [d] == s && [c] + s == ([c] + front) + [d];
      DigitsAreDecimal(c, front);
      DigitsStep(front, d);
      DigitsStep([c] + front, d);
      Shifted((c - '0') as nat, Pow10(|front|), Digits(front), (d - '0') as nat);
    }
  }

  lemma Shifted(c: nat, power: nat, value: nat, d: nat)
    ensures (c * power + value) * 10 + d == c * (10 * power) + (value * 10 + d)
  {
  }

  function Numbers(parts: seq<string>): (ns: seq<int>)
    ensures |ns| == |parts| && forall i :: 0 <= i < |ns| ==> ns[i] == Atoi(parts[i])
  {
    seq(|parts|, i requires 0 <= i < |parts| => Atoi(parts[i]))
  }

  function Parts(version: string): seq<int> {
    Numbers(S.Split(version, '.'))
  }

  // ----- The order -----

  /** The i-th part, 0 beyond the end. */
  function Part(v: seq<int>, i: nat): int {
    if i < |v| then v[i] else 0
  }

  /** v stands for the same version as w: equal parts, with zeros added to the shorter. */
  ghost predicate Same(v: seq<int>, w: seq<int>) {
    forall i: nat :: Part(v, i) == Part(w, i)
  }

  /** v is the lower: lower in the first part that differs. */
  ghost predicate LowerAt(v: seq<int>, w: seq<int>, k: nat) {
    Part(v, k) < Part(w, k) && forall i: nat :: i < k ==> Part(v, i) == Part(w, i)
  }

  ghost predicate Lower(v: seq<int>, w: seq<int>) {
    exists k: nat :: LowerAt(v, w, k)
  }

  /** The order compared by first difference is a strict order whose ties are the equal versions. */
  lemma LowerIsTransitive(u: seq<int>, v: seq<int>, w: seq<int>)
    requires Lower(u, v) && Lower(v, w)
    ensures Lower(u, w)
  {
    var j: nat :| LowerAt(u, v, j);
    var k: nat :| LowerAt(v, w, k);
    assert LowerAt(u, w, if j < k then j else k);
  }

  lemma LowerIsExclusive(v: seq<int>, w: seq<int>)
    ensures !(Lower(v, w) && Lower(w, v)) && !(Lower(v, w) && Same(v, w))
  {
    forall j: nat, k: nat | LowerAt(v, w, j)
      ensures !LowerAt(w, v, k)
    {
    }
  }

  ghost function Compare(v: seq<int>, w: seq<int>): int {
    if Lower(v, w) then -1 else if Lower(w, v) then 1 else 0
  }

  /** The loop over both part lists yields the sign of the order. */
  method CompareVersions(a: string, b: string) returns (r: int)
    ensures r == Compare(Parts(a), Parts(b))
  {
    var aParts, bParts := S.Split(a, '.'), S.Split(b, '.');
    var maxLen := |aParts|;
    if |bParts| > maxLen {
      maxLen := |bParts|;
    }
    ghost var v, w := Parts(a), Parts(b);
    for i := 0 to maxLen
      invariant forall k: nat :: k < i ==> Part(v, k) == Part(w, k)
    {
      var aNum, bNum := 0, 0;
      if i < |aParts| {
        aNum := Atoi(aParts[i]);
      }
      if i < |bParts| {
        bNum := Atoi(bParts[i]);
      }
      assert aNum == Part(v, i) && bNum == Part(w, i);
      if aNum < bNum {
        assert LowerAt(v, w, i);
        return -1;
      }
      if aNum > bNum {
        assert LowerAt(w, v, i);
        LowerIsExclusive(v, w);
        return 1;
      }
    }
    assert forall k: nat :: Part(v, k) == Part(w, k);
    return 0;
  }

  lemma CompareIsZeroForSame(v: seq<int>, w: seq<int>)
    ensures Compare(v, w) == 0 <==> Same(v, w)
  {
    LowerIsExclusive(v, w);
    LowerIsExclusive(w, v);
    if !Same(v, w) {
      var i: nat :| Part(v, i) != Part(w, i);
      var k := FirstDifference(v, w, i);
      assert LowerAt(v, w, k) || LowerAt(w, v, k);
    }
  }

  lemma {:induction false} FirstDifference(v: seq<int>, w: seq<int>, i: nat) returns (k: nat)
    requires Part(v, i) != Part(w, i)
    ensures Part(v, k) != Part(w, k) && forall j: nat :: j < k ==> Part(v, j) == Part(w, j)
    decreases i
  {
    if j: nat :| j < i && Part(v, j) != Part(w, j) {
      k := FirstDifference(v, w, j);
    } else {
      k := i;
    }
  }

  /** Swapping the versions negates the result. */
  lemma CompareIsAntisymmetric(v: seq<int>, w: seq<int>)
    ensures Compare(v, w) == -Compare(w, v)
  {
    LowerIsExclusive(v, w);
  }

  lemma CompareIsTransitive(u: seq<int>, v: seq<int>, w: seq<int>)
    requires Compare(u, v) <= 0 && Compare(v, w) <= 0
    ensures Compare(u, w) <= 0
    ensures Compare(u, w) == 0 <==> Compare(u, v) == 0 && Compare(v, w) == 0
  {
    CompareIsZeroForSame(u, v);
    CompareIsZeroForSame(v, w);
    CompareIsZeroForSame(u, w);
    LowerIsExclusive(u, w);
    if Lower(u, v) && Lower(v, w) {
      LowerIsTransitive(u, v, w);
    } else if Lower(u, v) {
      assert Same(v, w);
      var k: nat :| LowerAt(u, v, k);
      assert LowerAt(u, w, k);
    } else if Lower(v, w) {
      assert Same(u, v);
      var k: nat :| LowerAt(v, w, k);
      assert LowerAt(u, w, k);
    }
  }

  /** The part in which two versions first differ decides, and a part that is missing counts as 0. */
  lemma FirstDifferenceDecides(shared: seq<int>, x: int, y: int, v: seq<int>, w: seq<int>)
    ensures x < y ==> Compare(shared + [x] + v, shared + [y] + w) == -1 && Compare(shared + [y] + w, shared + [x] + v) == 1
    ensures 0 < y ==> Compare(shared, shared + [y] + w) == -1
    ensures y < 0 ==> Compare(shared, shared + [y] + w) == 1
  {
    var first, second := shared + [x] + v, shared + [y] + w;
    var n := |shared|;
    LowerIsExclusive(first, second);
    LowerIsExclusive(second, shared);
    assert x < y ==> LowerAt(first, second, n);
    assert 0 < y ==> LowerAt(shared, second, n);
    assert y < 0 ==> LowerAt(second, shared, n);
  }

  // ----- Appending ".0" -----

  lemma {:induction false} SplitAppend(s: string, t: string, c: char)
    ensures S.Split(s + [c] + t, c) == S.Split(s, c) + S.Split(t, c)
  {
    var whole := s + [c] + t;
    if s == "" {
      assert whole == [c] + t && whole[1..] == t;
    } else {
      SplitAppend(s[1..], t, c);
      assert whole[0] == s[0] && whole[1..] == s[1..] + [c] + t;
      SplitStep(whole, c);
      SplitStep(s, c);
      FrontedAppend(s[0], c, S.Split(s[1..], c), S.Split(t, c));
    }
  }

  /** The parts after one more character in front. */
  function Fronted(first: char, c: char, parts: seq<string>): seq<string>
    requires parts != []
  {
    if first == c then [""] + parts else [[first] + parts[0]] + parts[1..]
  }

  lemma SplitStep(s: string, c: char)
    requires s != ""
    ensures S.Split(s, c) == Fronted(s[0], c, S.Split(s[1..], c))
  {
  }

  lemma FrontedAppend(first: char, c: char, parts: seq<string>, more: seq<string>)
    requires parts != []
    ensures Fronted(first, c, parts + more) == Fronted(first, c, parts) + more
  {
    assert (parts + more)[1..] == parts[1..] + more;
  }

  /** Appending a part appends its number. */
  lemma PartsAppend(version: string, more: string)
    ensures Parts(version + "." + more) == Parts(version) + Parts(more)
  {
    SplitAppend(version, more, '.');
  }

  lemma {:induction false} OnePart(s: string)
    requires '.' !in s
    ensures S.Split(s, '.') == [s]
  {
    if s != "" {
      OnePart(s[1..]);
      assert [s[0]] + s[1..] == s;
    }
  }

  /** Parts are compared as numbers, not as texts, whatever follows them. */
  lemma LowerNumberIsLower(p: string, x: string, y: string, s: string, t: string)
    requires S.IsDigits(x) && S.IsDigits(y) && Digits(x) < Digits(y) <= MAX_INT
    ensures Compare(Parts(p + "." + x + "." + s), Parts(p + "." + y + "." + t)) == -1
    ensures Compare(Parts(p + "." + y + "." + t), Parts(p + "." + x + "." + s)) == 1
  {
    NumberIsItsPart(x);
    NumberIsItsPart(y);
    PartsAppend(p + "." + x, s);
    PartsAppend(p, x);
    PartsAppend(p + "." + y, t);
    PartsAppend(p, y);
    FirstDifferenceDecides(Parts(p), Digits(x), Digits(y), Parts(s), Parts(t));
  }

  lemma NumberIsItsPart(x: string)
    requires S.IsDigits(x) && Digits(x) <= MAX_INT
    ensures Parts(x) == [Digits(x)]
  {
    OnePart(x);
    AtoiReadsNumbers(x, "");
  }

  /** A version compares with every other as it does with ".0" appended. */
  lemma AppendingZeroChangesNothing(a: string, b: string)
    ensures Compare(Parts(a + ".0"), Parts(b)) == Compare(Parts(a), Parts(b))
    ensures Compare(Parts(b), Parts(a + ".0")) == Compare(Parts(b), Parts(a))
  {
    ZeroHasOnePart();
    assert a + ".0" == a + "." + "0";
    PartsAppend(a, "0");
    var v := Parts(a);
    SamePartsCompareAlike(v, v + [0], Parts(b));
    CompareIsAntisymmetric(Parts(b), v);
    CompareIsAntisymmetric(Parts(b), v + [0]);
  }

  lemma ZeroHasOnePart()
    ensures Parts("0") == [0]
  {
    OnePart("0");
    assert "0"[..0] == "";
    assert ReadDigits("0") == Next(ReadDigits(""), '0');
  }

  lemma SamePartsCompareAlike(v: seq<int>, v': seq<int>, w: seq<int>)
    requires Same(v, v')
    ensures Compare(v', w) == Compare(v, w)
  {
    if k: nat :| LowerAt(v, w, k) { assert LowerAt(v', w, k); }
    if k: nat :| LowerAt(w, v, k) { assert LowerAt(w, v', k); }
    if k: nat :| LowerAt(v', w, k) { assert LowerAt(v, w, k); }
    if k: nat :| LowerAt(w, v', k) { assert LowerAt(w, v, k); }
  }
}
