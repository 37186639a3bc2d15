/** Version succession: what every configuration edit does to the version string of an
    edge's latest package, and for how long that makes the edit the new latest package. */
module Versions {
  import opened Text

  const U64_LIMIT: nat := 0x1_0000_0000_0000_0000

  /** `rsplit_once('-')`: the text before and after the last hyphen. */
  function RSplitHyphen(v: string): (r: Option<(string, string)>)
    ensures r.None? <==> '-' !in v
    ensures r.Some? ==> v == r.value.0 + "-" + r.value.1 && '-' !in r.value.1
  {
    if v == [] then None
    else if v[|v| - 1] == '-' then
      assert v == v[..|v| - 1] + "-" + "";
      Some((v[..|v| - 1], ""))
    else
      assert v == v[..|v| - 1] + [v[|v| - 1]];
      match RSplitHyphen(v[..|v| - 1])
      case None => None
      case Some((p, s)) => Some((p, s + [v[|v| - 1]]))
  }

  /** `parse::<u64>()`: an optional plus sign, at least one digit, no overflow. */
  function ParseU64(s: string): (r: Option<nat>)
    ensures r.Some? ==> r.value < U64_LIMIT
  {
    var digits := if s != [] && s[0] == '+' then s[1..] else s;
    if digits != [] && AllDigits(digits) && Value(digits) < U64_LIMIT then Some(Value(digits)) else None
  }

  /** `format!("{n:03}")`. */
  function Padded(n: nat): (s: string)
    ensures AllDigits(s) && Value(s) == n && |s| >= 3 && (|s| > 3 ==> s[0] != '0')
  {
    var d := Decimal(n);
    if |d| >= 3 then d
    else if |d| == 2 then LeadingZero(d); "0" + d
    else LeadingZero(d); LeadingZero("0" + d); "0" + ("0" + d)
  }

  /** The number an edit writes after the hyphen: one more than the old suffix, which counts
      as zero when it is not a number. */
  function NextNumber(suffix: string): nat {
    (match ParseU64(suffix) case Some(n) => n case None => 0) + 1
  }

  /** The version an edit gives to the package it rewrites; none when the suffix is the
      greatest `u64` and the increment overflows. */
  function NextVersion(version: string): Option<string> {
    match RSplitHyphen(version)
    case None => Some(version + "-001")
    case Some((prefix, suffix)) =>
      var next := NextNumber(suffix);
      if next == U64_LIMIT then None else Some(prefix + "-" + Padded(next))
  }

  predicate AllOf(s: string, c: char) {
    forall i :: 0 <= i < |s| ==> s[i] == c
  }

  /** The versions an edit moves forward: no hyphen, or after the last hyphen a number of at
      least three digits that is not all nines, or one or two zeros, or text below "001". */
  predicate Advances(version: string) {
    match RSplitHyphen(version)
    case None => true
    case Some((_, suffix)) =>
      if suffix != [] && AllDigits(suffix) && Value(suffix) < U64_LIMIT
      then (if |suffix| >= 3 then !AllOf(suffix, '9') else AllOf(suffix, '0'))
      else Less(suffix, "001")
  }

  // ----- digit strings

  lemma {:induction false} LeadingZero(s: string)
    requires AllDigits(s)
    ensures AllDigits("0" + s) && Value("0" + s) == Value(s)
  {
    if s != [] {
      LeadingZero(s[..|s| - 1]);
      assert ("0" + s)[..|s|] == "0" + s[..|s| - 1];
    } else {
      assert ("0" + s)[..0] == "";
    }
  }

  lemma {:induction false} ValuePositive(s: string)
    requires AllDigits(s)
    ensures Value(s) == 0 <==> AllOf(s, '0')
  {
    if s != [] {
      ValuePositive(s[..|s| - 1]);
      assert forall i :: 0 <= i < |s| - 1 ==> s[i] == s[..|s| - 1][i];
    }
  }

  /** Two digit strings of the same length with the same value are equal. */
  lemma {:induction false} SameLengthSameValue(a: string, b: string)
    requires AllDigits(a) && AllDigits(b) && |a| == |b| && Value(a) == Value(b)
    ensures a == b
  {
    if a != [] {
      SameLengthSameValue(a[..|a| - 1], b[..|b| - 1]);
      assert a == a[..|a| - 1] + [a[|a| - 1]] && b == b[..|b| - 1] + [b[|b| - 1]];
    }
  }

  function Power10(n: nat): nat {
    if n == 0 then 1 else 10 * Power10(n - 1)
  }

  lemma {:induction false} ValueBounds(s: string)
    requires AllDigits(s)
    ensures Value(s) < Power10(|s|)
    ensures s != [] && s[0] != '0' ==> Value(s) >= Power10(|s| - 1)
    ensures Value(s) == Power10(|s|) - 1 <==> AllOf(s, '9')
  {
    if s != [] {
      var t := s[..|s| - 1];
      ValueBounds(t);
      assert forall i :: 0 <= i < |t| ==> s[i] == t[i];
    }
  }

  lemma {:induction false} Power10Monotone(a: nat, b: nat)
    requires a <= b
    ensures 1 <= Power10(a) <= Power10(b)
    decreases b
  {
    if a < b { Power10Monotone(a, b - 1); } else if a > 0 { Power10Monotone(a - 1, b - 1); }
  }

  /** At least three digits and no needless leading zero: only one such string per value. */
  lemma PaddedUnique(s: string, n: nat)
    requires AllDigits(s) && Value(s) == n && |s| >= 3 && (|s| > 3 ==> s[0] != '0')
    ensures s == Padded(n)
  {
    hide Padded, Value, Power10;
    var p := Padded(n);
    ValueBounds(s);
    ValueBounds(p);
    if |s| < |p| {
      Power10Monotone(|s|, |p| - 1);
    } else if |p| < |s| {
      Power10Monotone(|p|, |s| - 1);
    } else {
      SameLengthSameValue(s, p);
    }
  }

  /** Adding one without changing the length raises a number that is not all nines. */
  lemma {:induction false} Increment(s: string) returns (t: string)
    requires AllDigits(s) && !AllOf(s, '9')
    ensures AllDigits(t) && |t| == |s| && Value(t) == Value(s) + 1 && Less(s, t)
  {
    var head, last := s[..|s| - 1], s[|s| - 1];
    assert s == head + [last];
    if last != '9' {
      var up := DigitChar(DigitOf(last) + 1);
      t := head + [up];
      assert t[..|t| - 1] == head;
      LessAfterPrefix(head, [last], [up]);
    } else {
      var head' := Increment(head);
      t := head' + "0";
      assert t[..|t| - 1] == head';
      LessExtends(head, head', [last], "0");
    }
  }

  lemma {:induction false} LessExtends(a: string, b: string, x: string, y: string)
    requires |a| == |b| && Less(a, b)
    ensures Less(a + x, b + y)
  {
    if a != [] && a[0] == b[0] {
      LessExtends(a[1..], b[1..], x, y);
      assert (a + x)[1..] == a[1..] + x && (b + y)[1..] == b[1..] + y;
    }
  }

  /** Dropping a leading zero raises a nonzero number in string order. */
  lemma {:induction false} DropZeroRaises(s: string)
    requires s != [] && AllDigits(s) && s[0] == '0' && !AllOf(s, '0')
    ensures Less(s, s[1..]) && AllDigits(s[1..]) && !AllOf(s[1..], '0') && Value(s[1..]) == Value(s)
  {
    assert s == "0" + s[1..];
    LeadingZero(s[1..]);
    ValuePositive(s);
    ValuePositive(s[1..]);
    if s[1] == '0' { DropZeroRaises(s[1..]); }
  }

  /** Padding never lowers a nonzero number of at least three digits. */
  lemma {:induction false} PaddedAtLeast(s: string)
    requires AllDigits(s) && |s| >= 3 && !AllOf(s, '0')
    ensures s == Padded(Value(s)) || Less(s, Padded(Value(s)))
  {
    if |s| == 3 || s[0] != '0' {
      PaddedUnique(s, Value(s));
    } else {
      DropZeroRaises(s);
      PaddedAtLeast(s[1..]);
      if s[1..] != Padded(Value(s)) { LessTransitive(s, s[1..], Padded(Value(s))); }
    }
  }

  // ----- the exact condition

  lemma LongNumber(s: string)
    requires AllDigits(s) && |s| >= 3
    ensures Less(s, Padded(Value(s) + 1)) <==> !AllOf(s, '9')
    ensures s != Padded(Value(s) + 1)
  {
    var p := Padded(Value(s) + 1);
    if AllOf(s, '9') {
      ValueBounds(s);
      var one := "1" + seq(|s|, _ => '0');
      PowerOfTen(|s|);
      PaddedUnique(one, Power10(|s|));
      assert p[0] == '1' && s[0] == '9';
    } else {
      var t := Increment(s);
      ValuePositive(t);
      PaddedAtLeast(t);
      if t != p { LessTransitive(s, t, p); }
    }
  }

  lemma {:induction false} PowerOfTen(n: nat)
    ensures var s := "1" + seq(n, _ => '0'); AllDigits(s) && Value(s) == Power10(n)
  {
    var s := "1" + seq(n, _ => '0');
    if n > 0 {
      PowerOfTen(n - 1);
      assert s[..|s| - 1] == "1" + seq(n - 1, _ => '0');
    } else {
      assert s == "1" && s[..0] == "";
    }
  }

  /** The three padded digits of a small number. */
  lemma PaddedThree(n: nat)
    requires n < 1000
    ensures Padded(n) == [DigitChar(n / 100), DigitChar(n / 10 % 10), DigitChar(n % 10)]
  {
    var s := [DigitChar(n / 100), DigitChar(n / 10 % 10), DigitChar(n % 10)];
    assert s[..2][..1][..0] == "" && s[..2][..1] == [s[0]] && s[..2] == [s[0], s[1]];
    assert Value([s[0]]) == n / 100;
    assert Value([s[0], s[1]]) == 10 * (n / 100) + n / 10 % 10;
    PaddedUnique(s, n);
  }

  lemma LessThree(s: string, p: string)
    requires 1 <= |s| <= 2 && |p| == 3
    ensures Less(s, p) <==> s[0] < p[0] || (s[0] == p[0] && (|s| == 1 || s[1] < p[1] || s[1] == p[1]))
  {
    assert |s| == 1 ==> s[1..] == "";
    assert |s| == 2 ==> s[1..] == [s[1]] && s[1..][1..] == "";
    assert p[1..] == [p[1], p[2]] && p[1..][1..] == [p[2]];
    assert |s| == 2 ==> (Less(s[1..], p[1..]) <==> s[1] < p[1] || s[1] == p[1]);
  }

  lemma ShortValue(s: string)
    requires AllDigits(s) && 1 <= |s| <= 2
    ensures Value(s) == if |s| == 1 then DigitOf(s[0]) else 10 * DigitOf(s[0]) + DigitOf(s[1])
  {
    if |s| == 1 {
      assert s[..0] == "" && Value("") == 0;
    } else {
      ShortValue(s[..1]);
    }
  }

  lemma CharOrder(a: char, b: char)
    requires IsDigit(a) && IsDigit(b)
    ensures a < b <==> DigitOf(a) < DigitOf(b)
    ensures a == b <==> DigitOf(a) == DigitOf(b)
  {
  }

  lemma ShortNumber(s: string)
    requires AllDigits(s) && 1 <= |s| <= 2
    ensures Less(s, Padded(Value(s) + 1)) <==> AllOf(s, '0')
    ensures s != Padded(Value(s) + 1)
  {
    hide Padded, Less, Value;
    ShortValue(s);
    ShortDigits(s, Value(s));
  }

  lemma ShortDigits(s: string, n: nat)
    requires AllDigits(s) && 1 <= |s| <= 2
    requires n == if |s| == 1 then DigitOf(s[0]) else 10 * DigitOf(s[0]) + DigitOf(s[1])
    ensures Less(s, Padded(n + 1)) <==> AllOf(s, '0')
    ensures |Padded(n + 1)| == 3
  {
    hide Padded, Less;
    PaddedThree(n + 1);
    var x, y, z := (n + 1) / 100, (n + 1) / 10 % 10, (n + 1) % 10;
    var p := [DigitChar(x), DigitChar(y), DigitChar(z)];
    LessThree(s, p);
    CharOrder(s[0], p[0]);
    CharOrder(s[0], '0');
    if |s| == 1 {
      assert x == 0;
    } else {
      CharOrder(s[1], p[1]);
      CharOrder(s[1], '0');
      ShortArithmetic(DigitOf(s[0]), DigitOf(s[1]));
    }
  }

  lemma ShortArithmetic(a: nat, b: nat)
    requires a < 10 && b < 10
    ensures var n := 10 * a + b + 1;
            a < n / 100 || (a == n / 100 && b <= n / 10 % 10) <==> a == 0 && b == 0
  {
  }

  /** MAIN: an edit's version is above the version it replaces exactly when `Advances` says
      so, and is never the same version. */
  lemma NextVersionExact(v: string)
    requires NextVersion(v).Some?
    ensures Less(v, NextVersion(v).value) <==> Advances(v)
    ensures NextVersion(v).value != v
  {
    hide RSplitHyphen, Padded, Less, Value;
    match RSplitHyphen(v) {
      case None =>
        LessAfterPrefix(v, "", "-001");
        EmptyIsLeast("-001");
        assert v + "" == v;
      case Some((p, s)) =>
        var k := NextNumber(s);
        assert v == (p + "-") + s && NextVersion(v).value == (p + "-") + Padded(k);
        LessAfterPrefix(p + "-", s, Padded(k));
        assert ((p + "-") + s)[|p| + 1..] == s && ((p + "-") + Padded(k))[|p| + 1..] == Padded(k);
        if s != [] && AllDigits(s) && Value(s) < U64_LIMIT {
          if |s| >= 3 { LongNumber(s); } else { ShortNumber(s); }
        } else {
          OtherSuffix(s);
        }
    }
  }

  lemma OtherSuffix(s: string)
    requires !(s != [] && AllDigits(s) && Value(s) < U64_LIMIT)
    ensures Less(s, Padded(NextNumber(s))) <==> Less(s, "001")
    ensures s != Padded(NextNumber(s))
  {
    PaddedThree(1);
    assert Padded(1) == "001";
    if ParseU64(s).Some? {
      assert s[0] == '+' && IsDigit(Padded(NextNumber(s))[0]);
    }
  }

  // ----- runs of edits on one edge

  /** `v` is the version of `latest_config_package_for_edge`. */
  ghost predicate IsLatest(versions: set<string>, v: string) {
    v in versions && forall x :: x in versions ==> !Less(v, x)
  }

  /** The stored versions of an edge after an edit that rewrites the latest package `v`. */
  function AfterEdit(versions: set<string>, v: string): set<string> {
    match NextVersion(v)
    case None => versions
    case Some(next) => versions + {next}
  }

  /** An edit becomes the latest package and overwrites no stored revision exactly when the
      latest version advances; otherwise the latest package stays what it was. */
  lemma EditBecomesLatest(versions: set<string>, v: string)
    requires IsLatest(versions, v) && NextVersion(v).Some?
    ensures var next := NextVersion(v).value;
            if Advances(v) then next !in versions && IsLatest(AfterEdit(versions, v), next)
            else IsLatest(AfterEdit(versions, v), v) && !IsLatest(AfterEdit(versions, v), next)
  {
    var next := NextVersion(v).value;
    NextVersionExact(v);
    LessTotal(v, next);
    LessIrreflexive(next);
    if Advances(v) {
      forall x | x in versions ensures !Less(next, x) {
        if Less(next, x) { LessTransitive(v, next, x); }
      }
    } else {
      LessAsymmetric(next, v);
      assert v in AfterEdit(versions, v);
    }
  }

  /** The stored versions of one edge together with the one its next edit rewrites. */
  datatype Shelf = Shelf(versions: set<string>, latest: string)

  /** Repeated edits, each rewriting whatever package is then the latest. */
  ghost predicate IsEditRun(run: seq<Shelf>) {
    && (forall i :: 0 <= i < |run| ==> IsLatest(run[i].versions, run[i].latest))
    && (forall i :: 0 <= i < |run| - 1 ==>
          NextVersion(run[i].latest).Some? && run[i + 1].versions == AfterEdit(run[i].versions, run[i].latest))
  }

  lemma LatestUnique(versions: set<string>, a: string, b: string)
    requires IsLatest(versions, a) && IsLatest(versions, b)
    ensures a == b
  {
    LessTotal(a, b);
  }

  lemma {:induction false} SplitSuffix(p: string, s: string)
    requires '-' !in s
    ensures RSplitHyphen(p + "-" + s) == Some((p, s))
    decreases |s|
  {
    var v := p + "-" + s;
    if s == [] {
      assert v[..|v| - 1] == p;
    } else {
      SplitSuffix(p, s[..|s| - 1]);
      assert v[..|v| - 1] == p + "-" + s[..|s| - 1];
      assert s == s[..|s| - 1] + [s[|s| - 1]];
    }
  }

  /** The suffix is a number: digits, perhaps after a plus sign. */
  predicate IsNumber(s: string, digits: string) {
    digits != [] && AllDigits(digits) && (s == digits || s == "+" + digits)
  }

  /** MAIN: the version an edit writes. After a hyphen and a number it is the next number, padded to
      three digits, and there is none exactly at the greatest `u64`; after a hyphen and anything else
      it starts over at 001; without a hyphen it is "-001" added. */
  lemma NextVersionIs(p: string, s: string, digits: string)
    requires '-' !in s
    ensures IsNumber(s, digits) && Value(digits) + 1 < U64_LIMIT ==>
              NextVersion(p + "-" + s) == Some(p + "-" + Padded(Value(digits) + 1))
    ensures IsNumber(s, digits) && Value(digits) + 1 == U64_LIMIT ==> NextVersion(p + "-" + s) == None
    ensures (forall d :: IsNumber(s, d) ==> Value(d) >= U64_LIMIT) ==> NextVersion(p + "-" + s) == Some(p + "-001")
    ensures NextVersion(s) == Some(s + "-001")
  {
    hide Padded, Value, RSplitHyphen;
    SplitSuffix(p, s);
    PaddedOne();
    assert p + "-" + "001" == p + "-001";
    if IsNumber(s, digits) { ParsesNumber(s, digits); }
    if ParseU64(s).Some? { ParsedIsNumber(s); }
  }

  lemma PaddedOne()
    ensures Padded(1) == "001"
  {
    PaddedThree(1);
  }

  lemma ParsesNumber(s: string, digits: string)
    requires IsNumber(s, digits)
    ensures ParseU64(s) == if Value(digits) < U64_LIMIT then Some(Value(digits)) else None
  {
    assert ("+" + digits)[1..] == digits;
    assert IsDigit(digits[0]);
  }

  lemma ParsedIsNumber(s: string)
    requires ParseU64(s).Some?
    ensures exists d :: IsNumber(s, d) && Value(d) < U64_LIMIT
  {
    if s[0] == '+' {
      assert s == "+" + s[1..] && IsNumber(s, s[1..]);
    } else {
      assert IsNumber(s, s);
    }
  }

  /** The version string of the k-th edit. */
  function Numbered(p: string, k: nat): string {
    p + "-" + Padded(k)
  }

  lemma NextOfNumbered(p: string, k: nat)
    requires k + 1 < U64_LIMIT
    ensures NextVersion(Numbered(p, k)) == Some(Numbered(p, k + 1))
    ensures Advances(Numbered(p, k)) <==> !AllOf(Padded(k), '9')
  {
    var s := Padded(k);
    assert '-' !in s by { assert forall i :: 0 <= i < |s| ==> s[i] != '-'; }
    SplitSuffix(p, s);
    assert s[0] != '+';
  }

  lemma AllNines(k: nat)
    requires k <= LAST
    ensures AllOf(Padded(k), '9') <==> k == LAST
  {
    hide Padded;
    PaddedThree(k);
    var p := [DigitChar(k / 100), DigitChar(k / 10 % 10), DigitChar(k % 10)];
    forall i | 0 <= i < 3 ensures p[i] == '9' <==> DigitOf(p[i]) == 9 { CharOrder(p[i], '9'); }
    assert AllOf(p, '9') <==> p[0] == '9' && p[1] == '9' && p[2] == '9';
  }

  /** The version after `edits` edits of `base`. */
  function EditName(base: string, edits: nat): string {
    if edits == 0 then base else Numbered(base, edits)
  }

  lemma EditNameStep(base: string, edits: nat)
    requires '-' !in base && edits < LAST
    ensures NextVersion(EditName(base, edits)) == Some(EditName(base, edits + 1))
    ensures Advances(EditName(base, edits))
  {
    if edits == 0 {
      PaddedThree(1);
      assert base + "-001" == base + "-" + Padded(1);
    } else {
      NextOfNumbered(base, edits);
      AllNines(edits);
    }
  }

  lemma EditRunStep(run: seq<Shelf>, i: nat)
    requires IsEditRun(run) && i + 1 < |run|
    ensures NextVersion(run[i].latest).Some?
    ensures run[i + 1].versions == run[i].versions + {NextVersion(run[i].latest).value}
    ensures run[i + 1].latest == if Advances(run[i].latest) then NextVersion(run[i].latest).value else run[i].latest
  {
    var v := run[i].latest;
    EditBecomesLatest(run[i].versions, v);
    LatestUnique(run[i + 1].versions, run[i + 1].latest, if Advances(v) then NextVersion(v).value else v);
  }

  /** The versions of the first `edits` edits. */
  function EditNames(base: string, edits: nat): set<string> {
    if edits == 0 then {} else EditNames(base, edits - 1) + {EditName(base, edits)}
  }

  /** MAIN: the first 999 edits of a package whose version `base` has no hyphen are numbered
      001 to 999 in order, and each becomes the latest package. */
  lemma {:induction false} EditsAreNumbered(base: string, run: seq<Shelf>, edits: nat)
    requires IsEditRun(run) && edits < |run| && edits <= LAST
    requires run[0].latest == base && '-' !in base
    ensures run[edits].latest == EditName(base, edits)
    ensures run[edits].versions == run[0].versions + EditNames(base, edits)
  {
    if edits > 0 {
      EditsAreNumbered(base, run, edits - 1);
      EditRunStep(run, edits - 1);
      EditNameStep(base, edits - 1);
    }
  }

  /** The last number that fits the three digits. */
  const LAST: nat := 999

  lemma LastNumbered(p: string)
    ensures NextVersion(Numbered(p, LAST)) == Some(Numbered(p, LAST + 1)) && !Advances(Numbered(p, LAST))
  {
    hide Numbered, NextVersion, Advances, Padded;
    NextOfNumbered(p, LAST);
    AllNines(LAST);
  }

  /** MAIN: at 999 succession stalls. Whatever the number of further edits, the latest package
      stays `p-999` and every edit writes the same revision `p-1000`, over the one before. */
  lemma {:induction false} EditsStallAt999(p: string, run: seq<Shelf>, edits: nat)
    requires IsEditRun(run) && edits < |run| && run[0].latest == Numbered(p, LAST)
    ensures run[edits].latest == Numbered(p, LAST)
    ensures edits > 0 ==> run[edits].versions == run[0].versions + {Numbered(p, LAST + 1)}
  {
    hide Numbered, NextVersion, Advances;
    if edits > 0 {
      EditsStallAt999(p, run, edits - 1);
      EditRunStep(run, edits - 1);
      LastNumbered(p);
    }
  }
}
