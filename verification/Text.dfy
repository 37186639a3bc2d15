/** Strings as the control plane uses them: the byte order of `str::cmp`, `str::trim`,
    and decimal formatting. UTF-8 keeps code point order, so comparing characters
    gives the order the source gets from comparing bytes. */
module Text {

  datatype Option<+T> = None | Some(value: T)

  /** Strict lexicographic order; a proper prefix comes first. */
  predicate Less(a: string, b: string) {
    b != [] && (a == [] || a[0] < b[0] || (a[0] == b[0] && Less(a[1..], b[1..])))
  }

  lemma EmptyIsLeast(a: string)
    ensures Less("", a) <==> a != ""
  {
  }

  lemma {:induction false} LessIrreflexive(a: string)
    ensures !Less(a, a)
  {
    if a != [] { LessIrreflexive(a[1..]); }
  }

  lemma {:induction false} LessTransitive(a: string, b: string, c: string)
    requires Less(a, b) && Less(b, c)
    ensures Less(a, c)
  {
    if a != [] && a[0] == b[0] && b[0] == c[0] {
      LessTransitive(a[1..], b[1..], c[1..]);
    }
  }

  lemma LessAsymmetric(a: string, b: string)
    requires Less(a, b)
    ensures !Less(b, a) && a != b
  {
    LessIrreflexive(a);
    if Less(b, a) { LessTransitive(a, b, a); }
  }

  lemma {:induction false} LessTotal(a: string, b: string)
    ensures Less(a, b) || a == b || Less(b, a)
  {
    if a != [] && b != [] && a[0] == b[0] {
      LessTotal(a[1..], b[1..]);
      assert a == [a[0]] + a[1..] && b == [b[0]] + b[1..];
    }
  }

  /** A common prefix does not matter. */
  lemma {:induction false} LessAfterPrefix(p: string, a: string, b: string)
    ensures Less(p + a, p + b) <==> Less(a, b)
  {
    if p == [] {
      assert p + a == a && p + b == b;
    } else {
      LessAfterPrefix(p[1..], a, b);
      assert (p + a)[1..] == p[1..] + a && (p + b)[1..] == p[1..] + b;
    }
  }

  /** A nonempty set of strings has a greatest member. */
  lemma {:induction false} GreatestExists(s: set<string>) returns (m: string)
    requires s != {}
    ensures m in s && forall x :: x in s ==> !Less(m, x)
  {
    m :| m in s;
    var rest := s - {m};
    LessIrreflexive(m);
    if rest != {} {
      var r := GreatestExists(rest);
      if Less(m, r) {
        LessAsymmetric(m, r);
        LessIrreflexive(r);
        m := r;
      } else {
        forall x | x in s ensures !Less(m, x) {
          if Less(m, x) {
            LessTotal(r, x);
            LessTotal(m, r);
            if Less(r, m) { LessTransitive(r, m, x); }
          }
        }
      }
    }
  }

  /** Characters with the Unicode White_Space property, which `trim` removes. */
  predicate IsWhitespace(c: char) {
    var n := c as int;
    9 <= n <= 13 || n == 0x20 || n == 0x85 || n == 0xA0 || n == 0x1680 || 0x2000 <= n <= 0x200A ||
    n == 0x2028 || n == 0x2029 || n == 0x202F || n == 0x205F || n == 0x3000
  }

  function TrimStart(s: string): string {
    if s != [] && IsWhitespace(s[0]) then TrimStart(s[1..]) else s
  }

  function TrimEnd(s: string): string {
    if s != [] && IsWhitespace(s[|s| - 1]) then TrimEnd(s[..|s| - 1]) else s
  }

  function Trim(s: string): string {
    TrimStart(TrimEnd(s))
  }

  lemma {:induction false} TrimmedEnds(s: string)
    ensures TrimEnd(s) != "" ==> !IsWhitespace(TrimEnd(s)[|TrimEnd(s)| - 1])
    ensures TrimStart(s) != "" ==> !IsWhitespace(TrimStart(s)[0])
    ensures TrimStart(s) != "" ==> TrimStart(s)[|TrimStart(s)| - 1] == s[|s| - 1]
    decreases |s|
  {
    if s != "" {
      if IsWhitespace(s[|s| - 1]) { TrimmedEnds(s[..|s| - 1]); }
      if IsWhitespace(s[0]) { TrimmedEnds(s[1..]); }
    }
  }

  lemma TrimTwice(s: string)
    ensures Trim(Trim(s)) == Trim(s)
  {
    TrimmedEnds(s);
    TrimmedEnds(TrimEnd(s));
    TrimmedEnds(TrimStart(s));
  }

  predicate IsBlank(s: string) {
    forall i :: 0 <= i < |s| ==> IsWhitespace(s[i])
  }

  /** Nothing to trim at either end. */
  predicate IsTrimmed(s: string) {
    s == "" || (!IsWhitespace(s[0]) && !IsWhitespace(s[|s| - 1]))
  }

  lemma {:induction false} TrimStartIs(a: string, t: string)
    requires IsBlank(a) && (t == "" || !IsWhitespace(t[0]))
    ensures TrimStart(a + t) == t
  {
    if a == "" {
      assert a + t == t;
    } else {
      TrimStartIs(a[1..], t);
      assert (a + t)[1..] == a[1..] + t;
    }
  }

  lemma {:induction false} TrimEndIs(t: string, b: string)
    requires IsBlank(b) && (t == "" || !IsWhitespace(t[|t| - 1]))
    ensures TrimEnd(t + b) == t
  {
    if b == "" {
      assert t + b == t;
    } else {
      TrimEndIs(t, b[..|b| - 1]);
      assert (t + b)[..|t + b| - 1] == t + b[..|b| - 1];
    }
  }

  lemma {:induction false} TrimStartCuts(s: string) returns (a: string)
    ensures IsBlank(a) && s == a + TrimStart(s)
  {
    a := "";
    if s != "" && IsWhitespace(s[0]) {
      a := TrimStartCuts(s[1..]);
      assert s == [s[0]] + (a + TrimStart(s[1..])) == ([s[0]] + a) + TrimStart(s);
      a := [s[0]] + a;
    }
  }

  lemma {:induction false} TrimEndCuts(s: string) returns (b: string)
    ensures IsBlank(b) && s == TrimEnd(s) + b
  {
    b := "";
    if s != "" && IsWhitespace(s[|s| - 1]) {
      var n := |s| - 1;
      b := TrimEndCuts(s[..n]);
      assert s == s[..n] + [s[n]] == TrimEnd(s) + (b + [s[n]]);
      b := b + [s[n]];
    }
  }

  /** MAIN: trimming takes white space off both ends and nothing else, as much as there is. */
  lemma TrimIs(s: string, t: string)
    ensures Trim(s) == t <==> IsTrimmed(t) && exists a, b :: IsBlank(a) && IsBlank(b) && s == a + t + b
  {
    if Trim(s) == t {
      var b := TrimEndCuts(s);
      var a := TrimStartCuts(TrimEnd(s));
      assert s == a + t + b;
      TrimmedEnds(s);
      TrimmedEnds(TrimEnd(s));
    }
    if a, b :| IsBlank(a) && IsBlank(b) && s == a + t + b {
      if IsTrimmed(t) { TrimsTo(a, t, b); }
    }
  }

  lemma TrimsTo(a: string, t: string, b: string)
    requires IsTrimmed(t) && IsBlank(a) && IsBlank(b)
    ensures Trim(a + t + b) == t
  {
    if t == "" {
      assert a + t + b == "" + (a + b);
      TrimEndIs("", a + b);
    } else {
      TrimEndIs(a + t, b);
      TrimStartIs(a, t);
    }
  }

  predicate IsDigit(c: char) {
    '0' <= c <= '9'
  }

  predicate AllDigits(s: string) {
    forall i :: 0 <= i < |s| ==> IsDigit(s[i])
  }

  function DigitChar(d: nat): (c: char)
    requires d < 10
    ensures IsDigit(c) && DigitOf(c) == d
  {
    ('0' as int + d) as char
  }

  function DigitOf(c: char): nat
    requires IsDigit(c)
  {
    c as int - '0' as int
  }

  /** The number a digit string denotes. */
  function Value(s: string): nat
    requires AllDigits(s)
  {
    if s == [] then 0 else 10 * Value(s[..|s| - 1]) + DigitOf(s[|s| - 1])
  }

  /** `format!("{n}")`. */
  function Decimal(n: nat): (s: string)
    ensures AllDigits(s) && Value(s) == n
    ensures s != [] && (|s| > 1 ==> s[0] != '0')
  {
    if n < 10 then [DigitChar(n)]
    else
      var head := Decimal(n / 10);
      var s := head + [DigitChar(n % 10)];
      assert s[..|s| - 1] == head;
      assert head[0] != '0' by { if |head| == 1 { assert Value(head[..0]) == 0; } }
      s
  }
}
