/**
 Version normalisation, in Go (internal/audience/registry/semver.go) and as the database function the
 compiled predicates call (semver_normalize in migrations/0003_audience_channels.sql).
 */
module SemVer {
  import opened Wrappers
  import opened Ordering
  import opened Decimals

  const WIDTH: nat := 10

  /** `strings.Split(s, ".")`, which is also the database's split on `\.`. */
  function Split(s: string): (parts: seq<string>)
    ensures parts != []
  {
    if s == [] then [[]]
    else if s[0] == '.' then [[]] + Split(s[1..])
    else
      var rest := Split(s[1..]);
      [[s[0]] + rest[0]] + rest[1..]
  }

  /** The component at `i`, a missing one being "0". */
  function Component(parts: seq<string>, i: nat): string {
    if i < |parts| then parts[i] else "0"
  }

  datatype Version = Version(major: nat, minor: nat, patch: nat)

  function Parse(s: string): Option<Version> {
    var parts := Split(s);
    if |parts| > 3 then None
    else
      match (ParseUint(Component(parts, 0)), ParseUint(Component(parts, 1)), ParseUint(Component(parts, 2)))
      case (Some(a), Some(b), Some(c)) => Some(Version(a, b, c))
      case _ => None
  }

  function Joined(a: string, b: string, c: string): string {
    a + (['.'] + (b + (['.'] + c)))
  }

  function Render(v: Version): string {
    Joined(Padded(v.major, WIDTH), Padded(v.minor, WIDTH), Padded(v.patch, WIDTH))
  }

  /** What normalisation promises: the padded components of the parsed version, or an error. */
  function Normalized(s: string): Option<string> {
    match Parse(s)
    case None => None
    case Some(v) => Some(Render(v))
  }

  function PadOne(c: string): Option<string> {
    match ParseUint(c)
    case None => None
    case Some(n) => Some(Padded(n, WIDTH))
  }

  lemma {:induction false} NormalizedParts(s: string)
    ensures var parts := Split(s);
            var a, b, c := PadOne(Component(parts, 0)), PadOne(Component(parts, 1)), PadOne(Component(parts, 2));
            Normalized(s) == if |parts| <= 3 && a.Some? && b.Some? && c.Some? then Some(Joined(a.value, b.value, c.value)) else None
  {
  }

  method NormalizeSemVer(s: string) returns (r: Option<string>)
    ensures r == Normalized(s)
  {
    var parts := Split(s);
    NormalizedParts(s);
    if |parts| > 3 {
      return None;
    }
    var padded := new string[3];
    for i := 0 to 3
      invariant forall k :: 0 <= k < i ==> PadOne(Component(parts, k)) == Some(padded[k])
    {
      var component := Component(parts, i);
      var p := PadOne(component);
      if p.None? {
        return None;
      }
      padded[i] := p.value;
    }
    return Some(Joined(padded[0], padded[1], padded[2]));
  }

  // ---- Order ----

  predicate VersionLe(a: Version, b: Version) {
    || a.major < b.major
    || (a.major == b.major && (a.minor < b.minor || (a.minor == b.minor && a.patch <= b.patch)))
  }

  predicate Below(v: Version, limit: nat) {
    v.major < limit && v.minor < limit && v.patch < limit
  }

  lemma {:induction false} TenTimes(v: nat, p: nat, r: nat)
    ensures 10 * (v * p + r) == v * (10 * p) + 10 * r
  {
  }

  lemma {:induction false} ValueHead(c: char, s: string)
    requires IsDigit(c) && AllDigits(s)
    ensures AllDigits([c] + s) && Value([c] + s) == DigitValue(c) * Pow10(|s|) + Value(s)
  {
    if s == [] {
      assert ([c] + s)[..|[c] + s| - 1] == [];
    } else {
      ValueHead(c, s[..|s| - 1]);
      assert ([c] + s)[..|[c] + s| - 1] == [c] + s[..|s| - 1];
      TenTimes(DigitValue(c), Pow10(|s| - 1), Value(s[..|s| - 1]));
    }
  }

  /** Digit strings of one width compare as their values do. */
  lemma {:induction false} SameWidthOrder(s: string, t: string)
    requires AllDigits(s) && AllDigits(t) && |s| == |t|
    ensures StringLe(s, t) <==> Value(s) <= Value(t)
    ensures s == t <==> Value(s) == Value(t)
  {
    if s != [] {
      var s', t' := s[1..], t[1..];
      assert s == [s[0]] + s' && t == [t[0]] + t';
      SameWidthOrder(s', t');
      ValueHead(s[0], s');
      ValueHead(t[0], t');
      ValueBound(s');
      ValueBound(t');
      var d, e, p := DigitValue(s[0]), DigitValue(t[0]), Pow10(|s'|);
      if d < e {
        LeadingDigit(d, e, p);
      } else if e < d {
        LeadingDigit(e, d, p);
      }
    }
  }

  lemma {:induction false} LeadingDigit(d: nat, e: nat, p: nat)
    requires d < e
    ensures d * p + p <= e * p
  {
    assert e * p == (e - 1) * p + p;
    if d + 1 < e {
      LeadingDigit(d, e - 1, p);
    }
  }

  /** Behind equal-width heads the comparison is lexicographic. */
  lemma {:induction false} HeadsFirst(x: string, u: string, y: string, v: string)
    requires |x| == |y|
    ensures StringLe(x + u, y + v) <==> if x == y then StringLe(u, v) else StringLe(x, y)
  {
    if x == y {
      StringLePrefix(x, u, v);
    } else {
      assert (x + u)[1..] == x[1..] + u && (y + v)[1..] == y[1..] + v;
      if x[0] == y[0] {
        assert x == [x[0]] + x[1..] && y == [y[0]] + y[1..];
        HeadsFirst(x[1..], u, y[1..], v);
      }
    }
  }

  lemma {:induction false} PaddedWidth(n: nat)
    requires n < Pow10(WIDTH)
    ensures |Padded(n, WIDTH)| == WIDTH
  {
    DigitsLength(n, WIDTH);
  }

  lemma {:induction false} PaddedOrder(m: nat, n: nat)
    requires m < Pow10(WIDTH) && n < Pow10(WIDTH)
    ensures |Padded(m, WIDTH)| == |Padded(n, WIDTH)|
    ensures StringLe(Padded(m, WIDTH), Padded(n, WIDTH)) <==> m <= n
    ensures Padded(m, WIDTH) == Padded(n, WIDTH) <==> m == n
  {
    PaddedWidth(m);
    PaddedWidth(n);
    PaddedValue(m, WIDTH);
    PaddedValue(n, WIDTH);
    SameWidthOrder(Padded(m, WIDTH), Padded(n, WIDTH));
  }

  /** Byte order of normalised versions is numeric order, and equality is equality, below 10^10. */
  lemma {:induction false} RenderPreservesOrder(a: Version, b: Version)
    requires Below(a, Pow10(WIDTH)) && Below(b, Pow10(WIDTH))
    ensures StringLe(Render(a), Render(b)) <==> VersionLe(a, b)
    ensures Render(a) == Render(b) <==> a == b
  {
    var a1, a2, a3 := Padded(a.major, WIDTH), Padded(a.minor, WIDTH), Padded(a.patch, WIDTH);
    var b1, b2, b3 := Padded(b.major, WIDTH), Padded(b.minor, WIDTH), Padded(b.patch, WIDTH);
    PaddedOrder(a.major, b.major);
    PaddedOrder(a.minor, b.minor);
    PaddedOrder(a.patch, b.patch);
    HeadsFirst(a1, ['.'] + (a2 + (['.'] + a3)), b1, ['.'] + (b2 + (['.'] + b3)));
    StringLePrefix(['.'], a2 + (['.'] + a3), b2 + (['.'] + b3));
    HeadsFirst(a2, ['.'] + a3, b2, ['.'] + b3);
    StringLePrefix(['.'], a3, b3);
    if Render(a) == Render(b) {
      SplitEqual(a1, ['.'] + (a2 + (['.'] + a3)), b1, ['.'] + (b2 + (['.'] + b3)));
      SplitEqual(['.'], a2 + (['.'] + a3), ['.'], b2 + (['.'] + b3));
      SplitEqual(a2, ['.'] + a3, b2, ['.'] + b3);
      SplitEqual(['.'], a3, ['.'], b3);
    }
  }

  ghost predicate OrderPreservedBelow(limit: nat) {
    forall a, b :: Below(a, limit) && Below(b, limit) ==> (StringLe(Render(a), Render(b)) <==> VersionLe(a, b))
  }

  /** Ten digits is exactly how far the order goes: any component limit past 10^10 breaks it. */
  lemma {:induction false} OrderPreservedIff(limit: nat)
    ensures OrderPreservedBelow(limit) <==> limit <= Pow10(WIDTH)
  {
    if limit <= Pow10(WIDTH) {
      forall a, b | Below(a, limit) && Below(b, limit) ensures StringLe(Render(a), Render(b)) <==> VersionLe(a, b) {
        RenderPreservesOrder(a, b);
      }
    } else {
      var a, b := Version(9999999999, 0, 0), Version(10000000000, 0, 0);
      EleventhDigit();
      assert Below(a, limit) && Below(b, limit) && VersionLe(a, b);
    }
  }

  lemma {:induction false} EleventhDigit()
    ensures Pow10(WIDTH) == 10000000000
    ensures !StringLe(Render(Version(9999999999, 0, 0)), Render(Version(10000000000, 0, 0)))
  {
    assert Pow10(5) == 100000;
    assert Pow10(8) == 100000000;
    assert Pow10(10) == 10000000000;
    DigitsLength(9999999999, WIDTH);
    LeadingOf(9999999999);
    LeadingOf(10000000000);
    DigitsLength(10000000000, WIDTH);
    assert LeadingDigitOf(9999999999) == 9 by {
      assert LeadingDigitOf(9999) == 9;
      assert LeadingDigitOf(99999999) == 9;
    }
    assert LeadingDigitOf(10000000000) == 1 by {
      assert LeadingDigitOf(10000) == 1;
      assert LeadingDigitOf(100000000) == 1;
    }
    DigitsAtLeast(9999999999, 9);
  }

  function LeadingDigitOf(n: nat): (d: nat)
    ensures d < 10
  {
    if n < 10 then n else LeadingDigitOf(n / 10)
  }

  lemma {:induction false} LeadingOf(n: nat)
    ensures Digits(n)[0] == Digit(LeadingDigitOf(n))
  {
    if n >= 10 {
      LeadingOf(n / 10);
    }
  }

  lemma {:induction false} DigitsAtLeast(n: nat, k: nat)
    requires k > 0 && n >= Pow10(k)
    ensures |Digits(n)| > k
  {
    DigitsLength(n, k);
  }

  // ---- The database's twin ----

  /** `lpad(c, 10, '0')`: pads short text, cuts long text. */
  function Lpad(c: string): (r: string)
    ensures |r| == WIDTH
  {
    if |c| >= WIDTH then c[..WIDTH] else Zeros(WIDTH - |c|) + c
  }

  /** semver_normalize: never an error and never NULL, not even for a NULL argument. */
  function SqlNormalized(v: Option<string>): string {
    var parts := match v case None => [] case Some(s) => Split(s);
    Joined(Lpad(Component(parts, 0)), Lpad(Component(parts, 1)), Lpad(Component(parts, 2)))
  }

  /** A component both sides read alike. */
  predicate Fits(c: string) {
    |c| <= WIDTH || forall d :: d in c ==> d == '0'
  }

  predicate AllFit(parts: seq<string>) {
    forall i :: 0 <= i < 3 ==> Fits(Component(parts, i))
  }

  /** Every component of the version is short enough for the database's padding. */
  predicate FitsDatabase(s: string) {
    AllFit(Split(s))
  }

  lemma {:induction false} ValueSplit(a: string, b: string)
    requires AllDigits(a) && AllDigits(b)
    ensures AllDigits(a + b) && Value(a + b) == Value(a) * Pow10(|b|) + Value(b)
  {
    if b == [] {
      assert a + b == a;
    } else {
      ValueSplit(a, b[..|b| - 1]);
      assert (a + b)[..|a + b| - 1] == a + b[..|b| - 1];
      TenTimes(Value(a), Pow10(|b| - 1), Value(b[..|b| - 1]));
    }
  }

  lemma {:induction false} ZeroValue(s: string)
    requires AllDigits(s)
    ensures Value(s) == 0 <==> forall d :: d in s ==> d == '0'
  {
    if s != [] {
      var front, last := s[..|s| - 1], s[|s| - 1];
      ZeroValue(front);
      ZeroDigit(last);
      assert s == front + [last];
      AllZeroSnoc(front, last);
    }
  }

  lemma {:induction false} ZeroDigit(c: char)
    requires IsDigit(c)
    ensures DigitValue(c) == 0 <==> c == '0'
  {
  }

  lemma {:induction false} AllZeroSnoc(front: string, last: char)
    ensures (forall d :: d in front + [last] ==> d == '0') <==> last == '0' && forall d :: d in front ==> d == '0'
  {
    assert last in front + [last];
    assert forall d :: d in front ==> d in front + [last];
  }

  lemma {:induction false} LpadShort(c: string)
    requires AllDigits(c) && c != [] && |c| <= WIDTH
    ensures Lpad(c) == Padded(Value(c), WIDTH)
  {
    var n := Value(c);
    ValueBound(c);
    Pow10Monotone(|c|, WIDTH);
    PaddedWidth(n);
    PaddedValue(n, WIDTH);
    LpadValue(c);
    SameWidthOrder(Lpad(c), Padded(n, WIDTH));
  }

  lemma {:induction false} LpadValue(c: string)
    requires AllDigits(c) && |c| <= WIDTH
    ensures AllDigits(Lpad(c)) && Value(Lpad(c)) == Value(c)
  {
    if |c| < WIDTH {
      ValueOfZeros(WIDTH - |c|, c);
    } else {
      assert c[..WIDTH] == c;
    }
  }

  lemma {:induction false} Pow10Monotone(j: nat, k: nat)
    requires j <= k
    ensures Pow10(j) <= Pow10(k)
  {
    if j < k {
      Pow10Monotone(j, k - 1);
    }
  }

  lemma {:induction false} LongProduct(n: nat, p: nat, r: nat)
    requires n * p + r == n && p >= 10
    ensures n == 0
  {
    assert n * p >= n * 10;
  }

  /** Padding agrees on a numeric component exactly when it fits: ten characters, or nothing but zeros. */
  lemma {:induction false} LpadAgreesIff(c: string)
    requires AllDigits(c) && c != []
    ensures Lpad(c) == Padded(Value(c), WIDTH) <==> Fits(c)
  {
    if |c| <= WIDTH {
      LpadShort(c);
    } else {
      var head, tail, n := c[..WIDTH], c[WIDTH..], Value(c);
      assert c == head + tail;
      ValueSplit(head, tail);
      Pow10Monotone(1, |tail|);
      assert Pow10(1) == 10 * Pow10(0);
      PaddedValue(n, WIDTH);
      ZeroValue(c);
      ZeroValue(head);
      if Lpad(c) == Padded(n, WIDTH) {
        LongProduct(n, Pow10(|tail|), Value(tail));
      }
      if Fits(c) {
        assert n == 0 && forall d :: d in head ==> d in c;
        Pow10Monotone(0, WIDTH);
        PaddedWidth(0);
        SameWidthOrder(head, Padded(0, WIDTH));
      }
    }
  }

  lemma {:induction false} PlainComponents(s: string, i: nat)
    requires Normalized(s).Some? && i < 3
    ensures var c := Component(Split(s), i);
            c != [] && AllDigits(c) && PadOne(c) == Some(Padded(Value(c), WIDTH))
  {
  }

  lemma {:induction false} LpadDigits(c: string)
    requires AllDigits(c)
    ensures '.' !in Lpad(c)
  {
    if |c| >= WIDTH {
      assert forall d :: d in c[..WIDTH] ==> d in c;
    }
  }

  /**
   On a version Go accepts, the two normalisations give the same text if and only if every component
   fits. A component longer than ten characters is cut by the database and not by Go.
   */
  lemma {:induction false} NormalisationsAgreeIff(s: string)
    requires Normalized(s).Some?
    ensures SqlNormalized(Some(s)) == Normalized(s).value
            <==> FitsDatabase(s)
  {
    var parts := Split(s);
    var c0, c1, c2 := Component(parts, 0), Component(parts, 1), Component(parts, 2);
    NormalizedIs(s, c0, c1, c2);
    JoinedAgreeIff(c0, c1, c2);
    FitsThree(parts);
  }

  lemma {:induction false} FitsThree(parts: seq<string>)
    ensures AllFit(parts) <==> Fits(Component(parts, 0)) && Fits(Component(parts, 1)) && Fits(Component(parts, 2))
  {
  }

  lemma {:induction false} NormalizedIs(s: string, c0: string, c1: string, c2: string)
    requires Normalized(s).Some?
    requires c0 == Component(Split(s), 0) && c1 == Component(Split(s), 1) && c2 == Component(Split(s), 2)
    ensures AllDigits(c0) && AllDigits(c1) && AllDigits(c2) && c0 != [] && c1 != [] && c2 != []
    ensures Normalized(s).value == Joined(Padded(Value(c0), WIDTH), Padded(Value(c1), WIDTH), Padded(Value(c2), WIDTH))
    ensures SqlNormalized(Some(s)) == Joined(Lpad(c0), Lpad(c1), Lpad(c2))
  {
    PlainComponents(s, 0);
    PlainComponents(s, 1);
    PlainComponents(s, 2);
    NormalizedParts(s);
  }

  lemma {:induction false} JoinedAgreeIff(c0: string, c1: string, c2: string)
    requires AllDigits(c0) && AllDigits(c1) && AllDigits(c2) && c0 != [] && c1 != [] && c2 != []
    ensures Joined(Lpad(c0), Lpad(c1), Lpad(c2))
            == Joined(Padded(Value(c0), WIDTH), Padded(Value(c1), WIDTH), Padded(Value(c2), WIDTH))
            <==> Fits(c0) && Fits(c1) && Fits(c2)
  {
    LpadAgreesIff(c0);
    LpadAgreesIff(c1);
    LpadAgreesIff(c2);
    var p0, p1, p2 := Padded(Value(c0), WIDTH), Padded(Value(c1), WIDTH), Padded(Value(c2), WIDTH);
    if Joined(Lpad(c0), Lpad(c1), Lpad(c2)) == Joined(p0, p1, p2) {
      LpadDigits(c0);
      LpadDigits(c1);
      JoinedInjective(Lpad(c0), Lpad(c1), Lpad(c2), p0, p1, p2);
    }
  }

  lemma {:induction false} JoinedInjective(a: string, b: string, c: string, x: string, y: string, z: string)
    requires AllDigits(x) && AllDigits(y) && '.' !in a && '.' !in b && Joined(a, b, c) == Joined(x, y, z)
    ensures a == x && b == y && c == z
  {
    FirstSeparator(a, b + (['.'] + c), x, y + (['.'] + z), '.');
    FirstSeparator(b, c, y, z, '.');
  }

  /** A missing version is not missing to the database: it is version zero. */
  lemma {:induction false} MissingIsZero()
    ensures SqlNormalized(None) == Render(Version(0, 0, 0))
  {
    assert "0" == [Digit(0)] && Value("0") == 0 by {
      assert "0"[..0] == [];
    }
    LpadShort("0");
  }
}
