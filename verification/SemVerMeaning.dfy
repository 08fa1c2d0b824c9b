/** Which texts are versions, and of which: one to three numerals between dots, the missing ones zero. */
module SemVerMeaning {
  import opened Wrappers
  import opened Ordering
  import opened Decimals
  import opened SemVer

  // ---- Splitting at the dots ----

  /** The parts with a dot between each two. */
  function WithDots(parts: seq<string>): string {
    if parts == [] then []
    else if |parts| == 1 then parts[0]
    else parts[0] + (['.'] + WithDots(parts[1..]))
  }

  ghost predicate Undotted(parts: seq<string>) {
    forall i :: 0 <= i < |parts| ==> '.' !in parts[i]
  }

  lemma {:induction false} LongerHead(c: char, parts: seq<string>)
    requires parts != []
    ensures WithDots([[c] + parts[0]] + parts[1..]) == [c] + WithDots(parts)
  {
    var longer := [[c] + parts[0]] + parts[1..];
    if |parts| > 1 {
      assert longer[1..] == parts[1..];
      assert ([c] + parts[0]) + (['.'] + WithDots(parts[1..])) == [c] + (parts[0] + (['.'] + WithDots(parts[1..])));
    }
  }

  lemma {:induction false} SplitJoins(s: string)
    ensures WithDots(Split(s)) == s && Undotted(Split(s))
  {
    if s != [] {
      var rest := Split(s[1..]);
      SplitJoins(s[1..]);
      assert s == [s[0]] + s[1..];
      if s[0] == '.' {
        assert Split(s) == [[]] + rest && Split(s)[1..] == rest;
        assert [] + (['.'] + s[1..]) == s;
      } else {
        LongerHead(s[0], rest);
        assert Split(s) == [[s[0]] + rest[0]] + rest[1..];
        forall i | 0 <= i < |Split(s)| ensures '.' !in Split(s)[i] {
          if i > 0 { assert Split(s)[i] == rest[i]; }
        }
      }
    }
  }

  lemma {:induction false} OnlyOneSplit(a: seq<string>, b: seq<string>)
    requires a != [] && b != [] && Undotted(a) && Undotted(b) && WithDots(a) == WithDots(b)
    ensures a == b
    decreases |a|
  {
    if |a| == 1 || |b| == 1 {
      SingleSplit(a, b);
    } else {
      FirstSeparator(a[0], WithDots(a[1..]), b[0], WithDots(b[1..]), '.');
      OnlyOneSplit(a[1..], b[1..]);
      assert a == [a[0]] + a[1..] && b == [b[0]] + b[1..];
    }
  }

  lemma {:induction false} SingleSplit(a: seq<string>, b: seq<string>)
    requires a != [] && b != [] && Undotted(a) && Undotted(b) && WithDots(a) == WithDots(b)
    requires |a| == 1 || |b| == 1
    ensures a == b
  {
    DotsShow(a);
    DotsShow(b);
  }

  lemma {:induction false} DotsShow(a: seq<string>)
    requires a != [] && Undotted(a)
    ensures '.' in WithDots(a) <==> |a| > 1
  {
    if |a| > 1 {
      var dot := ['.'] + WithDots(a[1..]);
      assert dot[0] == '.' && dot[0] in dot;
    } else {
      assert '.' !in a[0];
    }
  }

  /** The parts of a text are the one way to write it as texts without dots, dots between them. */
  lemma {:induction false} SplitIff(s: string, parts: seq<string>)
    ensures parts == Split(s) <==> parts != [] && Undotted(parts) && WithDots(parts) == s
  {
    SplitJoins(s);
    if parts != [] && Undotted(parts) && WithDots(parts) == s { OnlyOneSplit(parts, Split(s)); }
  }

  // ---- Reading a version ----

  /** Decimal digits, leading zeros and all, for a number of at most 64 bits. */
  ghost predicate Numeral(c: string, n: nat) {
    && c != [] && (forall d :: d in c ==> '0' <= d <= '9')
    && n < 0x1_0000_0000_0000_0000 && AllDigits(c) && Value(c) == n
  }

  /** The `i`-th component is a numeral for `n`, or is missing and `n` is zero. */
  ghost predicate Reads(parts: seq<string>, i: nat, n: nat) {
    if i < |parts| then Numeral(parts[i], n) else n == 0
  }

  ghost predicate WrittenAs(s: string, parts: seq<string>, v: Version) {
    && 1 <= |parts| <= 3 && Undotted(parts) && WithDots(parts) == s
    && Reads(parts, 0, v.major) && Reads(parts, 1, v.minor) && Reads(parts, 2, v.patch)
  }

  lemma {:induction false} ComponentReads(parts: seq<string>, i: nat, n: nat)
    ensures ParseUint(Component(parts, i)) == Some(n) <==> Reads(parts, i, n)
  {
    if i >= |parts| { assert "0"[..0] == []; }
  }

  lemma {:induction false} PartsRead(s: string, v: Version)
    ensures Parse(s) == Some(v)
            <==> (var parts := Split(s); |parts| <= 3 && Reads(parts, 0, v.major) && Reads(parts, 1, v.minor) && Reads(parts, 2, v.patch))
  {
    ComponentReads(Split(s), 0, v.major);
    ComponentReads(Split(s), 1, v.minor);
    ComponentReads(Split(s), 2, v.patch);
  }

  /** A text is read as a version if and only if it is written as one. */
  lemma {:induction false} VersionsAreRead(s: string, v: Version)
    ensures Parse(s) == Some(v) <==> exists parts :: WrittenAs(s, parts, v)
  {
    PartsRead(s, v);
    SplitIff(s, Split(s));
    if Parse(s) == Some(v) { assert WrittenAs(s, Split(s), v); }
    forall parts | WrittenAs(s, parts, v) ensures Parse(s) == Some(v) {
      SplitIff(s, parts);
    }
  }
}
