/**
 The distinct-count sketch (internal/event/hll): 2^14 registers, each the largest rank seen among the
 hashes that select it. The estimate drawn from them is floating point and left out.
 */
module Hll {
  import opened Wrappers

  const REGISTERS: nat := 16384
  const HASH_BITS: nat := 64
  const PRECISION: nat := 14

  type Byte = b: nat | b < 256

  function Pow2(k: nat): (p: nat)
    ensures p > 0
  {
    if k == 0 then 1 else 2 * Pow2(k - 1)
  }

  /** A 64-bit hash, split as the sketch splits it: the low bits select, the rest rank. */
  datatype Hash = Hash(selector: nat, rest: nat)

  predicate Wide(h: Hash) {
    h.selector < REGISTERS && h.rest < Pow2(HASH_BITS - PRECISION)
  }

  function SplitHash(sum: nat): Hash {
    Hash(sum % REGISTERS, sum / REGISTERS)
  }

  function TrailingZeros(n: nat): nat
    requires n > 0
  {
    if n % 2 == 1 then 0 else 1 + TrailingZeros(n / 2)
  }

  lemma {:induction false} TrailingZerosBelow(n: nat, k: nat)
    requires 0 < n < Pow2(k)
    ensures TrailingZeros(n) < k
  {
    if n % 2 == 0 {
      TrailingZerosBelow(n / 2, k - 1);
    }
  }

  lemma {:induction false} TopBit(k: nat)
    ensures TrailingZeros(Pow2(k)) == k
  {
    if k > 0 {
      TopBit(k - 1);
      assert Pow2(k) % 2 == 0 && Pow2(k) / 2 == Pow2(k - 1);
    }
  }

  /** No bits left to rank counts as one more than there are. */
  function Rank(h: Hash): nat {
    if h.rest == 0 then HASH_BITS - PRECISION + 1 else TrailingZeros(h.rest) + 1
  }

  // ---- A sum, taken apart ----

  /** The low fourteen bits of a sum select, what is above them ranks; and together they are the sum. */
  lemma {:induction false} SumIsRecovered(sum: nat)
    ensures var h := SplitHash(sum); h.selector < 16384 && h.selector + 16384 * h.rest == sum
  {
  }

  lemma {:induction false} SplitsOneWay(a: nat, b: nat, c: nat, d: nat)
    requires a < 16384 && c < 16384 && a + 16384 * b == c + 16384 * d
    ensures a == c && b == d
  {
  }

  /** `n` doubled `k` times over. */
  function Doubled(n: nat, k: nat): nat {
    if k == 0 then n else 2 * Doubled(n, k - 1)
  }

  /** The rank of a rest: 51 when all of its fifty bits are zero, else one more than how often an odd number was doubled to make it. */
  ghost predicate Ranked(rest: nat, rank: nat) {
    if rest == 0 then rank == 51 else rank >= 1 && exists odd: nat :: odd % 2 == 1 && Doubled(odd, rank - 1) == rest
  }

  lemma {:induction false} ZerosOfDoubled(odd: nat, k: nat)
    requires odd % 2 == 1
    ensures Doubled(odd, k) > 0 && TrailingZeros(Doubled(odd, k)) == k
  {
    if k > 0 { ZerosOfDoubled(odd, k - 1); }
  }

  lemma {:induction false} OddDoubled(n: nat)
    requires n > 0
    ensures exists odd: nat :: odd % 2 == 1 && Doubled(odd, TrailingZeros(n)) == n
  {
    if n % 2 == 1 {
      assert Doubled(n, TrailingZeros(n)) == n;
    } else {
      OddDoubled(n / 2);
      var odd: nat :| odd % 2 == 1 && Doubled(odd, TrailingZeros(n / 2)) == n / 2;
      assert Doubled(odd, TrailingZeros(n)) == n;
    }
  }

  /** A rest has one rank, and it is the sketch's. */
  lemma {:induction false} RankIsTheRank(h: Hash, rank: nat)
    ensures Ranked(h.rest, rank) <==> rank == Rank(h)
  {
    if h.rest > 0 {
      OddDoubled(h.rest);
      if Ranked(h.rest, rank) {
        var odd: nat :| odd % 2 == 1 && Doubled(odd, rank - 1) == h.rest;
        ZerosOfDoubled(odd, rank - 1);
      }
    }
  }

  const MAX_RANK: nat := 51

  /** Ranks of 64-bit hashes lie between 1 and 51, and 51 is reached. */
  lemma {:induction false} RankBounds(h: Hash)
    requires Wide(h)
    ensures 1 <= Rank(h) <= MAX_RANK
    ensures Rank(h) == MAX_RANK <==> h.rest == 0
  {
    if h.rest > 0 { TrailingZerosBelow(h.rest, HASH_BITS - PRECISION); }
  }

  type Registers = seq<nat>

  predicate Sized(r: Registers) {
    |r| == REGISTERS
  }

  function Empty(): (r: Registers)
    ensures Sized(r) && forall i :: 0 <= i < REGISTERS ==> r[i] == 0
  {
    seq(REGISTERS, i => 0)
  }

  function Max(a: nat, b: nat): nat {
    if b > a then b else a
  }

  function Added(r: Registers, h: Hash): Registers
    requires h.selector < |r|
  {
    if Rank(h) > r[h.selector] then r[h.selector := Rank(h)] else r
  }

  function Merged(a: Registers, b: Registers): (r: Registers)
    requires |a| == |b|
    ensures |r| == |a| && forall i :: 0 <= i < |a| ==> r[i] == Max(a[i], b[i])
  {
    seq(|a|, i requires 0 <= i < |a| => Max(a[i], b[i]))
  }

  /**
   `after` is `before` once an identity of the given sum was added: of the one register that the sum's low
   fourteen bits number, the larger of its value and the rank of the rest; every other as it was.
   */
  ghost predicate SawSum(before: Registers, after: Registers, sum: nat) {
    forall selector: nat, rest: nat, rank: nat :: TakenApart(sum, selector, rest) && Ranked(rest, rank) ==>
      && |after| == |before| == 16384 && after[selector] == Max(before[selector], rank)
      && forall i :: 0 <= i < 16384 && i != selector ==> after[i] == before[i]
  }

  predicate TakenApart(sum: nat, selector: nat, rest: nat) {
    selector < 16384 && sum == selector + 16384 * rest
  }

  lemma {:induction false} OneWayApart(sum: nat, selector: nat, rest: nat)
    requires TakenApart(sum, selector, rest)
    ensures SplitHash(sum) == Hash(selector, rest)
  {
    SumIsRecovered(sum);
    SplitsOneWay(selector, rest, SplitHash(sum).selector, SplitHash(sum).rest);
  }

  lemma {:induction false} AddingIsSeeing(r: Registers, sum: nat)
    requires Sized(r)
    ensures SawSum(r, Added(r, SplitHash(sum)), sum)
  {
    forall selector: nat, rest: nat, rank: nat | TakenApart(sum, selector, rest) && Ranked(rest, rank)
      ensures SplitHash(sum).selector == selector && Rank(SplitHash(sum)) == rank
    {
      OneWayApart(sum, selector, rest);
      RankIsTheRank(Hash(selector, rest), rank);
    }
  }

  /** Added to an empty sketch an identity sets one register, the one its low fourteen bits number, to its rank. */
  lemma {:induction false} OneIdentitySetsOneRegister(selector: nat, rest: nat, rank: nat)
    requires selector < 16384 && Ranked(rest, rank)
    ensures var r := Added(Empty(), SplitHash(selector + 16384 * rest));
            rank > 0 && forall i :: 0 <= i < 16384 ==> r[i] == if i == selector then rank else 0
  {
    AddingIsSeeing(Empty(), selector + 16384 * rest);
    assert TakenApart(selector + 16384 * rest, selector, rest);
  }

  // ---- What a sketch means ----

  /** Register `i` is the largest rank among the hashes that select it, 0 when none does. */
  ghost predicate RegisterOf(v: nat, i: nat, hashes: set<Hash>) {
    && (forall h :: h in hashes && h.selector == i ==> Rank(h) <= v)
    && (v == 0 || exists h :: h in hashes && h.selector == i && Rank(h) == v)
  }

  ghost predicate SketchOf(r: Registers, hashes: set<Hash>) {
    Sized(r) && forall i :: 0 <= i < |r| ==> RegisterOf(r[i], i, hashes)
  }

  ghost predicate AllWide(hashes: set<Hash>) {
    forall h :: h in hashes ==> Wide(h)
  }

  /** A set of hashes has one sketch. */
  lemma {:induction false} SketchIsUnique(a: Registers, b: Registers, hashes: set<Hash>)
    requires SketchOf(a, hashes) && SketchOf(b, hashes)
    ensures a == b
  {
    forall i | 0 <= i < REGISTERS ensures a[i] == b[i] {
      assert RegisterOf(a[i], i, hashes) && RegisterOf(b[i], i, hashes);
    }
  }

  lemma {:induction false} EmptySketch()
    ensures SketchOf(Empty(), {})
  {
  }

  lemma {:induction false} AddExtends(r: Registers, hashes: set<Hash>, h: Hash)
    requires SketchOf(r, hashes) && h.selector < REGISTERS
    ensures SketchOf(Added(r, h), hashes + {h})
  {
    var r', all := Added(r, h), hashes + {h};
    forall i | 0 <= i < REGISTERS ensures RegisterOf(r'[i], i, all) {
      assert RegisterOf(r[i], i, hashes);
      if r'[i] != 0 && r'[i] == r[i] {
        var k :| k in hashes && k.selector == i && Rank(k) == r[i];
        assert k in all;
      } else if r'[i] != 0 {
        assert h in all && h.selector == i && Rank(h) == r'[i];
      }
    }
  }

  lemma {:induction false} MergeUnites(a: Registers, b: Registers, s: set<Hash>, t: set<Hash>)
    requires SketchOf(a, s) && SketchOf(b, t)
    ensures SketchOf(Merged(a, b), s + t)
  {
    var r := Merged(a, b);
    forall i | 0 <= i < REGISTERS ensures RegisterOf(r[i], i, s + t) {
      assert RegisterOf(a[i], i, s) && RegisterOf(b[i], i, t);
      if r[i] == 0 {
      } else if r[i] == a[i] {
        var k :| k in s && k.selector == i && Rank(k) == a[i];
        assert k in s + t;
      } else {
        var k :| k in t && k.selector == i && Rank(k) == b[i];
        assert k in s + t;
      }
    }
  }

  /** No register of a sketch exceeds 51. */
  lemma {:induction false} RegistersAreRanks(r: Registers, hashes: set<Hash>, i: nat)
    requires SketchOf(r, hashes) && AllWide(hashes) && i < REGISTERS
    ensures r[i] <= MAX_RANK
  {
    assert RegisterOf(r[i], i, hashes);
    if r[i] > 0 {
      var h :| h in hashes && h.selector == i && Rank(h) == r[i];
      RankBounds(h);
    }
  }

  // ---- Building, splitting, merging ----

  ghost predicate Selecting(hs: seq<Hash>) {
    forall i :: 0 <= i < |hs| ==> hs[i].selector < REGISTERS
  }

  /** A sketch that saw `hs` one after the other. */
  function Built(hs: seq<Hash>): (r: Registers)
    requires forall i :: 0 <= i < |hs| ==> hs[i].selector < REGISTERS
    ensures Sized(r)
  {
    if hs == [] then Empty() else Added(Built(hs[..|hs| - 1]), hs[|hs| - 1])
  }

  function Elements(hs: seq<Hash>): set<Hash> {
    set h | h in hs
  }

  /** Whatever the order and the repeats, the registers are those of the set. */
  lemma {:induction false} BuiltIsSketch(hs: seq<Hash>)
    requires Selecting(hs)
    ensures SketchOf(Built(hs), Elements(hs))
  {
    if hs == [] {
      EmptySketch();
    } else {
      var front, last := hs[..|hs| - 1], hs[|hs| - 1];
      BuiltIsSketch(front);
      AddExtends(Built(front), Elements(front), last);
      assert hs == front + [last];
      assert Elements(hs) == Elements(front) + {last};
    }
  }

  lemma {:induction false} OrderAndRepeatsDoNotMatter(hs: seq<Hash>, hs': seq<Hash>)
    requires Selecting(hs) && Selecting(hs') && Elements(hs) == Elements(hs')
    ensures Built(hs) == Built(hs')
  {
    BuiltIsSketch(hs);
    BuiltIsSketch(hs');
    SketchIsUnique(Built(hs), Built(hs'), Elements(hs));
  }

  function Flattened(days: seq<seq<Hash>>): seq<Hash> {
    if days == [] then [] else Flattened(days[..|days| - 1]) + days[|days| - 1]
  }

  ghost predicate AllSelecting(days: seq<seq<Hash>>) {
    forall d :: 0 <= d < |days| ==> Selecting(days[d])
  }

  /** A sketch per day, merged day by day into an empty one, as a report does. */
  ghost function MergedDays(days: seq<seq<Hash>>): (r: Registers)
    requires AllSelecting(days)
    ensures Sized(r)
  {
    if days == [] then Empty() else Merged(MergedDays(days[..|days| - 1]), Built(days[|days| - 1]))
  }

  lemma {:induction false} FlattenedSelecting(days: seq<seq<Hash>>)
    requires AllSelecting(days)
    ensures Selecting(Flattened(days))
  {
    if days != [] { FlattenedSelecting(days[..|days| - 1]); }
  }

  lemma {:induction false} MergedDaysIsSketch(days: seq<seq<Hash>>)
    requires AllSelecting(days)
    ensures SketchOf(MergedDays(days), Elements(Flattened(days)))
  {
    if days == [] {
      EmptySketch();
    } else {
      var front, last := days[..|days| - 1], days[|days| - 1];
      MergedDaysIsSketch(front);
      BuiltIsSketch(last);
      MergeUnites(MergedDays(front), Built(last), Elements(Flattened(front)), Elements(last));
      assert Elements(Flattened(days)) == Elements(Flattened(front)) + Elements(last);
    }
  }

  /** However identities are split over days, merging the daily sketches gives the sketch that saw them all. */
  lemma {:induction false} SplittingDoesNotMatter(days: seq<seq<Hash>>, all: seq<Hash>)
    requires AllSelecting(days) && Selecting(all) && Elements(Flattened(days)) == Elements(all)
    ensures MergedDays(days) == Built(all)
  {
    MergedDaysIsSketch(days);
    BuiltIsSketch(all);
    SketchIsUnique(MergedDays(days), Built(all), Elements(all));
  }

  lemma {:induction false} MergeIsASemilattice(a: Registers, b: Registers, c: Registers)
    requires |a| == |b| == |c|
    ensures Merged(a, b) == Merged(b, a)
    ensures Merged(Merged(a, b), c) == Merged(a, Merged(b, c))
    ensures Merged(a, a) == a
  {
    assert forall i :: 0 <= i < |a| ==> Merged(Merged(a, b), c)[i] == Merged(a, Merged(b, c))[i];
  }

  // ---- The sketch as the program keeps it ----

  class Sketch {
    const registers: array<Byte>

    constructor ()
      ensures fresh(registers) && registers[..] == Empty()
    {
      registers := new Byte[REGISTERS](i => 0);
    }

    constructor FromBytes(b: seq<Byte>)
      requires |b| == REGISTERS
      ensures fresh(registers) && registers[..] == b
    {
      registers := new Byte[|b|](i requires 0 <= i < |b| => b[i]);
    }

    method Add(h: Hash)
      requires registers.Length == REGISTERS && Wide(h)
      modifies registers
      ensures registers[..] == Added(old(registers[..]), h)
    {
      var rank: nat;
      if h.rest == 0 {
        rank := HASH_BITS - PRECISION + 1;
      } else {
        rank := TrailingZeros(h.rest) + 1;
      }
      RankBounds(h);
      if rank > registers[h.selector] {
        registers[h.selector] := rank;
      }
    }

    /** A 64-bit sum of the identity's bytes is added. */
    method AddIdentity(identity: string, digest: string -> nat)
      requires registers.Length == REGISTERS && digest(identity) < Pow2(HASH_BITS)
      modifies registers
      ensures registers[..] == Added(old(registers[..]), SplitHash(digest(identity)))
      ensures SawSum(old(registers[..]), registers[..], digest(identity))
    {
      SumIsWide(digest(identity));
      AddingIsSeeing(registers[..], digest(identity));
      Add(SplitHash(digest(identity)));
    }

    /** Register-wise maximum; refused when the sizes differ. */
    method Merge(other: Sketch) returns (ok: bool)
      modifies registers
      ensures ok <==> other.registers.Length == registers.Length
      ensures ok ==> registers[..] == Merged(old(registers[..]), old(other.registers[..]))
      ensures !ok ==> registers[..] == old(registers[..])
    {
      if other.registers.Length != registers.Length { return false; }
      for i := 0 to other.registers.Length
        invariant forall j :: 0 <= j < i ==> registers[j] == Max(old(registers[j]), old(other.registers[j]))
        invariant forall j :: i <= j < registers.Length ==> registers[j] == old(registers[j])
        invariant forall j :: i <= j < registers.Length ==> other.registers[j] == old(other.registers[j])
      {
        var r := other.registers[i];
        if r > registers[i] { registers[i] := r; }
      }
      ok := true;
    }

    method Marshal() returns (b: seq<Byte>)
      ensures b == registers[..]
    {
      b := registers[..];
    }

    static method Unmarshal(b: seq<Byte>) returns (s: Option<Sketch>)
      ensures s.Some? <==> |b| == REGISTERS
      ensures s.Some? ==> fresh(s.value) && fresh(s.value.registers) && s.value.registers[..] == b
    {
      if |b| != REGISTERS { return None; }
      var sketch := new Sketch.FromBytes(b);
      s := Some(sketch);
    }
  }

  lemma {:induction false} SixtyFour(k: nat)
    requires k >= PRECISION
    ensures Pow2(k) == REGISTERS * Pow2(k - PRECISION)
  {
    if k == PRECISION {
      assert Pow2(7) == 128;
      assert Pow2(14) == 16384;
    } else {
      SixtyFour(k - 1);
    }
  }

  lemma {:induction false} SumIsWide(sum: nat)
    requires sum < Pow2(HASH_BITS)
    ensures Wide(SplitHash(sum))
  {
    SixtyFour(HASH_BITS);
    Quotient(sum, Pow2(HASH_BITS - PRECISION));
  }

  lemma {:induction false} Quotient(sum: nat, p: nat)
    requires sum < REGISTERS * p
    ensures sum / REGISTERS < p
  {
  }

  /** Saving a sketch and reading it back gives the same registers, and reading refuses any other size. */
  method RoundTrip(s: Sketch) returns (t: Option<Sketch>)
    requires s.registers.Length == REGISTERS
    ensures t.Some? && t.value.registers[..] == s.registers[..]
  {
    var bytes := s.Marshal();
    t := Sketch.Unmarshal(bytes);
  }
}
