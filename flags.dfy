/**
 Facts about 64-bit masks. Each is stated over plain bit-vectors, with the
 mask as a parameter, so that the solver decides it by bit-blasting alone;
 the lemmas about flag values call them once per bit position.
 */
module Masks {

  /** `x` and `m` share at least one set bit. */
  predicate Meets(x: bv64, m: bv64)
  {
    x & m != 0
  }

  /** Every set bit of `a` is also set in `b`. */
  predicate Subset(a: bv64, b: bv64)
  {
    a & !b == 0
  }

  /** `p & b == b`, the library's test for "has": masking `b` with `p` leaves `b` whole. */
  predicate Covers(p: bv64, b: bv64)
  {
    p & b == b
  }

  lemma OrIn(a: bv64, b: bv64, m: bv64)
    requires (a | b) & m != 0
    ensures a & m != 0 || b & m != 0
  {
  }

  lemma OrOut(a: bv64, b: bv64, m: bv64)
    requires a & m != 0 || b & m != 0
    ensures (a | b) & m != 0
  {
  }

  lemma OrMask(a: bv64, b: bv64, m: bv64)
    ensures Meets(a | b, m) <==> Meets(a, m) || Meets(b, m)
  {
    if Meets(a | b, m) {
      OrIn(a, b, m);
    }
    if Meets(a, m) || Meets(b, m) {
      OrOut(a, b, m);
    }
  }

  lemma AndNotBitIn(a: bv64, b: bv64, s: bv7)
    requires s < 64
    requires (a & !b) & (1 << s) != 0
    ensures a & (1 << s) != 0 && b & (1 << s) == 0
  {
  }

  lemma AndNotBitOut(a: bv64, b: bv64, s: bv7)
    requires s < 64
    requires a & (1 << s) != 0 && b & (1 << s) == 0
    ensures (a & !b) & (1 << s) != 0
  {
  }

  lemma BitNonzero(s: bv7)
    requires s < 64
    ensures (1 as bv64) << s != 0
  {
  }

  lemma DistinctBits(j: bv7, k: bv7)
    requires j < 64 && k < 64 && j != k
    ensures ((1 as bv64) << j) & ((1 as bv64) << k) == 0
  {
  }

  lemma LowStep(n: bv7)
    requires 0 < n <= 64
    ensures (((1 as bv64) << (n - 1)) - 1) | ((1 as bv64) << (n - 1)) == ((1 as bv64) << n) - 1
  {
  }

  lemma MissesBoth(x: bv64, l: bv64, m: bv64)
    requires x & l == 0 && x & m == 0
    ensures x & (l | m) == 0
  {
  }

  lemma MissesAll(x: bv64)
    requires x & (((1 as bv64) << (64 as bv7)) - 1) == 0
    ensures x == 0
  {
  }

  lemma OrWithinOut(u: bv64, b: bv64, q: bv64)
    requires Subset(u, q) && Subset(b, q)
    ensures Subset(u | b, q)
  {
  }

  lemma AndCoversIn(p: bv64, b: bv64)
    requires p & b == b
    ensures Subset(b, p)
  {
  }

  lemma AndCoversOut(p: bv64, b: bv64)
    requires Subset(b, p)
    ensures p & b == b
  {
  }

  /** `p & b == b`, the library's test for "has", is `Subset(b, p)`. */
  lemma AndCovers(p: bv64, b: bv64)
    ensures Covers(p, b) <==> Subset(b, p)
  {
    if Covers(p, b) {
      AndCoversIn(p, b);
    }
    if Subset(b, p) {
      AndCoversOut(p, b);
    }
  }

  lemma ClearedNotHad(r: bv64, b: bv64)
    requires r & b == 0 && b != 0
    ensures !Subset(b, r)
  {
  }

  lemma OrZeroLeft(a: bv64)
    ensures 0 | a == a
  {
  }

  lemma OrAssociates(a: bv64, b: bv64, c: bv64)
    ensures (a | b) | c == a | (b | c)
  {
  }

  lemma AndNotTwice(a: bv64, b: bv64, c: bv64)
    ensures (a & !b) & !c == a & !(b | c)
  {
  }

  lemma SubsetTransitive(a: bv64, b: bv64, c: bv64)
    requires Subset(a, b) && Subset(b, c)
    ensures Subset(a, c)
  {
  }

  lemma NothingWithin(q: bv64)
    ensures Subset(0, q)
  {
  }

  lemma OrKeeps(p: bv64, u: bv64, x: bv64)
    requires x & !u == 0
    ensures p & !(p | u) == 0 && x & !(p | u) == 0
  {
  }

  lemma AndNotClears(p: bv64, u: bv64, x: bv64)
    requires x & !u == 0
    ensures (p & !u) & !p == 0 && (p & !u) & x == 0
  {
  }

  lemma BothSubsetsEqual(a: bv64, b: bv64)
    requires a & !b == 0 && b & !a == 0
    ensures a == b
  {
  }
}

/**
 The set algebra shared by the two flag types of the library, the gateway
 intents and the guild-member flags. Both are signed 64-bit integers whose
 bitwise operators act on the two's complement bits, so a flag value is
 modelled as a `bv64`.

 Two views of a flag value are given:
 - the bitwise one the library computes with (`|`, `& !`, `a & b == b`), and
 - `Members(x)`, the set of bit positions that are set in `x`, an
   independent reference meaning under which `|` is set union, `& !` is set
   difference and "has" is set inclusion.
 */
module Flags {
  import opened Masks

  /** A bit position of a 64-bit flag value, as a shift amount. */
  type Position = k: bv7 | k < 64

  /** The single flag at bit position `k`. */
  function Bit(k: Position): bv64
  {
    1 << k
  }

  /** Whether bit position `k` of `x` is set. */
  predicate IsSet(x: bv64, k: Position)
  {
    Meets(x, Bit(k))
  }

  /** The bit positions below `n` that are set in `x`. */
  function MembersBelow(x: bv64, n: bv7): set<Position>
    requires n <= 64
    decreases n
  {
    if n == 0 then {} else MembersBelow(x, n - 1) + (if IsSet(x, n - 1) then {n - 1} else {})
  }

  /** The bit positions that are set in `x`. */
  function Members(x: bv64): set<Position>
  {
    MembersBelow(x, 64)
  }

  /** The flags at all positions below `n`. */
  function LowBits(n: bv7): bv64
    requires n <= 64
    decreases n
  {
    if n == 0 then 0 else LowBits(n - 1) | Bit(n - 1)
  }

  /** The OR of all the flags in `bits`, folded from the left starting at zero. */
  function UnionOf(bits: seq<bv64>): bv64
  {
    if |bits| == 0 then 0 else UnionOf(bits[..|bits| - 1]) | bits[|bits| - 1]
  }

  /** `p` with every flag of `bits` added. */
  function Added(p: bv64, bits: seq<bv64>): bv64
  {
    p | UnionOf(bits)
  }

  /** `p` with every flag of `bits` cleared. */
  function Removed(p: bv64, bits: seq<bv64>): bv64
  {
    p & !UnionOf(bits)
  }

  /** The bit positions set in at least one flag of `bits`. */
  function MembersOfAll(bits: seq<bv64>): set<Position>
  {
    set i, k | 0 <= i < |bits| && k in Members(bits[i]) :: k
  }

  // ---------------------------------------------------------------------
  // The bitwise operators under the set-of-positions meaning
  // ---------------------------------------------------------------------

  lemma {:induction false} InMembersBelow(x: bv64, n: bv7, k: Position)
    requires n <= 64
    ensures k in MembersBelow(x, n) <==> k < n && IsSet(x, k)
    decreases n
  {
    if n > 0 {
      InMembersBelow(x, n - 1, k);
    }
  }

  /** `Members(x)` holds exactly the positions set in `x`. */
  lemma InMembers(x: bv64, k: Position)
    ensures k in Members(x) <==> IsSet(x, k)
  {
    InMembersBelow(x, 64, k);
  }

  /** The single-bit flag at position `j` has position `k` set only when `j == k`. */
  lemma IsSetBit(j: Position, k: Position)
    ensures IsSet(Bit(j), k) <==> j == k
  {
    if j == k {
      BitNonzero(k);
    } else {
      DistinctBits(j, k);
    }
  }

  lemma MembersBit(k: Position)
    ensures Members(Bit(k)) == {k}
  {
    forall j: Position ensures j in Members(Bit(k)) <==> j == k {
      InMembers(Bit(k), j);
      IsSetBit(k, j);
    }
  }

  lemma {:induction false} MembersBelowOr(a: bv64, b: bv64, n: bv7)
    requires n <= 64
    ensures MembersBelow(a | b, n) == MembersBelow(a, n) + MembersBelow(b, n)
    decreases n
  {
    if n > 0 {
      MembersBelowOr(a, b, n - 1);
      OrMask(a, b, Bit(n - 1));
    }
  }

  /** Under the set meaning, `|` is union. */
  lemma MembersOr(a: bv64, b: bv64)
    ensures Members(a | b) == Members(a) + Members(b)
  {
    MembersBelowOr(a, b, 64);
  }

  /** Position `k` is set in `a & !b` exactly when it is set in `a` and not in `b`. */
  lemma AndNotAt(a: bv64, b: bv64, k: Position)
    ensures IsSet(a & !b, k) <==> IsSet(a, k) && !IsSet(b, k)
  {
    if IsSet(a & !b, k) {
      AndNotBitIn(a, b, k);
    }
    if IsSet(a, k) && !IsSet(b, k) {
      AndNotBitOut(a, b, k);
    }
  }

  /** One step of a difference built up position by position. */
  lemma DifferenceStep(a: set<Position>, b: set<Position>, k: Position, inA: bool, inB: bool)
    requires k !in a && k !in b
    ensures (a - b) + (if inA && !inB then {k} else {})
         == (a + (if inA then {k} else {})) - (b + (if inB then {k} else {}))
  {
  }

  lemma {:induction false} MembersBelowAndNot(a: bv64, b: bv64, n: bv7)
    requires n <= 64
    ensures MembersBelow(a & !b, n) == MembersBelow(a, n) - MembersBelow(b, n)
    decreases n
  {
    if n > 0 {
      var k: Position := n - 1;
      MembersBelowAndNot(a, b, k);
      AndNotAt(a, b, k);
      InMembersBelow(a, k, k);
      InMembersBelow(b, k, k);
      DifferenceStep(MembersBelow(a, k), MembersBelow(b, k), k, IsSet(a, k), IsSet(b, k));
    }
  }

  /** Under the set meaning, `& !` is difference. */
  lemma MembersAndNot(a: bv64, b: bv64)
    ensures Members(a & !b) == Members(a) - Members(b)
  {
    MembersBelowAndNot(a, b, 64);
  }

  lemma {:induction false} LowBitsShift(n: bv7)
    requires n <= 64
    ensures LowBits(n) == ((1 as bv64) << n) - 1
    decreases n
  {
    if n > 0 {
      LowBitsShift(n - 1);
      LowStep(n);
    }
  }

  /** A flag value with no position below `n` set misses all of them. */
  lemma {:induction false} ClearBelow(x: bv64, n: bv7)
    requires n <= 64
    requires MembersBelow(x, n) == {}
    ensures x & LowBits(n) == 0
    decreases n
  {
    if n > 0 {
      assert MembersBelow(x, n - 1) <= MembersBelow(x, n);
      ClearBelow(x, n - 1);
      MissesBoth(x, LowBits(n - 1), Bit(n - 1));
    }
  }

  /** A flag value is zero exactly when no position is set in it. */
  lemma MembersEmpty(x: bv64)
    ensures Members(x) == {} <==> x == 0
  {
    if Members(x) == {} {
      ClearBelow(x, 64);
      LowBitsShift(64);
      MissesAll(x);
    } else {
      var k :| k in Members(x);
      InMembers(x, k);
    }
  }

  /** A flag value is determined by its set of positions. */
  lemma MembersInjective(a: bv64, b: bv64)
    ensures Members(a) == Members(b) <==> a == b
  {
    if Members(a) == Members(b) {
      SubsetMeansInclusion(a, b);
      SubsetMeansInclusion(b, a);
      BothSubsetsEqual(a, b);
    }
  }

  /** `Subset` is inclusion of the sets of positions, in both directions. */
  lemma SubsetMeansInclusion(a: bv64, b: bv64)
    ensures Subset(a, b) <==> Members(a) <= Members(b)
  {
    MembersAndNot(a, b);
    MembersEmpty(a & !b);
  }

  // ---------------------------------------------------------------------
  // The fold
  // ---------------------------------------------------------------------

  lemma MembersOfAllSnoc(bits: seq<bv64>)
    requires |bits| > 0
    ensures MembersOfAll(bits) == MembersOfAll(bits[..|bits| - 1]) + Members(bits[|bits| - 1])
  {
    var n := |bits| - 1;
    var init := bits[..n];
    forall k ensures k in MembersOfAll(bits) <==> k in MembersOfAll(init) || k in Members(bits[n]) {
      if k in MembersOfAll(bits) {
        var i :| 0 <= i < |bits| && k in Members(bits[i]);
        if i < n {
          assert init[i] == bits[i];
        }
      }
      if k in MembersOfAll(init) {
        var i :| 0 <= i < |init| && k in Members(init[i]);
        assert bits[i] == init[i];
      }
    }
  }

  /** Under the set meaning, the OR of all flags is the union of their positions. */
  lemma {:induction false} MembersUnionOf(bits: seq<bv64>)
    ensures Members(UnionOf(bits)) == MembersOfAll(bits)
  {
    if |bits| == 0 {
      MembersEmpty(0);
    } else {
      var n := |bits| - 1;
      MembersUnionOf(bits[..n]);
      MembersOr(UnionOf(bits[..n]), bits[n]);
      MembersOfAllSnoc(bits);
    }
  }

  /** Every flag of `bits` is contained in their OR. */
  lemma UnionOfCovers(bits: seq<bv64>, i: int)
    requires 0 <= i < |bits|
    ensures Subset(bits[i], UnionOf(bits))
  {
    MembersUnionOf(bits);
    SubsetMeansInclusion(bits[i], UnionOf(bits));
  }

  /** The OR of `bits` is the least value containing them all. */
  lemma {:induction false} UnionOfLeast(bits: seq<bv64>, q: bv64)
    requires forall i :: 0 <= i < |bits| ==> Subset(bits[i], q)
    ensures Subset(UnionOf(bits), q)
  {
    if |bits| == 0 {
      NothingWithin(q);
    } else {
      var n := |bits| - 1;
      assert forall i :: 0 <= i < n ==> bits[..n][i] == bits[i];
      UnionOfLeast(bits[..n], q);
      OrWithinOut(UnionOf(bits[..n]), bits[n], q);
    }
  }

  /** Each flag of `bits` lies within `q` exactly when their OR does. */
  lemma AllWithin(bits: seq<bv64>, q: bv64)
    ensures (forall i :: 0 <= i < |bits| ==> Subset(bits[i], q)) <==> Subset(UnionOf(bits), q)
  {
    if forall i :: 0 <= i < |bits| ==> Subset(bits[i], q) {
      UnionOfLeast(bits, q);
    }
    if Subset(UnionOf(bits), q) {
      forall i | 0 <= i < |bits| ensures Subset(bits[i], q) {
        UnionOfCovers(bits, i);
        SubsetTransitive(bits[i], UnionOf(bits), q);
      }
    }
  }

  lemma UnionOfSingle(b: bv64)
    ensures UnionOf([b]) == b
  {
    assert [b][..0] == [];
    OrZeroLeft(b);
  }

  // ---------------------------------------------------------------------
  // Adding and removing flags
  // ---------------------------------------------------------------------

  lemma AddedKeeps(p: bv64, bits: seq<bv64>)
    ensures Subset(p, Added(p, bits))
  {
    OrKeeps(p, UnionOf(bits), 0);
  }

  lemma AddedNothing(p: bv64)
    ensures Added(p, []) == p
  {
    assert UnionOf([]) == 0;
  }

  lemma AddedCovers(p: bv64, bits: seq<bv64>, i: int)
    requires 0 <= i < |bits|
    ensures Subset(bits[i], Added(p, bits))
  {
    UnionOfCovers(bits, i);
    OrKeeps(p, UnionOf(bits), bits[i]);
  }

  /**
   Adding keeps every flag of `p`, contains every added flag and changes
   nothing without arguments.
   */
  lemma AddedSpec(p: bv64, bits: seq<bv64>)
    ensures Subset(p, Added(p, bits))
    ensures forall i :: 0 <= i < |bits| ==> Subset(bits[i], Added(p, bits))
    ensures bits == [] ==> Added(p, bits) == p
  {
    AddedKeeps(p, bits);
    if bits == [] {
      AddedNothing(p);
    }
    forall i | 0 <= i < |bits| ensures Subset(bits[i], Added(p, bits)) {
      AddedCovers(p, bits, i);
    }
  }

  /** Under the set meaning, adding is the union of positions. */
  lemma AddedMembers(p: bv64, bits: seq<bv64>)
    ensures Members(Added(p, bits)) == Members(p) + MembersOfAll(bits)
  {
    MembersOr(p, UnionOf(bits));
    MembersUnionOf(bits);
  }

  /** Adding the same flags twice is the same as adding them once. */
  lemma AddedIdempotent(p: bv64, bits: seq<bv64>)
    ensures Added(Added(p, bits), bits) == Added(p, bits)
  {
  }

  lemma RemovedKeepsNothingNew(p: bv64, bits: seq<bv64>)
    ensures Subset(Removed(p, bits), p)
  {
    AndNotClears(p, UnionOf(bits), 0);
  }

  lemma RemovedNothing(p: bv64)
    ensures Removed(p, []) == p
  {
    assert UnionOf([]) == 0;
  }

  lemma RemovedClears(p: bv64, bits: seq<bv64>, i: int)
    requires 0 <= i < |bits|
    ensures Removed(p, bits) & bits[i] == 0
  {
    UnionOfCovers(bits, i);
    AndNotClears(p, UnionOf(bits), bits[i]);
  }

  /**
   Removing never sets a flag that was not in `p`, leaves no bit shared with
   any removed flag and changes nothing without arguments.
   */
  lemma RemovedSpec(p: bv64, bits: seq<bv64>)
    ensures Subset(Removed(p, bits), p)
    ensures forall i :: 0 <= i < |bits| ==> Removed(p, bits) & bits[i] == 0
    ensures bits == [] ==> Removed(p, bits) == p
  {
    RemovedKeepsNothingNew(p, bits);
    if bits == [] {
      RemovedNothing(p);
    }
    forall i | 0 <= i < |bits| ensures Removed(p, bits) & bits[i] == 0 {
      RemovedClears(p, bits, i);
    }
  }

  /** Under the set meaning, removing is the difference of positions. */
  lemma RemovedMembers(p: bv64, bits: seq<bv64>)
    ensures Members(Removed(p, bits)) == Members(p) - MembersOfAll(bits)
  {
    MembersAndNot(p, UnionOf(bits));
    MembersUnionOf(bits);
  }

  /** A flag that is wholly contained in `p` after adding it, is wholly gone after removing it. */
  lemma AddedThenRemoved(p: bv64, b: bv64)
    ensures Subset(b, Added(p, [b]))
    ensures b != 0 ==> !Subset(b, Removed(p, [b]))
  {
    UnionOfSingle(b);
  }
}
