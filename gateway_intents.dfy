/**
 The gateway intents a bot declares when it identifies with the gateway: a
 64-bit flag value with one bit per group of events, combined and queried
 with the variadic operations of the library.
 */
module GatewayIntents {
  import opened Masks
  import opened Flags

  /** A set of gateway intents; the signed 64-bit value is kept as its bits. */
  type Intents = bv64

  // One flag per bit position, in declaration order from bit 0.
  const Guilds: Intents := Bit(0)
  const GuildMembers: Intents := Bit(1)
  const GuildBans: Intents := Bit(2)
  const GuildEmojis: Intents := Bit(3)
  const GuildIntegrations: Intents := Bit(4)
  const GuildWebhooks: Intents := Bit(5)
  const GuildInvites: Intents := Bit(6)
  const GuildVoiceStates: Intents := Bit(7)
  const GuildPresences: Intents := Bit(8)
  const GuildMessages: Intents := Bit(9)
  const GuildMessageReactions: Intents := Bit(10)
  const GuildMessageTyping: Intents := Bit(11)
  const DirectMessages: Intents := Bit(12)
  const DirectMessageReactions: Intents := Bit(13)
  const DirectMessageTyping: Intents := Bit(14)

  /** The fifteen single intents, in declaration order. */
  const Named: seq<Intents> := [
    Guilds, GuildMembers, GuildBans, GuildEmojis, GuildIntegrations,
    GuildWebhooks, GuildInvites, GuildVoiceStates, GuildPresences,
    GuildMessages, GuildMessageReactions, GuildMessageTyping,
    DirectMessages, DirectMessageReactions, DirectMessageTyping]

  /** Every intent that needs no approval in the developer portal. */
  const NonPrivileged: Intents :=
    Guilds | GuildBans | GuildEmojis | GuildIntegrations | GuildWebhooks |
    GuildInvites | GuildVoiceStates | GuildMessages | GuildMessageReactions |
    GuildMessageTyping | DirectMessages | DirectMessageReactions |
    DirectMessageTyping

  /** The intents that must be enabled for the application before use. */
  const Privileged: Intents := GuildMembers | GuildPresences

  const All: Intents := NonPrivileged | Privileged

  const None: Intents := 0

  /** `p` with every intent of `bits` added: the OR of the arguments is built first, then merged into `p`. */
  method Add(p: Intents, bits: seq<Intents>) returns (r: Intents)
    ensures r == Added(p, bits)
    ensures Members(r) == Members(p) + MembersOfAll(bits)
  {
    var total: Intents := 0;
    for i := 0 to |bits|
      invariant total == UnionOf(bits[..i])
    {
      assert bits[..i + 1][..i] == bits[..i];
      total := total | bits[i];
    }
    assert bits[..|bits|] == bits;
    r := p | total;
    AddedMembers(p, bits);
  }

  /** `p` with every intent of `bits` cleared. */
  method Remove(p: Intents, bits: seq<Intents>) returns (r: Intents)
    ensures r == Removed(p, bits)
    ensures Members(r) == Members(p) - MembersOfAll(bits)
  {
    var total: Intents := 0;
    for i := 0 to |bits|
      invariant total == UnionOf(bits[..i])
    {
      assert bits[..i + 1][..i] == bits[..i];
      total := total | bits[i];
    }
    assert bits[..|bits|] == bits;
    r := p & !total;
    RemovedMembers(p, bits);
  }

  /** Whether every bit of `bit` is set in `p`. */
  function Has(p: Intents, bit: Intents): (r: bool)
    ensures r <==> Subset(bit, p)
    ensures r <==> Members(bit) <= Members(p)
  {
    AndCovers(p, bit);
    SubsetMeansInclusion(bit, p);
    Covers(p, bit)
  }

  /** Whether some bit of `bit` is not set in `p`. */
  function Missing(p: Intents, bit: Intents): (r: bool)
    ensures r <==> !Subset(bit, p)
    ensures r <==> exists k :: k in Members(bit) && k !in Members(p)
  {
    !Has(p, bit)
  }

  /** Whether `p` has every one of `bits`; it stops at the first one missing. */
  method HasAll(p: Intents, bits: seq<Intents>) returns (r: bool)
    ensures r <==> forall i :: 0 <= i < |bits| ==> Has(p, bits[i])
    ensures r <==> Has(p, UnionOf(bits))
    ensures |bits| == 0 ==> r
  {
    for i := 0 to |bits|
      invariant forall j :: 0 <= j < i ==> Has(p, bits[j])
    {
      if !Has(p, bits[i]) {
        HasAllOfUnion(p, bits);
        return false;
      }
    }
    HasAllOfUnion(p, bits);
    return true;
  }

  /** Whether `p` misses at least one of `bits`; it stops at the first one missing. */
  method MissingAny(p: Intents, bits: seq<Intents>) returns (r: bool)
    ensures r <==> exists i :: 0 <= i < |bits| && Missing(p, bits[i])
    ensures r <==> Missing(p, UnionOf(bits))
    ensures |bits| == 0 ==> !r
  {
    for i := 0 to |bits|
      invariant forall j :: 0 <= j < i ==> Has(p, bits[j])
    {
      if !Has(p, bits[i]) {
        HasAllOfUnion(p, bits);
        return true;
      }
    }
    HasAllOfUnion(p, bits);
    return false;
  }

  /** Having each of `bits` is having their OR. */
  lemma HasAllOfUnion(p: Intents, bits: seq<Intents>)
    ensures (forall i :: 0 <= i < |bits| ==> Has(p, bits[i])) <==> Has(p, UnionOf(bits))
  {
    AllWithin(bits, p);
  }

  // ---------------------------------------------------------------------
  // The named intents and the composite masks
  // ---------------------------------------------------------------------

  /** The `i`-th named intent is `1 << i`, in declaration order. */
  lemma NamedAreShifts()
    ensures |Named| == 15
    ensures forall i :: 0 <= i < |Named| ==> Named[i] == (1 as bv64) << (i as bv7)
  {
  }

  /** The `i`-th named intent sets bit position `i` and no other, so no two named intents share a bit. */
  lemma NamedSinglePositions()
    ensures forall i :: 0 <= i < |Named| ==> Members(Named[i]) == {i as bv7}
  {
    NamedAreShifts();
    forall i | 0 <= i < |Named| ensures Members(Named[i]) == {i as bv7} {
      MembersBit(i as bv7);
    }
  }

  /** The privileged and the non-privileged intents are disjoint and together make up `All`. */
  lemma PrivilegedSplit()
    ensures Privileged == GuildMembers | GuildPresences
    ensures Privileged & NonPrivileged == 0
    ensures Privileged | NonPrivileged == All
  {
  }

  /** `All` has each named intent. */
  lemma AllHasEveryNamed()
    ensures forall i :: 0 <= i < |Named| ==> Subset(Named[i], All)
  {
  }

  /** A value that has every named intent has `All`. */
  lemma EveryNamedGivesAll(p: Intents)
    requires forall i :: 0 <= i < |Named| ==> Subset(Named[i], p)
    ensures Subset(All, p)
  {
    assert Subset(Named[0], p) && Subset(Named[1], p) && Subset(Named[2], p);
    assert Subset(Named[3], p) && Subset(Named[4], p) && Subset(Named[5], p);
    assert Subset(Named[6], p) && Subset(Named[7], p) && Subset(Named[8], p);
    assert Subset(Named[9], p) && Subset(Named[10], p) && Subset(Named[11], p);
    assert Subset(Named[12], p) && Subset(Named[13], p) && Subset(Named[14], p);
  }

  /** `All` is the OR of the fifteen named intents. */
  lemma AllIsUnionOfNamed()
    ensures All == UnionOf(Named)
  {
    AllHasEveryNamed();
    UnionOfLeast(Named, All);
    forall i | 0 <= i < |Named| ensures Subset(Named[i], UnionOf(Named)) {
      UnionOfCovers(Named, i);
    }
    EveryNamedGivesAll(UnionOf(Named));
    BothSubsetsEqual(All, UnionOf(Named));
  }

  /** `None` has no position set, and every value has it. */
  lemma HasNone(p: Intents)
    ensures Members(None) == {}
    ensures Has(p, None)
  {
    MembersEmpty(None);
  }

  /** After adding intents, the result has each of them and every intent `p` had. */
  lemma AddThenHas(p: Intents, bits: seq<Intents>)
    ensures Has(Added(p, bits), p)
    ensures forall i :: 0 <= i < |bits| ==> Has(Added(p, bits), bits[i])
  {
    AddedSpec(p, bits);
  }

  /** After removing intents, each nonzero one of them is missing. */
  lemma RemoveThenMissing(p: Intents, bits: seq<Intents>)
    ensures forall i :: 0 <= i < |bits| && bits[i] != 0 ==> Missing(Removed(p, bits), bits[i])
  {
    forall i | 0 <= i < |bits| && bits[i] != 0 ensures Missing(Removed(p, bits), bits[i]) {
      RemovedClears(p, bits, i);
      ClearedNotHad(Removed(p, bits), bits[i]);
    }
  }
}
