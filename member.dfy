/**
 The flags Discord keeps on a guild member, with the same set algebra as the
 gateway intents. The variadic operations fold their arguments into the
 receiver one at a time.
 */
module MemberFlags {
  import opened Masks
  import opened Flags

  /** A set of guild-member flags; the 64-bit signed value is kept as its bits. */
  type MemberFlags = bv64

  const DidRejoin: MemberFlags := Bit(0)
  const CompletedOnboarding: MemberFlags := Bit(1)
  const BypassesVerification: MemberFlags := Bit(2)
  const StartedOnboarding: MemberFlags := Bit(3)
  const None: MemberFlags := 0

  /** The flags have the values 1, 2, 4 and 8, and `None` is 0. */
  lemma FlagValues()
    ensures DidRejoin == 1 && CompletedOnboarding == 2
    ensures BypassesVerification == 4 && StartedOnboarding == 8
    ensures None == 0
  {
  }

  /** `f` with every flag of `bits` ORed in, one argument at a time. */
  method Add(f: MemberFlags, bits: seq<MemberFlags>) returns (r: MemberFlags)
    ensures r == Added(f, bits)
    ensures Members(r) == Members(f) + MembersOfAll(bits)
  {
    r := f;
    for i := 0 to |bits|
      invariant r == Added(f, bits[..i])
    {
      assert bits[..i + 1][..i] == bits[..i];
      OrAssociates(f, UnionOf(bits[..i]), bits[i]);
      r := r | bits[i];
    }
    assert bits[..|bits|] == bits;
    AddedMembers(f, bits);
  }

  /** `f` with every flag of `bits` cleared, one argument at a time. */
  method Remove(f: MemberFlags, bits: seq<MemberFlags>) returns (r: MemberFlags)
    ensures r == Removed(f, bits)
    ensures Members(r) == Members(f) - MembersOfAll(bits)
  {
    r := f;
    for i := 0 to |bits|
      invariant r == Removed(f, bits[..i])
    {
      assert bits[..i + 1][..i] == bits[..i];
      AndNotTwice(f, UnionOf(bits[..i]), bits[i]);
      r := r & !bits[i];
    }
    assert bits[..|bits|] == bits;
    RemovedMembers(f, bits);
  }

  /** Whether `f` contains every one of `bits`; it stops at the first one not contained. */
  method Has(f: MemberFlags, bits: seq<MemberFlags>) returns (r: bool)
    ensures r <==> forall i :: 0 <= i < |bits| ==> Subset(bits[i], f)
    ensures r <==> Subset(UnionOf(bits), f)
    ensures r <==> MembersOfAll(bits) <= Members(f)
    ensures |bits| == 0 ==> r
  {
    ContainsAll(f, bits);
    for i := 0 to |bits|
      invariant forall j :: 0 <= j < i ==> Subset(bits[j], f)
    {
      AndCovers(f, bits[i]);
      if !Covers(f, bits[i]) {
        return false;
      }
    }
    return true;
  }

  /** Whether `f` lacks some bit of at least one of `bits`; it stops at the first such argument. */
  method Missing(f: MemberFlags, bits: seq<MemberFlags>) returns (r: bool)
    ensures r <==> exists i :: 0 <= i < |bits| && !Subset(bits[i], f)
    ensures r <==> !Subset(UnionOf(bits), f)
    ensures r <==> !(MembersOfAll(bits) <= Members(f))
    ensures |bits| == 0 ==> !r
  {
    ContainsAll(f, bits);
    for i := 0 to |bits|
      invariant forall j :: 0 <= j < i ==> Subset(bits[j], f)
    {
      AndCovers(f, bits[i]);
      if !Covers(f, bits[i]) {
        return true;
      }
    }
    return false;
  }

  /** Containing each of `bits` is containing their OR, and is containing all of their positions. */
  lemma ContainsAll(f: MemberFlags, bits: seq<MemberFlags>)
    ensures (forall i :: 0 <= i < |bits| ==> Subset(bits[i], f)) <==> Subset(UnionOf(bits), f)
    ensures Subset(UnionOf(bits), f) <==> MembersOfAll(bits) <= Members(f)
  {
    AllWithin(bits, f);
    MembersUnionOf(bits);
    SubsetMeansInclusion(UnionOf(bits), f);
  }
}

/**
 A member of a guild and the accessors that choose between its own optional
 fields and those of the user it wraps.
 */
module GuildMember {
  import MemberFlags

  datatype Option<T> = None | Some(value: T)

  /** A Discord snowflake identifier, an unsigned 64-bit integer. */
  newtype Snowflake = x: int | 0 <= x < 0x1_0000_0000_0000_0000

  /**
   A user, with the id and username the member accessors read, and the
   optional avatar hash. The user's own `String` and `EffectiveAvatarURL` are
   uninterpreted parameters of the accessors, so any other field they read
   (such as the discriminator behind the default avatar) is not represented.
   */
  datatype User = User(id: Snowflake, username: string, avatar: Option<string>)

  /** A guild member; the join, premium-since and timeout timestamps are not part of this model. */
  datatype Member = Member(
    user: User,
    nick: Option<string>,
    avatar: Option<string>,
    roleIds: seq<Snowflake>,
    deaf: bool,
    mute: bool,
    flags: MemberFlags.MemberFlags,
    pending: bool,
    guildId: Snowflake)

  /**
   A member is written as its user is; `userString` stands for the user's own
   formatting, which is not part of this model.
   */
  function String(m: Member, userString: User -> string): string
  {
    userString(m.user)
  }

  /** Mentioning a member uses the same text as `String`. */
  function Mention(m: Member, userString: User -> string): string
  {
    String(m, userString)
  }

  /** Mention, String and the user's own String all agree, and only the user is consulted. */
  lemma MentionIsUserString(m: Member, n: Member, userString: User -> string)
    ensures Mention(m, userString) == String(m, userString) == userString(m.user)
    ensures m.user == n.user ==> Mention(m, userString) == Mention(n, userString)
  {
  }

  /** The nickname when there is one, otherwise the user's username. */
  function EffectiveName(m: Member): (r: string)
    ensures m.nick.Some? ==> r == m.nick.value
    ensures m.nick.None? ==> r == m.user.username
  {
    if m.nick.Some? then m.nick.value else m.user.username
  }

  /**
   The URL of the member's guild-specific avatar, or none when the member has
   no avatar hash of its own. `format` stands for the asset URL formatter,
   already bound to the member-avatar route and the CDN options; it receives
   the guild id, the user id and the avatar hash.
   */
  function AvatarURL(m: Member, format: (Snowflake, Snowflake, string) -> string): (r: Option<string>)
    ensures r.None? <==> m.avatar.None?
    ensures r.Some? ==> r.value == format(m.guildId, m.user.id, m.avatar.value)
  {
    if m.avatar.None? then None else Some(format(m.guildId, m.user.id, m.avatar.value))
  }

  /**
   The member's own avatar URL when it has one, otherwise the user's effective
   avatar URL; `userAvatarURL` stands for the latter, which is not part of this
   model, with the CDN options already bound in. The `""` branch mirrors the
   fallback of the source, which cannot be reached: `AvatarURL` is present
   whenever the member has an avatar.
   */
  function EffectiveAvatarURL(m: Member, userAvatarURL: User -> string,
                              format: (Snowflake, Snowflake, string) -> string): (r: string)
    ensures m.avatar.None? ==> r == userAvatarURL(m.user)
    ensures m.avatar.Some? ==> r == format(m.guildId, m.user.id, m.avatar.value)
  {
    if m.avatar.None? then
      userAvatarURL(m.user)
    else
      match AvatarURL(m, format)
      case Some(url) => url
      case None => ""
  }

  /** The effective avatar URL is the member's own avatar URL whenever that exists, and never the empty fallback. */
  lemma EffectiveAvatarPrefersMember(m: Member, userAvatarURL: User -> string,
                                     format: (Snowflake, Snowflake, string) -> string)
    ensures AvatarURL(m, format).Some? ==> EffectiveAvatarURL(m, userAvatarURL, format) == AvatarURL(m, format).value
    ensures AvatarURL(m, format).None? ==> EffectiveAvatarURL(m, userAvatarURL, format) == userAvatarURL(m.user)
  {
  }
}
