# disgo flag sets and member accessors in Dafny

This project models two bit-flag types of the disgo Discord library and the
small accessors of a guild member.

- **Gateway intents** (`api/gateway_intents.go`). A bot declares these when it
  identifies with the gateway. The type has variadic `Add`, `Remove`,
  `HasAll` and `MissingAny`, the single-argument `Has` and `Missing`, fifteen
  single-bit intents, and the `NonPrivileged`, `Privileged`, `All` and `None`
  masks.
- **Member flags** (`discord/member.go`). The same set algebra over the flags
  of a guild member, with variadic `Add`, `Remove`, `Has` and `Missing`. Here
  `Has` and `Missing` take several arguments.
- **Member** (`discord/member.go`). The accessors `String`, `Mention`,
  `EffectiveName`, `AvatarURL` and `EffectiveAvatarURL`, which choose between
  the member's own optional fields and those of the user it wraps.

Both flag types are signed integers, and Go's `|`, `&` and `&^` act on their
two's complement bits, so a flag value is a `bv64`. `&^` is written `& !`.

The module `Flags` (`flags.dfy`) holds what the two types share:

- `UnionOf`, the left fold of `|` over the arguments starting at zero. It is
  the specification of the argument loops.
- `Added` and `Removed`, the results the library promises.
- `Subset(a, b)`, which holds when every bit of `a` is set in `b`.
- `Members(x)`, the set of bit positions set in `x`. This is an independent
  meaning for a flag value: under it `|` is set union, `& !` is set
  difference and "has" is set inclusion.

The module `Masks` holds the bit-vector facts used by the lemmas. Each is
stated over plain `bv64` values so that the solver decides it alone.

Each loop of the source is a method with a loop:

- Gateway-intent `Add` and `Remove` first OR their arguments into an
  accumulator.
- Member-flag `Add` and `Remove` update the receiver argument by argument.
- `HasAll`, `MissingAny` and the member-flag `Has` and `Missing` return early
  at the first argument not contained.

Every one of these methods is proved against the same fold specification.

Code the source calls but that is not part of this model becomes a
function-valued parameter: `User.String`; `User.EffectiveAvatarURL`, bound to
the CDN options; and `formatAssetURL`, bound to the member-avatar route and the
same CDN options.

## Model

| member | source | states |
|---|---|---|
| GatewayIntents.Add | api/gateway_intents.go:7-14 | The result is `p` ORed with the OR of all the arguments. Its set of positions is the union of `p`'s and every argument's. |
| GatewayIntents.Remove | api/gateway_intents.go:17-24 | The result is `p` with the OR of all the arguments cleared. Its positions are `p`'s minus every argument's. |
| GatewayIntents.HasAll | api/gateway_intents.go:27-34 | True exactly when `Has` holds for every argument, which is exactly when `p` has the OR of the arguments. True for no arguments. |
| GatewayIntents.Has | api/gateway_intents.go:37-39 | `(p & bit) == bit` holds exactly when every bit of `bit` is set in `p`, that is when `bit`'s positions are a subset of `p`'s. |
| GatewayIntents.MissingAny | api/gateway_intents.go:42-49 | True exactly when some argument is `Missing`, the exact negation of `HasAll`. False for no arguments. |
| GatewayIntents.Missing | api/gateway_intents.go:52-54 | The negation of `Has`: some position of `bit` is not set in `p`. |
| GatewayIntents.HasAllOfUnion | api/gateway_intents.go:27-39 | Having each argument is the same as having their OR. |
| GatewayIntents.NamedAreShifts | api/gateway_intents.go:57-72 | There are fifteen named intents, and the `i`-th in declaration order is `1 << i`. |
| GatewayIntents.NamedSinglePositions | api/gateway_intents.go:57-72 | The `i`-th named intent sets position `i` and nothing else, so the fifteen are distinct single bits. |
| GatewayIntents.PrivilegedSplit | api/gateway_intents.go:74-90 | `Privileged` is `GuildMembers \| GuildPresences`. It is disjoint from `NonPrivileged`, and the two together are `All`. |
| GatewayIntents.AllHasEveryNamed | api/gateway_intents.go:57-90 | `All` contains each of the fifteen named intents. |
| GatewayIntents.EveryNamedGivesAll | api/gateway_intents.go:57-90 | A value that contains every named intent contains `All`. |
| GatewayIntents.AllIsUnionOfNamed | api/gateway_intents.go:57-90 | `All` is exactly the OR of the fifteen named intents. |
| GatewayIntents.HasNone | api/gateway_intents.go:37-91 | `None` has no position set, and every value has `None`. |
| GatewayIntents.AddThenHas | api/gateway_intents.go:7-14 | After `Add`, the result has the original value and each argument. |
| GatewayIntents.RemoveThenMissing | api/gateway_intents.go:17-24 | After `Remove`, each nonzero argument is missing from the result. |
| Flags.AddedSpec | api/gateway_intents.go:7-14 | The result of adding contains `p` and every argument, and with no arguments it is `p`. |
| Flags.AddedMembers | api/gateway_intents.go:7-14 | Adding is union of the sets of positions. |
| Flags.AddedIdempotent | discord/member.go:104-109 | Adding the same arguments twice gives the same value as adding them once. |
| Flags.RemovedSpec | api/gateway_intents.go:17-24 | The result of removing is within `p`, shares no bit with any argument, and with no arguments it is `p`. |
| Flags.RemovedMembers | api/gateway_intents.go:17-24 | Removing is difference of the sets of positions. |
| Flags.AddedThenRemoved | api/gateway_intents.go:7-24 | A flag is contained after it is added. A nonzero flag is not contained after it is removed. |
| Flags.MembersInjective | api/gateway_intents.go:7-24 | Two flag values are equal exactly when they set the same positions, so the set meaning of adding and removing determines their results. |
| Flags.SubsetMeansInclusion | api/gateway_intents.go:37-39 | The bitwise containment test is inclusion of the sets of positions, in both directions. |
| Flags.MembersUnionOf | api/gateway_intents.go:8-11 | The OR of the arguments sets exactly the positions set in at least one argument. |
| Flags.UnionOfCovers | api/gateway_intents.go:8-11 | Every argument is contained in the OR of the arguments. |
| Flags.UnionOfLeast | api/gateway_intents.go:8-11 | A value containing every argument contains their OR. |
| Flags.AllWithin | api/gateway_intents.go:27-34 | Each argument is within `q` exactly when their OR is within `q`. |
| MemberFlags.FlagValues | discord/member.go:95-101 | The flags are `DidRejoin = 1`, `CompletedOnboarding = 2`, `BypassesVerification = 4`, `StartedOnboarding = 8` and `None = 0`. |
| MemberFlags.Add | discord/member.go:104-109 | ORing the arguments into `f` one at a time gives `f` ORed with the OR of all of them. The positions are the union. |
| MemberFlags.Remove | discord/member.go:112-117 | Clearing the arguments from `f` one at a time gives `f` with the OR of all of them cleared. The positions are the difference. |
| MemberFlags.Has | discord/member.go:120-127 | True exactly when every argument is contained in `f`, which is when their OR is contained and when all their positions are in `f`. True for no arguments. |
| MemberFlags.Missing | discord/member.go:130-137 | True exactly when some argument is not contained in `f`, the exact negation of `Has`. False for no arguments. |
| MemberFlags.ContainsAll | discord/member.go:120-137 | Containing each argument is containing their OR, which is containing all their positions. |
| GuildMember.MentionIsUserString | discord/member.go:30-36 | `Mention`, `String` and the user's `String` agree. Two members whose users have the same id, username and avatar hash mention alike. |
| GuildMember.EffectiveName | discord/member.go:39-44 | The nickname when one is present, otherwise the user's username. |
| GuildMember.AvatarURL | discord/member.go:56-62 | None exactly when the member has no avatar hash. Otherwise the formatter applied to the guild id, the user id and the hash. |
| GuildMember.EffectiveAvatarURL | discord/member.go:46-54 | Without a member avatar, the user's effective avatar URL. With one, the member avatar URL. |
| GuildMember.EffectiveAvatarPrefersMember | discord/member.go:46-62 | The effective avatar URL is the member avatar URL whenever that exists, and the user's otherwise. The empty-string fallback is never reached. |

## Left out

- The `Bit` interface, and the runtime type assertion `bit.(GatewayIntents)` that panics on an argument of another flag type. Every argument here is a gateway intent, so the methods take a `seq` of intents.
- Go `int`, the underlying type of `MemberFlags`, is taken to be 64 bits wide.
- `formatAssetURL`, `User.String` and `User.EffectiveAvatarURL` are not part of this model. They are uninterpreted function-valued parameters. `User` keeps the id and username the accessors read, and the avatar hash; any other field the user's `String` and `EffectiveAvatarURL` read (such as the discriminator behind the default avatar) is not represented. `userAvatarURL`, like the formatter, has the CDN options bound in, and the formatter also has the member-avatar route.
- The JSON tags, and the `JoinedAt`, `PremiumSince` and `CommunicationDisabledUntil` timestamps of `Member`. `CreatedAt` is left out too, because it only forwards to the user.
- `MemberAdd`, `MemberUpdate` and `CurrentMemberUpdate` carry no behaviour.
- `discord/channel.go` holds payload structures and enum constants. Its icon URL only forwards to the unseen formatter.
- The gateway message parser with its zlib/zstd stream decompression, and the shard identify rate limiter: outside the flag and member core. Decompression is a foreign library, and the rate limiter is concurrency and wall-clock timing.
- The gateway and webhook event handlers: event-dispatch glue (a type assertion, calls into the cache, the entity builder and the event manager, a channel send) with no behaviour of their own to prove.
