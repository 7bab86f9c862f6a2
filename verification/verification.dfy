/**
  Reaction verification: a member who reacts with the configured emoji on
  the bot's verification message gets the verification role, and loses it
  when the reaction is removed. Two variants exist: the per-guild one keeps
  its settings in the guild's entry of `config.json`, the global one at the
  top level of the document, with a different default emoji.
*/
module Verification {
  import opened Wrappers
  import opened Config
  import opened Members
  import opened Text

  const RoleKey: string := "verification_role_id"
  const EmojiKey: string := "verification_emoji"

  /** U+2705 WHITE HEAVY CHECK MARK. */
  const CheckMark: string := "\U{2705}"

  /** The three characters U+201A U+00FA U+00D6: the UTF-8 bytes of the
      check mark read as Mac OS Roman, as the global variant spells its
      default. */
  const GarbledCheckMark: string := "\U{201A}\U{00FA}\U{00D6}"

  /** `verification.py` reads `servers[str(guild)]`; `cogs/verification.py`
      reads the top level. */
  datatype Variant = PerGuild | Global

  /** The emoji compared against when none is configured, as written. */
  function DefaultEmoji(v: Variant): string {
    match v
    case PerGuild => CheckMark
    case Global => GarbledCheckMark
  }

  /** The settings a handler acts on; `None` makes it stop. The per-guild
      variant stops on a missing or empty entry (`if not config`). */
  function Settings(v: Variant, c: Config, g: GuildId): (r: Option<Fields>)
    ensures v == Global ==> r == Some(c.top)
    ensures v == PerGuild ==> (r.Some? <==> GuildFields(c, g).Some? && |GuildFields(c, g).value| > 0)
    ensures v == PerGuild && r.Some? ==> r == GuildFields(c, g)
  {
    match v
    case Global => Some(c.top)
    case PerGuild =>
      match GuildFields(c, g)
      case None => None
      case Some(f) => if |f| == 0 then None else Some(f)
  }

  // ---------------------------------------------------------------------
  // The reaction handlers
  // ---------------------------------------------------------------------

  /** A reaction event: whether the bot itself reacted, and the emoji as
      `str(payload.emoji)` renders it. */
  datatype Event = Event(byBot: bool, emoji: string)

  /** `channel.fetch_message`: the message's author test and the titles of
      its embeds (`None` for an embed without a title). */
  datatype Fetch = Message(byBot: bool, titles: seq<Option<string>>) | MessageNotFound | FetchError

  /** What Discord answers while the handler looks things up. */
  datatype Scene = Scene(guildFound: bool, member: Option<Member>, channelFound: bool, fetch: Fetch,
                         hasRole: int -> bool)

  datatype Ignore =
    | OwnReaction | NoSettings | NoGuild | NoMember | NoChannel | NoMessage | NotBotMessage | NoEmbed
    | NotVerificationEmbed | OtherEmoji | NoRole | AlreadyVerified | NotVerified

  /** `Crash` is an exception escaping the handler; `Open` carries the
      resolved role and member once every check has passed. */
  datatype Gate = Stop(why: Ignore) | Crash | Open(role: int, member: Member)

  /** `str(payload.emoji) != config.get('verification_emoji', default)`
      negated. */
  predicate EmojiMatches(f: Fields, emoji: string, default: string) {
    if EmojiKey in f then f[EmojiKey] == JStr(emoji) else emoji == default
  }

  /** The first embed's title mentions verification in any ASCII case. */
  predicate VerificationTitle(t: string) {
    Contains(Lower(t), "verification")
  }

  /** The checks both handlers run, in order, before touching the role. */
  function Checks(v: Variant, default: string, c: Config, g: GuildId, e: Event, sc: Scene): (r: Gate)
    ensures e.byBot ==> r == Stop(OwnReaction)
    ensures r.Open? <==>
              && !e.byBot && Settings(v, c, g).Some? && sc.guildFound && sc.member.Some? && sc.channelFound
              && sc.fetch.Message? && sc.fetch.byBot && |sc.fetch.titles| > 0
              && sc.fetch.titles[0].Some? && VerificationTitle(sc.fetch.titles[0].value)
              && EmojiMatches(Settings(v, c, g).value, e.emoji, default)
              && Lookup(Settings(v, c, g).value, RoleKey).JInt?
              && sc.hasRole(Lookup(Settings(v, c, g).value, RoleKey).i)
    ensures r.Open? ==> r.role == Lookup(Settings(v, c, g).value, RoleKey).i && r.member == sc.member.value
    ensures r == Stop(OtherEmoji) ==> Settings(v, c, g).Some? && !EmojiMatches(Settings(v, c, g).value, e.emoji, default)
    ensures r == Stop(NoRole) ==>
              && Settings(v, c, g).Some? && RoleKey in Settings(v, c, g).value
              && !Settings(v, c, g).value[RoleKey].JIds?
              && !(Settings(v, c, g).value[RoleKey].JInt? && sc.hasRole(Settings(v, c, g).value[RoleKey].i))
  {
    if e.byBot then Stop(OwnReaction)
    else
      match Settings(v, c, g)
      case None => Stop(NoSettings)
      case Some(f) =>
        if !sc.guildFound then Stop(NoGuild)
        else if sc.member.None? then Stop(NoMember)
        else if !sc.channelFound then Stop(NoChannel)
        else
          match sc.fetch
          case MessageNotFound => Stop(NoMessage)
          case FetchError => Crash
          case Message(byBot, titles) =>
            if !byBot then Stop(NotBotMessage)
            else if |titles| == 0 then Stop(NoEmbed)
            else if titles[0].None? then Crash
            else if !VerificationTitle(titles[0].value) then Stop(NotVerificationEmbed)
            else if !EmojiMatches(f, e.emoji, default) then Stop(OtherEmoji)
            else if RoleKey !in f then Crash
            else
              match f[RoleKey]
              case JInt(i) => if sc.hasRole(i) then Open(i, sc.member.value) else Stop(NoRole)
              case JIds(_) => Crash
              case _ => Stop(NoRole)
  }

  /** What a handler does to the member's roles. */
  datatype Outcome = Ignored(why: Ignore) | Failed | Grant(role: int) | Revoke(role: int)

  /** `on_raw_reaction_add` with the given default emoji: the role is
      added only when the member lacks it. */
  function ReactionAdd(v: Variant, default: string, c: Config, g: GuildId, e: Event, sc: Scene): (r: Outcome)
    ensures r.Grant? <==> Checks(v, default, c, g, e, sc).Open? && Checks(v, default, c, g, e, sc).role !in sc.member.value.roles
    ensures r.Grant? ==> r.role == Checks(v, default, c, g, e, sc).role
    ensures !r.Revoke?
  {
    match Checks(v, default, c, g, e, sc)
    case Stop(why) => Ignored(why)
    case Crash => Failed
    case Open(role, m) => if role in m.roles then Ignored(AlreadyVerified) else Grant(role)
  }

  /** `on_raw_reaction_remove`: the role is removed only when the member
      holds it. */
  function ReactionRemove(v: Variant, default: string, c: Config, g: GuildId, e: Event, sc: Scene): (r: Outcome)
    ensures r.Revoke? <==> Checks(v, default, c, g, e, sc).Open? && Checks(v, default, c, g, e, sc).role in sc.member.value.roles
    ensures r.Revoke? ==> r.role == Checks(v, default, c, g, e, sc).role
    ensures !r.Grant?
  {
    match Checks(v, default, c, g, e, sc)
    case Stop(why) => Ignored(why)
    case Crash => Failed
    case Open(role, m) => if role !in m.roles then Ignored(NotVerified) else Revoke(role)
  }

  /** The member's roles after the handler's call (`callOk` says whether
      `add_roles` / `remove_roles` succeeded). */
  function RolesAfter(roles: seq<int>, o: Outcome, callOk: bool): (r: seq<int>)
    ensures !callOk || o.Ignored? || o.Failed? ==> r == roles
    ensures callOk && o.Grant? ==> o.role in r && forall x :: x in roles ==> x in r
    ensures callOk && o.Revoke? ==> o.role !in r && forall x :: x in r <==> x in roles && x != o.role
    decreases |roles|
  {
    match o
    case Grant(role) => if callOk then roles + [role] else roles
    case Revoke(role) =>
      if !callOk || |roles| == 0 then roles
      else (if roles[0] == role then [] else [roles[0]]) + RolesAfter(roles[1..], o, callOk)
    case _ => roles
  }

  /** The member after the call, everything else unchanged. */
  function WithRoles(sc: Scene, roles: seq<int>): Scene
    requires sc.member.Some?
  {
    sc.(member := Some(sc.member.value.(roles := roles)))
  }

  /** Reacting twice is the same as reacting once: the second add finds
      the role in place and does nothing. */
  lemma AddIdempotent(v: Variant, default: string, c: Config, g: GuildId, e: Event, sc: Scene)
    requires ReactionAdd(v, default, c, g, e, sc).Grant?
    ensures var o := ReactionAdd(v, default, c, g, e, sc);
            var sc' := WithRoles(sc, RolesAfter(sc.member.value.roles, o, true));
            ReactionAdd(v, default, c, g, e, sc') == Ignored(AlreadyVerified)
  {
    var o := ReactionAdd(v, default, c, g, e, sc);
    var sc' := WithRoles(sc, RolesAfter(sc.member.value.roles, o, true));
    assert Checks(v, default, c, g, e, sc') == Open(o.role, sc'.member.value);
  }

  /** Removing the reaction twice: the second removal finds no role and
      does nothing. */
  lemma RemoveIdempotent(v: Variant, default: string, c: Config, g: GuildId, e: Event, sc: Scene)
    requires ReactionRemove(v, default, c, g, e, sc).Revoke?
    ensures var o := ReactionRemove(v, default, c, g, e, sc);
            var sc' := WithRoles(sc, RolesAfter(sc.member.value.roles, o, true));
            ReactionRemove(v, default, c, g, e, sc') == Ignored(NotVerified)
  {
    var o := ReactionRemove(v, default, c, g, e, sc);
    var sc' := WithRoles(sc, RolesAfter(sc.member.value.roles, o, true));
    assert Checks(v, default, c, g, e, sc') == Open(o.role, sc'.member.value);
  }

  /** Reacting and then withdrawing the reaction leaves the member with the
      roles held before. */
  lemma AddThenRemoveRestores(v: Variant, default: string, c: Config, g: GuildId, e: Event, sc: Scene)
    requires ReactionAdd(v, default, c, g, e, sc).Grant?
    ensures var o := ReactionAdd(v, default, c, g, e, sc);
            var sc' := WithRoles(sc, RolesAfter(sc.member.value.roles, o, true));
            var o' := ReactionRemove(v, default, c, g, e, sc');
            o' == Revoke(o.role)
            && forall x :: x in RolesAfter(sc'.member.value.roles, o', true) <==> x in sc.member.value.roles
  {
    var o := ReactionAdd(v, default, c, g, e, sc);
    var sc' := WithRoles(sc, RolesAfter(sc.member.value.roles, o, true));
    assert Checks(v, default, c, g, e, sc') == Open(o.role, sc'.member.value);
  }

  // ---------------------------------------------------------------------
  // The default emoji
  // ---------------------------------------------------------------------

  /** As written, the global variant's default is not the check mark: with
      no emoji configured, a check-mark reaction is ignored there, while
      the per-guild variant accepts it. */
  lemma GlobalDefaultRejectsCheckMark(c: Config, g: GuildId, sc: Scene)
    requires EmojiKey !in c.top
    ensures !Checks(Global, DefaultEmoji(Global), c, g, Event(false, CheckMark), sc).Open?
    ensures !ReactionAdd(Global, DefaultEmoji(Global), c, g, Event(false, CheckMark), sc).Grant?
    ensures !ReactionRemove(Global, DefaultEmoji(Global), c, g, Event(false, CheckMark), sc).Revoke?
    ensures EmojiMatches(c.top, GarbledCheckMark, DefaultEmoji(Global))
  {
    assert CheckMark != GarbledCheckMark by {
      assert |CheckMark| == 1 && |GarbledCheckMark| == 3;
    }
  }

  /** The default both variants evidently intend. */
  function IntendedDefault(v: Variant): (r: string)
    ensures r == DefaultEmoji(PerGuild)
  {
    CheckMark
  }

  /** With the intended default, a check-mark reaction passes the emoji test
      in either variant whenever no emoji is configured, and a reaction
      that passes every other check gets the role. */
  lemma IntendedDefaultAccepts(v: Variant, c: Config, g: GuildId, sc: Scene)
    requires Settings(v, c, g).Some? && EmojiKey !in Settings(v, c, g).value
    ensures EmojiMatches(Settings(v, c, g).value, CheckMark, IntendedDefault(v))
    ensures Checks(v, IntendedDefault(v), c, g, Event(false, CheckMark), sc) != Stop(OtherEmoji)
  {
  }

  // ---------------------------------------------------------------------
  // Settings commands
  // ---------------------------------------------------------------------

  datatype SetReply = Saved | RoleTooHigh | InvalidEmoji | SetFailed

  datatype SetResult = SetResult(config: Config, reply: SetReply)

  /** Writes one setting where the variant keeps it. */
  function Store(v: Variant, c: Config, g: GuildId, k: string, x: Json): (r: Config)
    ensures v == Global ==> Lookup(r.top, k) == x && r.servers == c.servers
    ensures v == Global ==> forall k' :: k' != k ==> Lookup(r.top, k') == Lookup(c.top, k')
    ensures v == PerGuild ==> GuildFields(r, g) == Some(FieldsOrEmpty(c, g)[k := x]) && OthersUnchanged(c, r, g)
    ensures Settings(v, r, g).Some? && Lookup(Settings(v, r, g).value, k) == x
  {
    match v
    case Global => SetTop(c, k, x)
    case PerGuild => SetGuildKey(c, g, k, x)
  }

  /** Storing one setting keeps every other setting the handlers read. */
  lemma StoreKeepsOthers(v: Variant, c: Config, g: GuildId, k: string, x: Json, k': string)
    requires k' != k && Settings(v, c, g).Some?
    ensures Lookup(Settings(v, Store(v, c, g, k, x), g).value, k') == Lookup(Settings(v, c, g).value, k')
  {
  }

  /** `/set-verification-role`: refused for a role at or above the bot's
      highest role; otherwise stores the role id. */
  function SetVerificationRole(v: Variant, c: Config, g: GuildId, role: Role, botTop: Role): (r: SetResult)
    ensures r.reply == RoleTooHigh <==> AtLeast(role, botTop)
    ensures r.reply != RoleTooHigh ==> r.reply == Saved && r.config == Store(v, c, g, RoleKey, JInt(role.id))
    ensures r.reply == RoleTooHigh ==> r.config == c
  {
    if AtLeast(role, botTop) then SetResult(c, RoleTooHigh)
    else SetResult(Store(v, c, g, RoleKey, JInt(role.id)), Saved)
  }

  /** Discord's answer to the test reaction. */
  datatype TestReaction = Accepted | RejectedHttp | OtherError

  /** `/set-verification-emoji`: stores the emoji only after the test
      reaction with it succeeds. */
  function SetVerificationEmoji(v: Variant, c: Config, g: GuildId, emoji: string, test: TestReaction): (r: SetResult)
    ensures r.reply == Saved <==> test == Accepted
    ensures r.reply == InvalidEmoji <==> test == RejectedHttp
    ensures r.reply == SetFailed <==> test == OtherError
    ensures r.reply != Saved ==> r.config == c
    ensures r.reply == Saved ==> r.config == Store(v, c, g, EmojiKey, JStr(emoji))
  {
    match test
    case Accepted => SetResult(Store(v, c, g, EmojiKey, JStr(emoji)), Saved)
    case RejectedHttp => SetResult(c, InvalidEmoji)
    case OtherError => SetResult(c, SetFailed)
  }

  /** A guild whose settings name a role and an emoji: a reaction with that
      emoji on the verification message grants the role to a member who
      lacks it. */
  lemma ReadyGrants(v: Variant, c: Config, g: GuildId, id: int, emoji: string,
                    sc: Scene, u: Member, titles: seq<Option<string>>)
    requires Settings(v, c, g).Some?
    requires Lookup(Settings(v, c, g).value, RoleKey) == JInt(id)
    requires Lookup(Settings(v, c, g).value, EmojiKey) == JStr(emoji)
    requires sc.hasRole(id) && sc.guildFound && sc.member == Some(u) && sc.channelFound && id !in u.roles
    requires sc.fetch == Message(true, titles) && |titles| > 0 && titles[0] == Some("Verification")
    ensures ReactionAdd(v, DefaultEmoji(v), c, g, Event(false, emoji), sc) == Grant(id)
  {
    assert Lower("Verification") == "verification";
    assert OccursAt("verification", Lower("Verification"), 0);
  }

  /** A list stored as the role: `get_role` raises, since a list cannot be
      a dict key, so the same reaction that would grant an integer role
      escapes as an exception and no role changes. */
  lemma ListedRoleFails(v: Variant, c: Config, g: GuildId, ids: seq<int>, emoji: string,
                        sc: Scene, u: Member, titles: seq<Option<string>>)
    requires Settings(v, c, g).Some?
    requires Lookup(Settings(v, c, g).value, RoleKey) == JIds(ids)
    requires Lookup(Settings(v, c, g).value, EmojiKey) == JStr(emoji)
    requires sc.guildFound && sc.member == Some(u) && sc.channelFound
    requires sc.fetch == Message(true, titles) && |titles| > 0 && titles[0] == Some("Verification")
    ensures Checks(v, DefaultEmoji(v), c, g, Event(false, emoji), sc) == Crash
    ensures ReactionAdd(v, DefaultEmoji(v), c, g, Event(false, emoji), sc) == Failed
    ensures ReactionRemove(v, DefaultEmoji(v), c, g, Event(false, emoji), sc) == Failed
  {
    assert Lower("Verification") == "verification";
    assert OccursAt("verification", Lower("Verification"), 0);
  }

  /** Configuring a role and an emoji makes the handlers act on them: a
      reaction with that emoji on the verification message grants that
      role to a member who lacks it. */
  lemma ConfiguredReactionGrants(v: Variant, c: Config, g: GuildId, role: Role, botTop: Role, emoji: string,
                                 sc: Scene, u: Member, titles: seq<Option<string>>)
    requires Below(role, botTop) && sc.hasRole(role.id)
    requires sc.guildFound && sc.member == Some(u) && sc.channelFound && role.id !in u.roles
    requires sc.fetch == Message(true, titles) && |titles| > 0 && titles[0] == Some("Verification")
    ensures var c1 := SetVerificationRole(v, c, g, role, botTop).config;
            var c2 := SetVerificationEmoji(v, c1, g, emoji, Accepted).config;
            ReactionAdd(v, DefaultEmoji(v), c2, g, Event(false, emoji), sc) == Grant(role.id)
  {
    var c1 := SetVerificationRole(v, c, g, role, botTop).config;
    var c2 := SetVerificationEmoji(v, c1, g, emoji, Accepted).config;
    StoreKeepsOthers(v, c1, g, EmojiKey, JStr(emoji), RoleKey);
    ReadyGrants(v, c2, g, role.id, emoji, sc, u, titles);
  }
}
