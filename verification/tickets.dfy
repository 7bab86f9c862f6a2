/**
  The ticket system: opening a ticket channel (with its name, category,
  staff access and staff mentions), the close button's permission check
  and creator lookup, and the ticket settings kept in a guild's entry of
  `config.json`. There are two variants of the cog: the multi-role one
  mentions every staff role when a ticket opens, the single-mention one
  only the configured mention role.
*/
module Tickets {
  import opened Wrappers
  import opened Config
  import opened Members
  import opened Text
  import opened Helpers

  const CategoryKey: string := "ticket_category_id"
  const MentionKey: string := "staff_mention_role_id"
  const TranscriptKey: string := "transcript_channel_id"

  /** What the handlers see of the guild: the names of its channels and
      which ids `get_role` / `get_channel` resolve. */
  datatype GuildView = GuildView(channelNames: set<string>, hasRole: int -> bool, hasChannel: int -> bool)

  /** Which cog: `tickets.py` mentions every staff role, `cogs/tickets.py`
      only the mention role. */
  datatype Variant = MentionAll | MentionOne

  // ---------------------------------------------------------------------
  // Reading the guild's entry
  // ---------------------------------------------------------------------

  /** `for role_id in server_config.get(k, [])`: a missing key is the
      empty list; a string iterates over characters, none of which is a
      role; any other value cannot be iterated (`None`). */
  function IterIds(f: Fields, k: string): (r: Option<seq<int>>)
    ensures k !in f ==> r == Some([])
    ensures k in f && f[k].JIds? ==> r == Some(f[k].ids)
    ensures k in f && f[k].JStr? ==> r == Some([])
    ensures r.None? <==> k in f && !f[k].JIds? && !f[k].JStr?
  {
    if k !in f then Some([])
    else
      match f[k]
      case JIds(ids) => Some(ids)
      case JStr(_) => Some([])
      case _ => None
  }

  /** The ids of `ids` that resolve to a role, in order. */
  function Resolving(ids: seq<int>, hasRole: int -> bool): (r: seq<int>)
    ensures |r| <= |ids|
    ensures forall x :: x in r <==> x in ids && hasRole(x)
    decreases |ids|
  {
    if |ids| == 0 then []
    else (if hasRole(ids[0]) then [ids[0]] else []) + Resolving(ids[1..], hasRole)
  }

  /** An id that resolves is kept as often as it is listed, and no other
      id is kept. */
  lemma {:induction false} ResolvingCount(ids: seq<int>, hasRole: int -> bool, x: int)
    ensures multiset(Resolving(ids, hasRole))[x] == (if hasRole(x) then multiset(ids)[x] else 0)
    decreases |ids|
  {
    if |ids| > 0 {
      ResolvingCount(ids[1..], hasRole, x);
      assert ids == [ids[0]] + ids[1..];
    }
  }

  /** Resolving keeps the stored order: a concatenation of id lists
      resolves piece by piece. */
  lemma {:induction false} ResolvingConcat(a: seq<int>, b: seq<int>, hasRole: int -> bool)
    ensures Resolving(a + b, hasRole) == Resolving(a, hasRole) + Resolving(b, hasRole)
    decreases |a|
  {
    if |a| > 0 {
      assert (a + b)[1..] == a[1..] + b;
      ResolvingConcat(a[1..], b, hasRole);
    } else {
      assert a + b == b;
    }
  }

  /** `guild.get_channel(server_config.get(k))` behind a truthiness test;
      only a stored integer can name a channel. */
  function StoredChannel(f: Fields, k: string, guild: GuildView): (r: Option<int>)
    ensures r.Some? <==> Lookup(f, k).JInt? && Lookup(f, k).i != 0 && guild.hasChannel(Lookup(f, k).i)
    ensures r.Some? ==> Lookup(f, k) == JInt(r.value)
  {
    match Lookup(f, k)
    case JInt(i) => if i != 0 && guild.hasChannel(i) then Some(i) else None
    case _ => None
  }

  // ---------------------------------------------------------------------
  // Opening a ticket (create_ticket)
  // ---------------------------------------------------------------------

  /** Discord's answer to `create_text_channel`. */
  datatype CreateAnswer = ChannelCreated | CreateForbidden | CreateFailed

  /** The channel that was opened: its name and category, the staff roles
      given access, and the roles pinged in it. */
  datatype Ticket = Ticket(name: string, category: Option<int>, staffAccess: seq<int>, mentioned: seq<int>)

  datatype OpenReply = AlreadyOpen | Opened(ticket: Ticket) | NoChannelPermission | OpenFailed

  /** The roles pinged when a ticket opens. */
  function Mentions(v: Variant, f: Fields, staff: seq<int>, guild: GuildView): (r: seq<int>)
    ensures v == MentionAll ==> r == staff
    ensures v == MentionOne ==> |r| <= 1
    ensures v == MentionOne ==> forall x :: x in r <==> Lookup(f, MentionKey) == JInt(x) && x != 0 && guild.hasRole(x)
  {
    match v
    case MentionAll => staff
    case MentionOne =>
      match Lookup(f, MentionKey)
      case JInt(i) => if i != 0 && guild.hasRole(i) then [i] else []
      case _ => []
  }

  /** `guild.get_channel(category_id)` runs only for a truthy stored
      category, and a list there raises `TypeError`: the lookup uses the
      value as a dict key, and a list cannot be one. */
  predicate CategoryRaises(f: Fields) {
    Lookup(f, CategoryKey).JIds? && |Lookup(f, CategoryKey).ids| > 0
  }

  /** The ticket button: refused when the member already has a channel of
      that name; otherwise a channel named after the member, in the
      configured category, open to every resolvable staff role. A stored
      category or staff list the lookup cannot use fails the whole
      request before any channel is created. */
  function OpenTicket(v: Variant, c: Config, g: GuildId, guild: GuildView, u: Member, answer: CreateAnswer): (r: OpenReply)
    ensures r == AlreadyOpen <==> TicketName(u) in guild.channelNames
    ensures r.Opened? <==>
              && TicketName(u) !in guild.channelNames && !CategoryRaises(FieldsOrEmpty(c, g))
              && IterIds(FieldsOrEmpty(c, g), StaffKey).Some? && answer == ChannelCreated
    ensures r == NoChannelPermission <==>
              && TicketName(u) !in guild.channelNames && !CategoryRaises(FieldsOrEmpty(c, g))
              && IterIds(FieldsOrEmpty(c, g), StaffKey).Some? && answer == CreateForbidden
    ensures TicketName(u) !in guild.channelNames && CategoryRaises(FieldsOrEmpty(c, g)) ==> r == OpenFailed
    ensures r.Opened? ==>
              && r.ticket.name == TicketName(u)
              && r.ticket.category == StoredChannel(FieldsOrEmpty(c, g), CategoryKey, guild)
              && (forall x :: x in r.ticket.staffAccess <==>
                    x in IterIds(FieldsOrEmpty(c, g), StaffKey).value && guild.hasRole(x))
              && r.ticket.mentioned == Mentions(v, FieldsOrEmpty(c, g), r.ticket.staffAccess, guild)
  {
    var name := TicketName(u);
    if name in guild.channelNames then AlreadyOpen
    else
      var f := FieldsOrEmpty(c, g);
      if CategoryRaises(f) then OpenFailed
      else
      match IterIds(f, StaffKey)
      case None => OpenFailed
      case Some(ids) =>
        var staff := Resolving(ids, guild.hasRole);
        match answer
        case ChannelCreated =>
          Opened(Ticket(name, StoredChannel(f, CategoryKey, guild), staff, Mentions(v, f, staff, guild)))
        case CreateForbidden => NoChannelPermission
        case CreateFailed => OpenFailed
  }

  /** Once a member's ticket exists, pressing the button again is refused
      in either variant. */
  lemma SecondOpenRefused(v: Variant, w: Variant, c: Config, g: GuildId, guild: GuildView, u: Member,
                          answer: CreateAnswer, again: CreateAnswer)
    requires OpenTicket(v, c, g, guild, u, answer).Opened?
    ensures var t := OpenTicket(v, c, g, guild, u, answer).ticket;
            OpenTicket(w, c, g, guild.(channelNames := guild.channelNames + {t.name}), u, again) == AlreadyOpen
  {
  }

  // ---------------------------------------------------------------------
  // Closing a ticket (close_ticket)
  // ---------------------------------------------------------------------

  /** `m` is the member a parsed handle names: lower-cased name and
      discriminator both agree. */
  predicate Names(h: Handle, m: Member) {
    Lower(m.name) == h.username && m.discriminator == h.discriminator
  }

  /** The first member whose lower-cased name and discriminator match the
      handle parsed from the channel name. */
  function FindCreator(members: seq<Member>, name: string): (r: Option<Member>)
    ensures r.Some? ==>
              && r.value in members && ParseHandle(name).Some?
              && Lower(r.value.name) == ParseHandle(name).value.username
              && r.value.discriminator == ParseHandle(name).value.discriminator
    ensures r.Some? ==>
              exists i :: 0 <= i < |members| && members[i] == r.value
                          && forall k :: 0 <= k < i ==> !Names(ParseHandle(name).value, members[k])
    ensures r.None? && ParseHandle(name).Some? ==>
              forall m :: m in members ==> !(Lower(m.name) == ParseHandle(name).value.username
                                            && m.discriminator == ParseHandle(name).value.discriminator)
    decreases |members|
  {
    match ParseHandle(name)
    case None => None
    case Some(h) =>
      if |members| == 0 then None
      else if Lower(members[0].name) == h.username && members[0].discriminator == h.discriminator then Some(members[0])
      else FindCreator(members[1..], name)
  }

  datatype CloseReply =
    | NotATicket
    | CloseRefused
    | CloseCrashed
    /** The ticket closes; `creator` is the member found from the name,
        `archive` the transcript channel that receives the transcript. */
    | Closing(creator: Option<Member>, archive: Option<int>)

  /** The close button (identical in both variants): only in `ticket-`
      channels; allowed for the creator, then for a staff member, then for
      anyone with `manage_channels`. The staff list is read only when the
      creator test fails; a list that cannot be iterated escapes as an
      exception. */
  function CloseTicket(c: Config, g: GuildId, guild: GuildView, members: seq<Member>, u: Member,
                       channel: string, manageChannels: bool): (r: CloseReply)
    ensures !StartsWith(channel, TicketPrefix) <==> r == NotATicket
    ensures r == CloseCrashed <==>
              StartsWith(channel, TicketPrefix) && !Contains(channel, CreatorTag(u))
              && IterIds(FieldsOrEmpty(c, g), StaffKey).None?
    ensures r.Closing? <==>
              StartsWith(channel, TicketPrefix)
              && (|| Contains(channel, CreatorTag(u))
                  || (IterIds(FieldsOrEmpty(c, g), StaffKey).Some?
                      && (HoldsListed(u.roles, IterIds(FieldsOrEmpty(c, g), StaffKey).value) || manageChannels)))
    ensures r.Closing? ==> r.creator == FindCreator(members, channel)
    ensures r.Closing? ==>
              r.archive == (if r.creator.Some? then StoredChannel(FieldsOrEmpty(c, g), TranscriptKey, guild) else None)
  {
    if !StartsWith(channel, TicketPrefix) then NotATicket
    else
      var f := FieldsOrEmpty(c, g);
      var allowed :=
        if Contains(channel, CreatorTag(u)) then Some(true)
        else
          match IterIds(f, StaffKey)
          case None => None
          case Some(ids) => Some(StaffListed(ids, u.roles) || manageChannels);
      match allowed
      case None => CloseCrashed
      case Some(false) => CloseRefused
      case Some(true) =>
        var creator := FindCreator(members, channel);
        Closing(creator, if creator.Some? then StoredChannel(f, TranscriptKey, guild) else None)
  }

  /** `for role_id in ids: if discord.utils.get(user.roles, id=role_id)`. */
  function StaffListed(ids: seq<int>, roles: seq<int>): (r: bool)
    ensures r <==> HoldsListed(roles, ids)
    decreases |ids|
  {
    if |ids| == 0 then
      assert !HoldsListed(roles, ids);
      false
    else if ids[0] in roles then
      var k :| 0 <= k < |roles| && roles[k] == ids[0];
      assert roles[k] in ids;
      true
    else
      var r := StaffListed(ids[1..], roles);
      assert HoldsListed(roles, ids) <==> HoldsListed(roles, ids[1..]) by {
        if HoldsListed(roles, ids) {
          var k :| 0 <= k < |roles| && roles[k] in ids;
          assert roles[k] != ids[0];
          assert roles[k] in ids[1..];
        }
      }
      r
  }

  /** The close button's check and `can_manage_tickets` agree whenever the
      staff list is a list or absent. */
  lemma CloseAgreesWithCanManage(c: Config, g: GuildId, guild: GuildView, members: seq<Member>, u: Member,
                                 channel: string, manageChannels: bool)
    requires StartsWith(channel, TicketPrefix)
    requires var f := FieldsOrEmpty(c, g); StaffKey !in f || f[StaffKey].JIds?
    ensures (CloseTicket(c, g, guild, members, u, channel, manageChannels).Closing?
             <==> CanManageTickets(u, channel, FieldsOrEmpty(c, g), manageChannels) == Some(true))
  {
  }

  /** The member who opened a ticket may always close it, and is found as
      its creator when the discriminator has no dash. */
  lemma CreatorClosesOwnTicket(v: Variant, c: Config, g: GuildId, guild: GuildView, u: Member, answer: CreateAnswer,
                               members: seq<Member>, manageChannels: bool)
    requires OpenTicket(v, c, g, guild, u, answer).Opened?
    requires u in members && Free(u.discriminator, '-')
    ensures var t := OpenTicket(v, c, g, guild, u, answer).ticket;
            var r := CloseTicket(c, g, guild, members, u, t.name, manageChannels);
            r.Closing? && r.creator.Some? && TicketName(r.creator.value) == t.name
  {
    var name := TicketName(u);
    TicketNameParses(u);
    var r := CloseTicket(c, g, guild, members, u, name, manageChannels);
    assert r.Closing?;
    var m := r.creator;
    assert Lower(m.value.name) == Lower(u.name) && m.value.discriminator == u.discriminator;
    assert TicketName(m.value) == "ticket" + CreatorTag(m.value);
  }

  /** The creator found by the close button is a member whose own ticket
      name is exactly the channel's name. */
  lemma FoundCreatorOwnsChannel(members: seq<Member>, channel: string)
    requires StartsWith(channel, TicketPrefix) && FindCreator(members, channel).Some?
    ensures TicketName(FindCreator(members, channel).value) == channel
  {
    var m := FindCreator(members, channel).value;
    ParseHandleSound(channel);
    assert TicketName(m) == TicketPrefix + Lower(m.name) + "-" + m.discriminator;
  }

  // ---------------------------------------------------------------------
  // Ticket settings
  // ---------------------------------------------------------------------

  datatype TicketReply = Saved | NoStaffRoles | NotStaff | NoTranscriptChannel | SaveFailed

  datatype TicketEdit = TicketEdit(config: Config, reply: TicketReply)

  /** The mention role, when set, is one of the listed staff roles. */
  predicate MentionListed(f: Fields) {
    MentionKey in f ==>
      && f[MentionKey].JInt?
      && StaffKey in f && f[StaffKey].JIds?
      && f[MentionKey].i in f[StaffKey].ids
  }

  /** `/set-staff-role`: lists the role once and makes it the mention
      role. A stored value that is not a list makes `in` raise. */
  function SetStaffRole(c: Config, g: GuildId, role: int): (r: TicketEdit)
    ensures var f := FieldsOrEmpty(c, g);
            r.reply == Saved <==> StaffKey !in f || f[StaffKey].JIds?
    ensures r.reply != Saved ==> r.config == c && r.reply == SaveFailed
    ensures r.reply == Saved ==>
              var f := FieldsOrEmpty(c, g);
              var before := if StaffKey in f then f[StaffKey].ids else [];
              && GuildFields(r.config, g).Some?
              && Lookup(GuildFields(r.config, g).value, StaffKey) == JIds(AddIfAbsent(before, role))
              && Lookup(GuildFields(r.config, g).value, MentionKey) == JInt(role)
              && MentionListed(GuildFields(r.config, g).value)
              && GuildFields(r.config, g).value.Keys == f.Keys + {StaffKey, MentionKey}
              && (forall k :: k != StaffKey && k != MentionKey && k in f ==> GuildFields(r.config, g).value[k] == f[k])
              && OthersUnchanged(c, r.config, g)
  {
    var f := FieldsOrEmpty(c, g);
    if StaffKey in f && !f[StaffKey].JIds? then TicketEdit(c, SaveFailed)
    else
      var before := if StaffKey in f then f[StaffKey].ids else [];
      var f' := f[StaffKey := JIds(AddIfAbsent(before, role))][MentionKey := JInt(role)];
      TicketEdit(PutGuild(c, g, f'), Saved)
  }

  /** Where the mention role goes when `role` leaves the list `rest`.
      Every setting other than the mention role is kept; a mention role
      other than `role` is kept too. When `role` was the mention role, the
      first role left in `rest` takes its place, and with none left the
      mention is dropped. */
  function ReassignMention(f: Fields, role: int, rest: seq<int>): (r: Fields)
    ensures forall k :: k != MentionKey ==> (k in r <==> k in f) && (k in r ==> r[k] == f[k])
    ensures !IsId(Lookup(f, MentionKey), role) ==> r == f
    ensures IsId(Lookup(f, MentionKey), role) ==>
              && (MentionKey in r <==> |rest| > 0)
              && (MentionKey in r ==> r[MentionKey].JInt? && r[MentionKey].i in rest && r[MentionKey].i == rest[0])
  {
    if !IsId(Lookup(f, MentionKey), role) then f
    else if |rest| > 0 then f[MentionKey := JInt(rest[0])]
    else f - {MentionKey}
  }

  /** An id other than the removed one stays in the list. */
  lemma RemoveFirstKeeps(l: seq<int>, x: int, y: int)
    requires x in l && y in l && y != x
    ensures y in RemoveFirst(l, x)
  {
    assert multiset(l)[y] > 0;
    assert multiset(RemoveFirst(l, x))[y] > 0;
  }

  /** `/remove-staff-role`: refused without a staff list or when the role
      is not listed; otherwise the role leaves the list and, if it was the
      mention role, the first remaining role takes over (or the mention is
      dropped). */
  function RemoveStaffRole(c: Config, g: GuildId, role: int): (r: TicketEdit)
    ensures r.reply != Saved ==> r.config == c
    ensures r.reply == NoStaffRoles <==> GuildFields(c, g).None? || StaffKey !in GuildFields(c, g).value
    ensures r.reply == SaveFailed <==>
              GuildFields(c, g).Some? && StaffKey in GuildFields(c, g).value && !GuildFields(c, g).value[StaffKey].JIds?
    ensures r.reply == NotStaff <==>
              GuildFields(c, g).Some? && StaffKey in GuildFields(c, g).value && GuildFields(c, g).value[StaffKey].JIds?
              && role !in GuildFields(c, g).value[StaffKey].ids
    ensures r.reply == Saved <==>
              GuildFields(c, g).Some? && StaffKey in GuildFields(c, g).value && GuildFields(c, g).value[StaffKey].JIds?
              && role in GuildFields(c, g).value[StaffKey].ids
    ensures r.reply == Saved ==>
              var f := GuildFields(c, g).value;
              var rest := RemoveFirst(f[StaffKey].ids, role);
              && GuildFields(r.config, g) == Some(ReassignMention(f[StaffKey := JIds(rest)], role, rest))
              && (MentionListed(f) ==> MentionListed(GuildFields(r.config, g).value))
              && OthersUnchanged(c, r.config, g)
  {
    match GuildFields(c, g)
    case None => TicketEdit(c, NoStaffRoles)
    case Some(f) =>
      if StaffKey !in f then TicketEdit(c, NoStaffRoles)
      else if !f[StaffKey].JIds? then TicketEdit(c, SaveFailed)
      else if role !in f[StaffKey].ids then TicketEdit(c, NotStaff)
      else
        var rest := RemoveFirst(f[StaffKey].ids, role);
        var f' := ReassignMention(f[StaffKey := JIds(rest)], role, rest);
        assert MentionListed(f) ==> MentionListed(f') by {
          if MentionListed(f) && MentionKey in f' {
            var m := f[MentionKey].i;
            if m != role {
              RemoveFirstKeeps(f[StaffKey].ids, role, m);
            }
          }
        }
        TicketEdit(PutGuild(c, g, f'), Saved)
  }

  /** Adding a new staff role and removing it again restores the list;
      the mention passes to the first role that was listed before, or
      disappears when there was none. */
  lemma SetThenRemoveStaff(c: Config, g: GuildId, role: int)
    requires var f := FieldsOrEmpty(c, g); StaffKey !in f || (f[StaffKey].JIds? && role !in f[StaffKey].ids)
    ensures var f := FieldsOrEmpty(c, g);
            var before := if StaffKey in f then f[StaffKey].ids else [];
            var r := RemoveStaffRole(SetStaffRole(c, g, role).config, g, role);
            && r.reply == Saved
            && Lookup(GuildFields(r.config, g).value, StaffKey) == JIds(before)
            && Lookup(GuildFields(r.config, g).value, MentionKey) == (if |before| > 0 then JInt(before[0]) else JNull)
            && (forall k :: k != StaffKey && k != MentionKey ==>
                  Lookup(GuildFields(r.config, g).value, k) == Lookup(f, k))
            && OthersUnchanged(c, r.config, g)
  {
    var f := FieldsOrEmpty(c, g);
    var before := if StaffKey in f then f[StaffKey].ids else [];
    var c1 := SetStaffRole(c, g, role).config;
    var f1 := f[StaffKey := JIds(before + [role])][MentionKey := JInt(role)];
    assert GuildFields(c1, g) == Some(f1);
    AddThenRemove(before, role);
    assert RemoveFirst(before + [role], role) == before;
    var r := RemoveStaffRole(c1, g, role);
    assert r.reply == Saved && GuildFields(r.config, g) == Some(ReassignMention(f1[StaffKey := JIds(before)], role, before));
    ReassignAfterSet(f, before, role);
    OthersUnchangedTrans(c, c1, r.config, g);
  }

  /** The entry `SetThenRemoveStaff` arrives at, as a map computation. */
  lemma ReassignAfterSet(f: Fields, before: seq<int>, role: int)
    ensures var f1 := f[StaffKey := JIds(before + [role])][MentionKey := JInt(role)];
            var f2 := ReassignMention(f1[StaffKey := JIds(before)], role, before);
            && Lookup(f2, StaffKey) == JIds(before)
            && Lookup(f2, MentionKey) == (if |before| > 0 then JInt(before[0]) else JNull)
            && forall k :: k != StaffKey && k != MentionKey ==> Lookup(f2, k) == Lookup(f, k)
  {
    var f1 := f[StaffKey := JIds(before + [role])][MentionKey := JInt(role)];
    assert IsId(Lookup(f1[StaffKey := JIds(before)], MentionKey), role);
  }

  /** Adding a staff role makes its holders staff for the close button and
      makes it the role pinged by the single-mention variant; a stored
      category list still makes the button fail. */
  lemma SetStaffRoleGrants(c: Config, g: GuildId, role: int, guild: GuildView, u: Member, answer: CreateAnswer)
    requires SetStaffRole(c, g, role).reply == Saved
    requires role in u.roles && role != 0 && guild.hasRole(role)
    requires TicketName(u) !in guild.channelNames && answer == ChannelCreated
    ensures var c' := SetStaffRole(c, g, role).config;
            && HoldsListed(u.roles, IterIds(FieldsOrEmpty(c', g), StaffKey).value)
            && if CategoryRaises(FieldsOrEmpty(c, g)) then OpenTicket(MentionOne, c', g, guild, u, answer) == OpenFailed
               else OpenTicket(MentionOne, c', g, guild, u, answer).Opened?
                    && OpenTicket(MentionOne, c', g, guild, u, answer).ticket.mentioned == [role]
  {
    var c' := SetStaffRole(c, g, role).config;
    var ids := IterIds(FieldsOrEmpty(c', g), StaffKey).value;
    var k :| 0 <= k < |u.roles| && u.roles[k] == role;
    assert u.roles[k] in ids;
  }

  /** `/set-transcript-channel`. */
  function SetTranscriptChannel(c: Config, g: GuildId, channel: int): (r: TicketEdit)
    ensures r.reply == Saved
    ensures GuildFields(r.config, g) == Some(FieldsOrEmpty(c, g)[TranscriptKey := JInt(channel)])
    ensures OthersUnchanged(c, r.config, g)
  {
    TicketEdit(SetGuildKey(c, g, TranscriptKey, JInt(channel)), Saved)
  }

  /** `/remove-transcript-channel`: refused when no transcript channel is
      stored; otherwise deletes that key only. */
  function RemoveTranscriptChannel(c: Config, g: GuildId): (r: TicketEdit)
    ensures r.reply == NoTranscriptChannel <==> GuildFields(c, g).None? || TranscriptKey !in GuildFields(c, g).value
    ensures r.reply != NoTranscriptChannel ==> r.reply == Saved
    ensures r.reply != Saved ==> r.config == c
    ensures r.reply == Saved ==>
              && GuildFields(r.config, g) == Some(GuildFields(c, g).value - {TranscriptKey})
              && OthersUnchanged(c, r.config, g)
  {
    match GuildFields(c, g)
    case None => TicketEdit(c, NoTranscriptChannel)
    case Some(f) =>
      if TranscriptKey !in f then TicketEdit(c, NoTranscriptChannel)
      else TicketEdit(DeleteGuildKey(c, g, TranscriptKey), Saved)
  }

  /** Setting and then removing the transcript channel leaves the guild's
      entry as it was, apart from an earlier transcript channel. */
  lemma SetThenRemoveTranscript(c: Config, g: GuildId, channel: int)
    ensures var r := RemoveTranscriptChannel(SetTranscriptChannel(c, g, channel).config, g);
            r.reply == Saved && GuildFields(r.config, g) == Some(FieldsOrEmpty(c, g) - {TranscriptKey})
  {
    SetThenDeleteKey(c, g, TranscriptKey, JInt(channel));
  }

  /** Closing a ticket sends its transcript to the channel last set, when
      it resolves, and nowhere once it is removed. */
  lemma TranscriptFollowsSetting(c: Config, g: GuildId, channel: int, guild: GuildView, members: seq<Member>,
                                 u: Member, name: string, manageChannels: bool)
    requires channel != 0 && guild.hasChannel(channel)
    ensures var c1 := SetTranscriptChannel(c, g, channel).config;
            var r := CloseTicket(c1, g, guild, members, u, name, manageChannels);
            r.Closing? && r.creator.Some? ==> r.archive == Some(channel)
    ensures var c2 := RemoveTranscriptChannel(SetTranscriptChannel(c, g, channel).config, g).config;
            var r := CloseTicket(c2, g, guild, members, u, name, manageChannels);
            r.Closing? ==> r.archive.None?
  {
    SetThenRemoveTranscript(c, g, channel);
  }

  /** `/set-ticket-category` (both variants). */
  function SetTicketCategory(c: Config, g: GuildId, category: int): (r: TicketEdit)
    ensures r.reply == Saved
    ensures GuildFields(r.config, g) == Some(FieldsOrEmpty(c, g)[CategoryKey := JInt(category)])
    ensures OthersUnchanged(c, r.config, g)
  {
    TicketEdit(SetGuildKey(c, g, CategoryKey, JInt(category)), Saved)
  }

  /** Tickets opened after the category is set land in that category when
      it resolves. */
  lemma CategoryUsedOnOpen(v: Variant, c: Config, g: GuildId, category: int, guild: GuildView, u: Member,
                           answer: CreateAnswer)
    requires category != 0 && guild.hasChannel(category)
    ensures var c' := SetTicketCategory(c, g, category).config;
            var r := OpenTicket(v, c', g, guild, u, answer);
            r.Opened? ==> r.ticket.category == Some(category)
  {
  }
}
