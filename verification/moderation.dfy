/**
  The moderation cog's decisions: who may moderate, the guard chains of
  `/banear` and `/timeout`, the bounds of `/limpiar`, the moderation-role
  list in `config.json`, and the counters of the mass role assignment.
*/
module Moderation {
  import opened Wrappers
  import opened Config
  import opened Members

  const ModRolesKey: string := "moderation_role_ids"

  // ---------------------------------------------------------------------
  // has_moderation_permission
  // ---------------------------------------------------------------------

  /** Guild permissions that allow moderation by themselves. */
  predicate HasModFlag(u: Member) {
    || "administrator" in u.perms
    || "ban_members" in u.perms
    || "manage_messages" in u.perms
    || "moderate_members" in u.perms
  }

  /** The stored moderation-role ids (empty when none are configured or
      the stored value is not a list). */
  function ConfiguredModRoles(c: Config, g: GuildId): seq<int> {
    var f := FieldsOrEmpty(c, g);
    if ModRolesKey in f && f[ModRolesKey].JIds? then f[ModRolesKey].ids else []
  }

  /** The stored value is one Python cannot iterate over. */
  predicate ModRolesUnreadable(c: Config, g: GuildId) {
    var f := FieldsOrEmpty(c, g);
    ModRolesKey in f && !f[ModRolesKey].JIds? && !f[ModRolesKey].JStr?
  }

  /** The loop `for role_id in ids: if role held: return True`. */
  function AnyHeld(ids: seq<int>, roles: seq<int>): (r: bool)
    ensures r <==> exists k :: 0 <= k < |ids| && ids[k] in roles
    decreases |ids|
  {
    if |ids| == 0 then false
    else if ids[0] in roles then true
    else AnyHeld(ids[1..], roles)
  }

  /** `has_moderation_permission`; `None` is the exception raised when
      the stored role list is not iterable (a string iterates over
      characters, which never equal a role id). */
  function HasModerationPermission(u: Member, c: Config, g: GuildId): (r: Option<bool>)
    ensures r == Some(true) <==>
              HasModFlag(u) || exists k :: 0 <= k < |ConfiguredModRoles(c, g)| && ConfiguredModRoles(c, g)[k] in u.roles
    ensures r.None? <==> !HasModFlag(u) && ModRolesUnreadable(c, g)
  {
    if "administrator" in u.perms then Some(true)
    else if "ban_members" in u.perms || "manage_messages" in u.perms || "moderate_members" in u.perms then Some(true)
    else
      match GuildFields(c, g)
      case None => Some(false)
      case Some(f) =>
        if ModRolesKey !in f then Some(false)
        else
          match f[ModRolesKey]
          case JIds(ids) =>
            assert ConfiguredModRoles(c, g) == ids;
            Some(AnyHeld(ids, u.roles))
          case JStr(_) => Some(false)
          case _ => None
  }

  // ---------------------------------------------------------------------
  // Guard chains
  // ---------------------------------------------------------------------

  datatype Denial =
    | NoModPermission | TargetIsSelf | TargetIsOwner | TargetOutranksInvoker | TargetOutranksBot
    | BadAmount | BotCannotManageMessages | BadDuration

  /** A command's decision: refused with a reason, carried out with a
      value, or ended in the handler's generic error reply. */
  datatype Check<T> = Deny(why: Denial) | Pass(value: T) | Crash

  /** The checks `/banear` and `/timeout` share, in their order:
      permission, not oneself, not the owner, target ranked below the
      invoker (unless the invoker owns the guild), target ranked below the
      bot. */
  function TargetGuard(c: Config, g: GuildId, invoker: Member, target: Member, ownerId: int, botTop: Role): (r: Check<()>)
    ensures r.Crash? <==> HasModerationPermission(invoker, c, g).None?
    ensures r == Deny(NoModPermission) <==> HasModerationPermission(invoker, c, g) == Some(false)
    ensures r == Deny(TargetIsSelf) <==> HasModerationPermission(invoker, c, g) == Some(true) && target.id == invoker.id
    ensures r == Deny(TargetIsOwner) <==>
              HasModerationPermission(invoker, c, g) == Some(true) && target.id != invoker.id && target.id == ownerId
    ensures r == Deny(TargetOutranksInvoker) <==>
              && HasModerationPermission(invoker, c, g) == Some(true) && target.id != invoker.id && target.id != ownerId
              && AtLeast(target.topRole, invoker.topRole) && invoker.id != ownerId
    ensures r == Deny(TargetOutranksBot) <==>
              && HasModerationPermission(invoker, c, g) == Some(true) && target.id != invoker.id && target.id != ownerId
              && (Below(target.topRole, invoker.topRole) || invoker.id == ownerId)
              && AtLeast(target.topRole, botTop)
    ensures r.Pass? <==>
              && HasModerationPermission(invoker, c, g) == Some(true) && target.id != invoker.id && target.id != ownerId
              && (Below(target.topRole, invoker.topRole) || invoker.id == ownerId)
              && Below(target.topRole, botTop)
  {
    match HasModerationPermission(invoker, c, g)
    case None => Crash
    case Some(false) => Deny(NoModPermission)
    case Some(true) =>
      if target.id == invoker.id then Deny(TargetIsSelf)
      else if target.id == ownerId then Deny(TargetIsOwner)
      else if AtLeast(target.topRole, invoker.topRole) && invoker.id != ownerId then Deny(TargetOutranksInvoker)
      else if AtLeast(target.topRole, botTop) then Deny(TargetOutranksBot)
      else Pass(())
  }

  /** The message-deletion days of a ban: out-of-range requests fall back
      to one day. */
  function DeleteDays(requested: int): (d: int)
    ensures 0 <= d <= 7
    ensures 0 <= requested <= 7 ==> d == requested
    ensures !(0 <= requested <= 7) ==> d == 1
  {
    if requested < 0 || requested > 7 then 1 else requested
  }

  /** `/banear`: the days of messages the ban deletes, once every guard
      passes. */
  function BanDecision(c: Config, g: GuildId, invoker: Member, target: Member, ownerId: int, botTop: Role,
                       requestedDays: int): (r: Check<int>)
    ensures r.Pass? <==> TargetGuard(c, g, invoker, target, ownerId, botTop).Pass?
    ensures r.Pass? ==> 0 <= r.value <= 7
    ensures !r.Pass? ==> r == (match TargetGuard(c, g, invoker, target, ownerId, botTop)
                               case Deny(w) => Deny(w) case _ => Crash)
  {
    match TargetGuard(c, g, invoker, target, ownerId, botTop)
    case Deny(w) => Deny(w)
    case Crash => Crash
    case Pass(_) => Pass(DeleteDays(requestedDays))
  }

  const MaxTimeoutMinutes: int := 40320

  /** `/timeout`: the duration in minutes, accepted only within 1 to
      40320 (28 days) and only after every guard passes. */
  function TimeoutDecision(c: Config, g: GuildId, invoker: Member, target: Member, ownerId: int, botTop: Role,
                           minutes: int): (r: Check<int>)
    ensures r.Pass? <==> TargetGuard(c, g, invoker, target, ownerId, botTop).Pass? && 1 <= minutes <= MaxTimeoutMinutes
    ensures r.Pass? ==> r.value == minutes
    ensures r == Deny(BadDuration) <==>
              TargetGuard(c, g, invoker, target, ownerId, botTop).Pass? && !(1 <= minutes <= MaxTimeoutMinutes)
  {
    match TargetGuard(c, g, invoker, target, ownerId, botTop)
    case Deny(w) => Deny(w)
    case Crash => Crash
    case Pass(_) =>
      if minutes < 1 || minutes > MaxTimeoutMinutes then Deny(BadDuration) else Pass(minutes)
  }

  /** The guard order: an invoker entitled to moderate who targets
      themself is told so, whatever the roles involved. */
  lemma SelfCheckedBeforeRanks(c: Config, g: GuildId, u: Member, ownerId: int, botTop: Role, minutes: int, days: int)
    requires HasModerationPermission(u, c, g) == Some(true)
    ensures BanDecision(c, g, u, u, ownerId, botTop, days) == Deny(TargetIsSelf)
    ensures TimeoutDecision(c, g, u, u, ownerId, botTop, minutes) == Deny(TargetIsSelf)
  {
  }

  // ---------------------------------------------------------------------
  // /limpiar
  // ---------------------------------------------------------------------

  /** The messages of a channel, newest first, by author id; a message is
      named by its position (0 is the newest). */
  type History = seq<int>

  function Min(a: nat, b: nat): nat {
    if a < b then a else b
  }

  /** The message at position `i` passes `check`: there is no author
      filter, or it is by that author. */
  predicate Accepts(h: History, i: nat, author: Option<int>)
    requires i < |h|
  {
    author.None? || h[i] == author.value
  }

  /** The messages from position `from` up to `stop` that the check
      accepts, newest first. */
  function PurgeFrom(h: History, from: nat, stop: nat, author: Option<int>): (deleted: seq<nat>)
    requires from <= stop <= |h|
    ensures |deleted| <= stop - from
    ensures forall k :: 0 <= k < |deleted| ==> from <= deleted[k] < stop && Accepts(h, deleted[k], author)
    ensures forall i :: from <= i < stop && Accepts(h, i, author) ==> i in deleted
    ensures forall a, b :: 0 <= a < b < |deleted| ==> deleted[a] < deleted[b]
    ensures author.None? ==> |deleted| == stop - from
    decreases stop - from
  {
    if from == stop then []
    else
      var rest := PurgeFrom(h, from + 1, stop, author);
      if Accepts(h, from, author) then
        assert forall k :: 0 < k < |rest| + 1 ==> ([from] + rest)[k] == rest[k - 1];
        [from] + rest
      else rest
  }

  /** `channel.purge(limit, check)`: inspects the `limit` newest messages
      and deletes every one the check accepts. The result lists the
      positions deleted, newest first. */
  function Purge(h: History, limit: nat, author: Option<int>): (deleted: seq<nat>)
    ensures |deleted| <= limit && |deleted| <= |h|
    ensures forall k :: 0 <= k < |deleted| ==> deleted[k] < Min(limit, |h|) && Accepts(h, deleted[k], author)
    ensures forall i :: 0 <= i < Min(limit, |h|) && Accepts(h, i, author) ==> i in deleted
    ensures forall a, b :: 0 <= a < b < |deleted| ==> deleted[a] < deleted[b]
    ensures author.None? ==> |deleted| == Min(limit, |h|)
  {
    PurgeFrom(h, 0, Min(limit, |h|), author)
  }

  /** What `/limpiar` did: the positions deleted, and the count it
      reports. */
  datatype Cleared = Cleared(deleted: seq<nat>, reported: nat)

  /** `clear_messages` as written: with an author filter it inspects
      `2 * n` messages and deletes every match, then reports at most `n`. */
  function ClearMessages(c: Config, g: GuildId, invoker: Member, n: int, botCanManage: bool,
                         author: Option<int>, h: History): (r: Check<Cleared>)
    ensures r == Crash <==> HasModerationPermission(invoker, c, g).None?
    ensures r == Deny(NoModPermission) <==> HasModerationPermission(invoker, c, g) == Some(false)
    ensures r.Pass? <==> HasModerationPermission(invoker, c, g) == Some(true) && 1 <= n <= 100 && botCanManage
    ensures r == Deny(BadAmount) <==> HasModerationPermission(invoker, c, g) == Some(true) && !(1 <= n <= 100)
    ensures r == Deny(BotCannotManageMessages) <==>
              HasModerationPermission(invoker, c, g) == Some(true) && 1 <= n <= 100 && !botCanManage
    ensures r.Pass? ==> r.value.deleted == Purge(h, if author.Some? then 2 * n else n, author)
    ensures r.Pass? ==> r.value.reported == Min(|r.value.deleted|, n)
    ensures r.Pass? && author.None? ==> |r.value.deleted| == r.value.reported == Min(n, |h|)
  {
    match HasModerationPermission(invoker, c, g)
    case None => Crash
    case Some(false) => Deny(NoModPermission)
    case Some(true) =>
      if n < 1 || n > 100 then Deny(BadAmount)
      else if !botCanManage then Deny(BotCannotManageMessages)
      else if author.Some? then
        var deleted := Purge(h, n * 2, author);
        Pass(Cleared(deleted, if |deleted| < n then |deleted| else n))
      else
        var deleted := Purge(h, n, author);
        Pass(Cleared(deleted, |deleted|))
  }

  /** With an author filter, `/limpiar 1` deletes both of the author's two
      latest messages while reporting one. */
  lemma FilteredClearDeletesMoreThanAsked(c: Config, g: GuildId, invoker: Member)
    requires "administrator" in invoker.perms
    ensures ClearMessages(c, g, invoker, 1, true, Some(7), [7, 7]) == Pass(Cleared([0, 1], 1))
  {
    assert Accepts([7, 7], 0, Some(7)) && Accepts([7, 7], 1, Some(7));
    assert PurgeFrom([7, 7], 2, 2, Some(7)) == [];
    assert PurgeFrom([7, 7], 1, 2, Some(7)) == [1];
    assert Purge([7, 7], 2, Some(7)) == PurgeFrom([7, 7], 0, 2, Some(7)) == [0, 1];
  }

  /** A purge that stops after `n` deletions: scans positions `from` up to
      `stop`, newest first, deleting accepted messages until `n` are
      gone. */
  function PurgeAtMost(h: History, from: nat, stop: nat, author: Option<int>, n: nat): (deleted: seq<nat>)
    requires from <= stop <= |h|
    ensures deleted == PurgeFrom(h, from, stop, author)[..Min(n, |PurgeFrom(h, from, stop, author)|)]
    ensures |deleted| <= n
    ensures forall k :: 0 <= k < |deleted| ==> from <= deleted[k] < stop && Accepts(h, deleted[k], author)
    decreases stop - from
  {
    if from == stop || n == 0 then []
    else if Accepts(h, from, author) then
      var rest := PurgeAtMost(h, from + 1, stop, author, n - 1);
      assert PurgeFrom(h, from, stop, author) == [from] + PurgeFrom(h, from + 1, stop, author);
      [from] + rest
    else
      assert PurgeFrom(h, from, stop, author) == PurgeFrom(h, from + 1, stop, author);
      PurgeAtMost(h, from + 1, stop, author, n)
  }

  /** `clear_messages` as intended: with an author filter it inspects
      `2 * n` messages but deletes only the `n` newest matches among
      them, and reports what it deleted. */
  function ClearMessagesBounded(c: Config, g: GuildId, invoker: Member, n: int, botCanManage: bool,
                                author: Option<int>, h: History): (r: Check<Cleared>)
    ensures r.Pass? <==> HasModerationPermission(invoker, c, g) == Some(true) && 1 <= n <= 100 && botCanManage
    ensures !r.Pass? ==> r == ClearMessages(c, g, invoker, n, botCanManage, author, h)
    ensures r.Pass? ==> |r.value.deleted| == r.value.reported <= n
    ensures r.Pass? ==> forall k :: 0 <= k < |r.value.deleted| ==> r.value.deleted[k] < |h| && Accepts(h, r.value.deleted[k], author)
    ensures r.Pass? ==>
              var asWritten := ClearMessages(c, g, invoker, n, botCanManage, author, h).value;
              && r.value.reported == asWritten.reported
              && r.value.deleted == asWritten.deleted[..r.value.reported]
  {
    match HasModerationPermission(invoker, c, g)
    case None => Crash
    case Some(false) => Deny(NoModPermission)
    case Some(true) =>
      if n < 1 || n > 100 then Deny(BadAmount)
      else if !botCanManage then Deny(BotCannotManageMessages)
      else
        var deleted := PurgeAtMost(h, 0, Min(if author.Some? then 2 * n else n, |h|), author, n);
        Pass(Cleared(deleted, |deleted|))
  }

  /** Keeping the first `m` of an ascending list of positions: a listed
      position left out is past all `m` kept ones. */
  lemma PrefixKeepsNewest(all: seq<nat>, m: nat, i: nat)
    requires forall a, b :: 0 <= a < b < |all| ==> all[a] < all[b]
    requires i in all && i !in all[..Min(m, |all|)]
    ensures |all[..Min(m, |all|)]| == m
    ensures forall k :: 0 <= k < m ==> all[k] < i
  {
    var j :| 0 <= j < |all| && all[j] == i;
    assert j >= Min(m, |all|);
  }

  /** The corrected clear deletes exactly the newest matches: any inspected
      match it keeps is older than every message it deleted, and it keeps
      one only once `n` are deleted. */
  lemma BoundedClearDeletesNewest(c: Config, g: GuildId, invoker: Member, n: int, botCanManage: bool,
                                  author: Option<int>, h: History)
    requires ClearMessagesBounded(c, g, invoker, n, botCanManage, author, h).Pass?
    ensures var d := ClearMessagesBounded(c, g, invoker, n, botCanManage, author, h).value.deleted;
            forall i: nat :: i < Min(if author.Some? then 2 * n else n, |h|) && Accepts(h, i, author) && i !in d ==>
              |d| == n && forall k :: 0 <= k < |d| ==> d[k] < i
  {
    var d := ClearMessagesBounded(c, g, invoker, n, botCanManage, author, h).value.deleted;
    var limit: nat := if author.Some? then 2 * n else n;
    var all := Purge(h, limit, author);
    assert d == all[..Min(n, |all|)] && n >= 1;
    forall i: nat | i < Min(limit, |h|) && Accepts(h, i, author) && i !in d
      ensures |d| == n && forall k :: 0 <= k < |d| ==> d[k] < i
    {
      PrefixKeepsNewest(all, n, i);
    }
  }

  // ---------------------------------------------------------------------
  // Moderation-role list
  // ---------------------------------------------------------------------

  datatype RoleReply = RoleAdded | RoleAlreadyThere | RoleRemoved | RoleNotThere | NoRolesConfigured | RoleEditFailed

  /** The persisted document after the command, and its reply. */
  datatype RoleEdit = RoleEdit(config: Config, reply: RoleReply)

  /** Stores `ids` as guild `g`'s moderation-role list. */
  function PutModRoles(c: Config, g: GuildId, ids: seq<int>): (r: Config)
    ensures ConfiguredModRoles(r, g) == ids
    ensures GuildFields(r, g).Some? && ModRolesKey in GuildFields(r, g).value
    ensures forall k :: k != ModRolesKey ==> Lookup(GuildFields(r, g).value, k) == Lookup(FieldsOrEmpty(c, g), k)
    ensures OthersUnchanged(c, r, g)
  {
    SetGuildKey(c, g, ModRolesKey, JIds(ids))
  }

  /** Writing the list a guild already stores, over any other list
      written meanwhile, restores the document. */
  lemma PutModRolesRestores(c: Config, g: GuildId, other: seq<int>)
    requires GuildFields(c, g).Some? && ModRolesKey in GuildFields(c, g).value
    requires GuildFields(c, g).value[ModRolesKey].JIds?
    ensures PutModRoles(PutModRoles(c, g, other), g, ConfiguredModRoles(c, g)) == c
  {
    var f := GuildFields(c, g).value;
    var ids := f[ModRolesKey].ids;
    assert ConfiguredModRoles(c, g) == ids;
    var c1 := PutModRoles(c, g, other);
    var f1 := f[ModRolesKey := JIds(other)];
    assert c1 == Config(c.top, Some(c.servers.value[Key(g) := f1]));
    assert f1[ModRolesKey := JIds(ids)] == f;
    var sv := c.servers.value;
    assert PutModRoles(c1, g, ids) == Config(c.top, Some(sv[Key(g) := f1][Key(g) := f]));
    assert sv[Key(g) := f1][Key(g) := f] == sv;
  }

  /** `/set-moderator-role`: adds the role id unless present, creating the
      maps and the list; the document is written only when the id is
      added. */
  function SetModeratorRole(c: Config, g: GuildId, role: int): (r: RoleEdit)
    ensures var f := FieldsOrEmpty(c, g);
            ModRolesKey in f && !f[ModRolesKey].JIds? ==> r == RoleEdit(c, RoleEditFailed)
    ensures r.reply != RoleEditFailed ==> role in ConfiguredModRoles(r.config, g)
    ensures r.reply == RoleAlreadyThere <==> role in ConfiguredModRoles(c, g)
    ensures r.reply == RoleAlreadyThere ==> r.config == c
    ensures var f := FieldsOrEmpty(c, g);
            (ModRolesKey !in f || f[ModRolesKey].JIds?) && role !in ConfiguredModRoles(c, g) ==> r.reply == RoleAdded
    ensures r.reply == RoleAdded ==>
              && ConfiguredModRoles(r.config, g) == ConfiguredModRoles(c, g) + [role]
              && GuildFields(r.config, g).Some?
              && (forall k :: k != ModRolesKey ==> Lookup(GuildFields(r.config, g).value, k) == Lookup(FieldsOrEmpty(c, g), k))
              && OthersUnchanged(c, r.config, g)
  {
    var f := FieldsOrEmpty(c, g);
    var stored := if ModRolesKey in f then f[ModRolesKey] else JIds([]);
    match stored
    case JIds(ids) =>
      if role in ids then RoleEdit(c, RoleAlreadyThere)
      else RoleEdit(PutModRoles(c, g, AddIfAbsent(ids, role)), RoleAdded)
    case _ => RoleEdit(c, RoleEditFailed)
  }

  /** `/remove-moderator-role`: removes the first occurrence of the id. */
  function RemoveModeratorRole(c: Config, g: GuildId, role: int): (r: RoleEdit)
    ensures GuildFields(c, g).None? || ModRolesKey !in GuildFields(c, g).value ==> r == RoleEdit(c, NoRolesConfigured)
    ensures r.reply != RoleRemoved ==> r.config == c
    ensures r.reply == RoleRemoved <==> role in ConfiguredModRoles(c, g) && ModRolesKey in FieldsOrEmpty(c, g)
    ensures r.reply == RoleNotThere <==>
              var f := FieldsOrEmpty(c, g);
              ModRolesKey in f && f[ModRolesKey].JIds? && role !in f[ModRolesKey].ids
    ensures r.reply == RoleEditFailed <==>
              var f := FieldsOrEmpty(c, g);
              ModRolesKey in f && !f[ModRolesKey].JIds?
    ensures r.reply == RoleRemoved ==>
              && GuildFields(r.config, g).Some?
              && ConfiguredModRoles(r.config, g) == RemoveFirst(ConfiguredModRoles(c, g), role)
              && multiset(ConfiguredModRoles(r.config, g)) == multiset(ConfiguredModRoles(c, g)) - multiset{role}
              && (forall k :: k != ModRolesKey ==> Lookup(GuildFields(r.config, g).value, k) == Lookup(FieldsOrEmpty(c, g), k))
              && OthersUnchanged(c, r.config, g)
  {
    match GuildFields(c, g)
    case None => RoleEdit(c, NoRolesConfigured)
    case Some(f) =>
      if ModRolesKey !in f then RoleEdit(c, NoRolesConfigured)
      else
        match f[ModRolesKey]
        case JIds(ids) =>
          assert ConfiguredModRoles(c, g) == ids;
          if role in ids then RoleEdit(PutModRoles(c, g, RemoveFirst(ids, role)), RoleRemoved)
          else RoleEdit(c, RoleNotThere)
        case _ => RoleEdit(c, RoleEditFailed)
  }

  /** A member holding a role just configured may moderate. */
  lemma SetGrantsPermission(c: Config, g: GuildId, role: int, u: Member)
    requires role in u.roles
    requires SetModeratorRole(c, g, role).reply != RoleEditFailed
    ensures HasModerationPermission(u, SetModeratorRole(c, g, role).config, g) == Some(true)
  {
    var ids := ConfiguredModRoles(SetModeratorRole(c, g, role).config, g);
    var k :| 0 <= k < |ids| && ids[k] == role;
  }

  /** Adding a new moderation role and removing it again restores the
      document. */
  lemma SetThenRemoveRestores(c: Config, g: GuildId, role: int)
    requires GuildFields(c, g).Some? && ModRolesKey in GuildFields(c, g).value
    requires GuildFields(c, g).value[ModRolesKey].JIds?
    requires role !in GuildFields(c, g).value[ModRolesKey].ids
    ensures RemoveModeratorRole(SetModeratorRole(c, g, role).config, g, role).config == c
  {
    var ids := ConfiguredModRoles(c, g);
    var c1 := SetModeratorRole(c, g, role).config;
    assert c1 == PutModRoles(c, g, ids + [role]);
    RemoveAfterPut(c, g, ids, role);
    PutModRolesRestores(c, g, ids + [role]);
  }

  /** Removing the role just appended to a written list writes the list
      without it. */
  lemma RemoveAfterPut(c: Config, g: GuildId, ids: seq<int>, role: int)
    requires role !in ids
    ensures var c1 := PutModRoles(c, g, ids + [role]);
            RemoveModeratorRole(c1, g, role).config == PutModRoles(c1, g, ids)
  {
    var c1 := PutModRoles(c, g, ids + [role]);
    AddThenRemove(ids, role);
    var f := GuildFields(c1, g).value;
    assert f[ModRolesKey] == JIds(ids + [role]);
    assert RemoveFirst(ids + [role], role) == ids;
  }

  /** Once removed from a list without duplicates, a role no longer grants
      moderation to a member lacking every other configured role and
      every moderation flag. */
  lemma RemoveRevokes(c: Config, g: GuildId, role: int, u: Member)
    requires NoDuplicates(ConfiguredModRoles(c, g))
    requires RemoveModeratorRole(c, g, role).reply == RoleRemoved
    requires !HasModFlag(u)
    requires forall k :: 0 <= k < |ConfiguredModRoles(c, g)| && ConfiguredModRoles(c, g)[k] != role ==>
               ConfiguredModRoles(c, g)[k] !in u.roles
    ensures HasModerationPermission(u, RemoveModeratorRole(c, g, role).config, g) == Some(false)
  {
    var ids := ConfiguredModRoles(c, g);
    RemoveFirstNoDuplicates(ids, role);
    var after := ConfiguredModRoles(RemoveModeratorRole(c, g, role).config, g);
    assert after == RemoveFirst(ids, role);
    forall k | 0 <= k < |after| ensures after[k] !in u.roles {
      assert after[k] in after;
      var k' :| 0 <= k' < |ids| && ids[k'] == after[k];
    }
  }

  // ---------------------------------------------------------------------
  // /asignar_rol_todos
  // ---------------------------------------------------------------------

  datatype AssignDenial = NotAdmin | BotCannotManageRoles | RoleNotBelowBot | RoleNotBelowInvoker | EveryoneRole

  /** The final summary's headline. */
  datatype AssignVerdict = AllAssigned | PartlyAssigned | NoneAssigned

  /** Counters of the loop: members still lacking the role, successes,
      failures, and the progress values shown (1-based positions). */
  datatype AssignReport = AssignReport(toAssign: nat, successful: nat, failed: nat,
                                       progress: seq<nat>, verdict: AssignVerdict)

  datatype AssignOutcome = Refused(why: AssignDenial) | AlreadyEveryone | Assigned(report: AssignReport)

  /** The members the loop visits: those without the role. */
  function Lacking(members: seq<Member>, role: int): (r: seq<Member>)
    ensures |r| <= |members|
    ensures forall k :: 0 <= k < |r| ==> role !in r[k].roles && r[k] in members
    ensures forall m :: m in members && role !in m.roles ==> m in r
  {
    if |members| == 0 then []
    else (if role !in members[0].roles then [members[0]] else []) + Lacking(members[1..], role)
  }

  /** How many times `m` appears in `ms`. */
  function Occurrences(ms: seq<Member>, m: Member): nat
    decreases |ms|
  {
    if |ms| == 0 then 0 else (if ms[0] == m then 1 else 0) + Occurrences(ms[1..], m)
  }

  /** Every member without the role is kept as often as the list holds
      them, and no one else is. */
  lemma {:induction false} LackingCount(members: seq<Member>, role: int, m: Member)
    ensures Occurrences(Lacking(members, role), m) == (if role in m.roles then 0 else Occurrences(members, m))
    decreases |members|
  {
    if |members| > 0 {
      var rest := members[1..];
      LackingCount(rest, role, m);
      var l := Lacking(members, role);
      if role in members[0].roles {
        assert l == Lacking(rest, role);
      } else {
        assert l == [members[0]] + Lacking(rest, role);
        assert l[0] == members[0] && l[1..] == Lacking(rest, role);
      }
    }
  }

  /** Filtering keeps the order of the guild's member list: the members
      of a concatenation are filtered piece by piece. */
  lemma {:induction false} LackingConcat(a: seq<Member>, b: seq<Member>, role: int)
    ensures Lacking(a + b, role) == Lacking(a, role) + Lacking(b, role)
    decreases |a|
  {
    if |a| > 0 {
      var head := if role !in a[0].roles then [a[0]] else [];
      assert (a + b)[0] == a[0] && (a + b)[1..] == a[1..] + b;
      assert Lacking(a + b, role) == head + Lacking(a[1..] + b, role);
      LackingConcat(a[1..], b, role);
      assert Lacking(a, role) == head + Lacking(a[1..], role);
    } else {
      assert a + b == b;
    }
  }

  /** How many of `ms` the role could be added to. */
  function Successes(ms: seq<Member>, addOk: int -> bool): (n: nat)
    ensures n <= |ms|
  {
    if |ms| == 0 then 0 else (if addOk(ms[0].id) then 1 else 0) + Successes(ms[1..], addOk)
  }

  lemma {:induction false} SuccessesSnoc(ms: seq<Member>, m: Member, addOk: int -> bool)
    ensures Successes(ms + [m], addOk) == Successes(ms, addOk) + (if addOk(m.id) then 1 else 0)
    decreases |ms|
  {
    if |ms| > 0 {
      assert (ms + [m])[1..] == ms[1..] + [m];
      SuccessesSnoc(ms[1..], m, addOk);
    } else {
      assert (ms + [m])[1..] == [];
    }
  }

  /** A progress update follows the member at 1-based position `j` when
      `j` is a multiple of ten or the last position. */
  predicate ProgressPoint(j: nat, n: nat) {
    1 <= j <= n && (j % 10 == 0 || j == n)
  }

  /** The loop of `/asignar_rol_todos`: one `add_roles` per member, a
      success or failure counted for each, and a progress update after
      every tenth member and after the last. */
  method AddToEach(todo: seq<Member>, addOk: int -> bool) returns (successful: nat, failed: nat, progress: seq<nat>)
    ensures successful == Successes(todo, addOk)
    ensures successful + failed == |todo|
    ensures forall j :: j in progress <==> ProgressPoint(j, |todo|)
    ensures forall a, b :: 0 <= a < b < |progress| ==> progress[a] < progress[b]
    ensures |progress| == (|todo| + 9) / 10
  {
    var n := |todo|;
    successful, failed := 0, 0;
    progress := [];
    var i := 0;
    while i < n
      invariant 0 <= i <= n
      invariant successful == Successes(todo[..i], addOk)
      invariant successful + failed == i
      invariant forall j :: j in progress <==> 1 <= j <= i && ProgressPoint(j, n)
      invariant forall a, b :: 0 <= a < b < |progress| ==> progress[a] < progress[b]
      invariant forall a :: 0 <= a < |progress| ==> progress[a] <= i
      invariant |progress| == i / 10 + (if i == n && n % 10 != 0 then 1 else 0)
    {
      assert todo[..i + 1] == todo[..i] + [todo[i]];
      SuccessesSnoc(todo[..i], todo[i], addOk);
      if addOk(todo[i].id) {
        successful := successful + 1;
      } else {
        failed := failed + 1;
      }
      if (i + 1) % 10 == 0 || i == n - 1 {
        progress := progress + [i + 1];
      }
      i := i + 1;
    }
    assert todo[..n] == todo;
  }

  /** `/asignar_rol_todos`: the guards, then one `add_roles` per member
      lacking the role; `addOk` says which additions Discord accepts. */
  method AssignRoleToAll(invoker: Member, ownerId: int, botCanManageRoles: bool, botTop: Role,
                         role: Role, everyoneId: int, members: seq<Member>, addOk: int -> bool)
    returns (r: AssignOutcome)
    ensures "administrator" !in invoker.perms ==> r == Refused(NotAdmin)
    ensures r.Assigned? <==>
              && "administrator" in invoker.perms && botCanManageRoles && Below(role, botTop)
              && (Below(role, invoker.topRole) || invoker.id == ownerId) && role.id != everyoneId
              && |Lacking(members, role.id)| > 0
    ensures r.Assigned? ==>
              && r.report.toAssign == |Lacking(members, role.id)|
              && r.report.successful == Successes(Lacking(members, role.id), addOk)
              && r.report.successful + r.report.failed == r.report.toAssign
    ensures r.Assigned? ==>
              && (forall j :: j in r.report.progress <==> ProgressPoint(j, r.report.toAssign))
              && (forall a, b :: 0 <= a < b < |r.report.progress| ==> r.report.progress[a] < r.report.progress[b])
              && |r.report.progress| == (r.report.toAssign + 9) / 10
    ensures r.Assigned? ==>
              && (r.report.verdict == AllAssigned <==> r.report.failed == 0)
              && (r.report.verdict == NoneAssigned <==> r.report.successful == 0)
  {
    if "administrator" !in invoker.perms { return Refused(NotAdmin); }
    if !botCanManageRoles { return Refused(BotCannotManageRoles); }
    if AtLeast(role, botTop) { return Refused(RoleNotBelowBot); }
    if AtLeast(role, invoker.topRole) && invoker.id != ownerId { return Refused(RoleNotBelowInvoker); }
    if role.id == everyoneId { return Refused(EveryoneRole); }
    var todo := Lacking(members, role.id);
    var n := |todo|;
    if n == 0 { return AlreadyEveryone; }
    var successful, failed, progress := AddToEach(todo, addOk);
    var verdict := if successful == n then AllAssigned else if successful > 0 then PartlyAssigned else NoneAssigned;
    return Assigned(AssignReport(n, successful, failed, progress, verdict));
  }
}
