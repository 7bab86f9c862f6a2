/**
  The shared helpers of `utils/helpers.py`: the ticket-channel name and
  its parse back to a user name, the staff-role and ticket-management
  permission checks, and the list of missing channel permissions.
*/
module Helpers {
  import opened Wrappers
  import opened Config
  import opened Members
  import opened Text

  const StaffKey: string := "staff_role_ids"
  const TicketPrefix: string := "ticket-"

  // ---------------------------------------------------------------------
  // Ticket channel names
  // ---------------------------------------------------------------------

  /** `f'-{user.name.lower()}-{user.discriminator}'`: the part of a ticket
      name that identifies its creator. */
  function CreatorTag(u: Member): string {
    "-" + Lower(u.name) + "-" + u.discriminator
  }

  /** `f'ticket-{user.name.lower()}-{user.discriminator}'`. */
  function TicketName(u: Member): (r: string)
    ensures StartsWith(r, TicketPrefix)
    ensures Contains(r, CreatorTag(u))
  {
    TicketNameParts(Lower(u.name), u.discriminator);
    "ticket" + CreatorTag(u)
  }

  /** A name built as `ticket-{a}-{d}` starts with the prefix and holds
      the tag `-{a}-{d}`. */
  lemma TicketNameParts(a: string, d: string)
    ensures StartsWith("ticket" + ("-" + a + "-" + d), TicketPrefix)
    ensures Contains("ticket" + ("-" + a + "-" + d), "-" + a + "-" + d)
  {
    var tag := "-" + a + "-" + d;
    ContainsConcat("ticket", tag, "");
    assert "ticket" + tag + "" == "ticket" + tag;
    StartsWithConcat(TicketPrefix, a + "-" + d);
    assert TicketPrefix + (a + "-" + d) == "ticket" + tag;
  }

  /** A user name and discriminator as read back from a channel name. */
  datatype Handle = Handle(username: string, discriminator: string)

  /** `parts = name.split('-')`; when there are at least three parts, the
      user name is `'-'.join(parts[1:-1])` and the discriminator
      `parts[-1]`. The first part is not inspected. */
  function ParseHandle(name: string): (r: Option<Handle>)
    ensures r.Some? <==> |Split(name, '-')| >= 3
  {
    var parts := Split(name, '-');
    if |parts| >= 3 then Some(Handle(Join(parts[1..|parts| - 1], '-'), parts[|parts| - 1]))
    else None
  }

  /** `get_ticket_user_from_channel`: the creator's user name, or `None`
      when the channel is not a ticket or has too few parts. */
  function TicketUser(name: string): (r: Option<string>)
    ensures r.Some? <==> StartsWith(name, TicketPrefix) && |Split(name, '-')| >= 3
    ensures r.Some? ==>
              var parts := Split(name, '-');
              name == TicketPrefix + r.value + "-" + parts[|parts| - 1] && Free(parts[|parts| - 1], '-')
  {
    if !StartsWith(name, TicketPrefix) then None
    else
      match ParseHandle(name)
      case None => None
      case Some(h) =>
        ParseHandleSound(name);
        Some(h.username)
  }

  /** The last piece of a join splits off at the last separator. */
  lemma {:induction false} JoinSnoc(p: seq<string>, sep: char)
    requires |p| >= 2
    ensures Join(p, sep) == Join(p[..|p| - 1], sep) + [sep] + p[|p| - 1]
    decreases |p|
  {
    if |p| > 2 {
      JoinSnoc(p[1..], sep);
      assert p[1..][..|p| - 2] == p[..|p| - 1][1..];
      assert p[1..][|p| - 2] == p[|p| - 1];
    } else {
      assert p[..1] == [p[0]];
      assert p[1..] == [p[1]];
    }
  }

  /** `"ticket-" + u + "-" + d` splits into `"ticket"`, the pieces of `u`,
      and `d`. */
  lemma SplitTicketName(u: string, d: string)
    requires Free(d, '-')
    ensures Split(TicketPrefix + u + "-" + d, '-') == ["ticket"] + Split(u, '-') + [d]
  {
    var a, b := "ticket", u + ['-'] + d;
    assert TicketPrefix == a + ['-'];
    assert TicketPrefix + u + "-" + d == (a + ['-']) + (u + ['-'] + d);
    SplitAround(a, '-', b);
    TicketWordSplits();
    SplitAround(u, '-', d);
    SplitFree(d, '-');
    assert Split(b, '-') == Split(u, '-') + [d];
  }

  /** The word before the first dash of a ticket name has no dash. */
  lemma TicketWordSplits()
    ensures Split("ticket", '-') == ["ticket"]
  {
    SplitFree("ticket", '-');
  }

  /** Parsing inverts naming: the handle of `"ticket-" + u + "-" + d` is
      `(u, d)` whenever `d` has no dash, dashes inside `u` included. */
  lemma ParseHandleRoundTrip(u: string, d: string)
    requires Free(d, '-')
    ensures ParseHandle(TicketPrefix + u + "-" + d) == Some(Handle(u, d))
  {
    var name := TicketPrefix + u + "-" + d;
    SplitTicketName(u, d);
    var parts := Split(name, '-');
    assert parts[1..|parts| - 1] == Split(u, '-');
    JoinSplit(u, '-');
  }

  /** `get_ticket_user_from_channel` recovers the user name it was built
      from. */
  lemma TicketUserRoundTrip(u: string, d: string)
    requires Free(d, '-')
    ensures TicketUser(TicketPrefix + u + "-" + d) == Some(u)
  {
    ParseHandleRoundTrip(u, d);
    StartsWithConcat(TicketPrefix, u + "-" + d);
    assert TicketPrefix + (u + "-" + d) == TicketPrefix + u + "-" + d;
  }

  /** A `ticket-` name splits into `"ticket"` and the pieces after the
      prefix. */
  lemma SplitAfterPrefix(name: string)
    requires StartsWith(name, TicketPrefix)
    ensures name == TicketPrefix + name[|TicketPrefix|..]
    ensures Split(name, '-') == ["ticket"] + Split(name[|TicketPrefix|..], '-')
  {
    var rest := name[|TicketPrefix|..];
    assert name == "ticket" + ['-'] + rest;
    SplitAround("ticket", '-', rest);
    TicketWordSplits();
  }

  /** Conversely, every ticket name that parses is the name built from the
      parsed handle, and the discriminator read back has no dash. */
  lemma {:induction false} ParseHandleSound(name: string)
    requires StartsWith(name, TicketPrefix) && ParseHandle(name).Some?
    ensures var h := ParseHandle(name).value;
            name == TicketPrefix + h.username + "-" + h.discriminator && Free(h.discriminator, '-')
  {
    var rest := name[|TicketPrefix|..];
    SplitAfterPrefix(name);
    var p := Split(rest, '-');
    ConsMiddle("ticket", p);
    assert ParseHandle(name).value == Handle(Join(p[..|p| - 1], '-'), p[|p| - 1]);
    LastPieceSplits(rest);
  }

  /** Prepending one piece shifts the middle and keeps the last piece. */
  lemma ConsMiddle(x: string, p: seq<string>)
    requires |p| >= 1
    ensures ([x] + p)[1..|p|] == p[..|p| - 1]
    ensures ([x] + p)[|p|] == p[|p| - 1]
  {
  }

  /** A string with at least two dash-separated pieces is the join of all
      but its last piece, a dash, and that dash-free last piece. */
  lemma LastPieceSplits(s: string)
    requires |Split(s, '-')| >= 2
    ensures var p := Split(s, '-');
            s == Join(p[..|p| - 1], '-') + "-" + p[|p| - 1] && Free(p[|p| - 1], '-')
  {
    var p := Split(s, '-');
    JoinSnoc(p, '-');
    JoinSplit(s, '-');
    SplitPiecesFree(s, '-');
  }

  /** The name built for a member parses back to that member's handle. */
  lemma TicketNameParses(u: Member)
    requires Free(u.discriminator, '-')
    ensures ParseHandle(TicketName(u)) == Some(Handle(Lower(u.name), u.discriminator))
    ensures TicketUser(TicketName(u)) == Some(Lower(u.name))
  {
    assert TicketName(u) == TicketPrefix + Lower(u.name) + "-" + u.discriminator;
    ParseHandleRoundTrip(Lower(u.name), u.discriminator);
    TicketUserRoundTrip(Lower(u.name), u.discriminator);
  }

  // ---------------------------------------------------------------------
  // Staff role and ticket management
  // ---------------------------------------------------------------------

  /** Some role the member holds is listed in `ids`. */
  predicate HoldsListed(roles: seq<int>, ids: seq<int>) {
    exists k :: 0 <= k < |roles| && roles[k] in ids
  }

  /** The loop `for role in user.roles: if role.id in ids: return True`;
      `None` is the `TypeError` of `in` on a value that is not a list,
      raised as soon as there is a role to test. */
  function AnyRoleIn(roles: seq<int>, stored: Json): (r: Option<bool>)
    ensures |roles| == 0 ==> r == Some(false)
    ensures |roles| > 0 ==> (r.Some? <==> stored.JIds?)
    ensures stored.JIds? ==> r == Some(HoldsListed(roles, stored.ids))
    decreases |roles|
  {
    if |roles| == 0 then Some(false)
    else if !stored.JIds? then None
    else if roles[0] in stored.ids then Some(true)
    else
      var r := AnyRoleIn(roles[1..], stored);
      assert HoldsListed(roles, stored.ids) <==> HoldsListed(roles[1..], stored.ids) by {
        if HoldsListed(roles, stored.ids) {
          var k :| 0 <= k < |roles| && roles[k] in stored.ids;
          assert roles[1..][k - 1] == roles[k];
        }
        if HoldsListed(roles[1..], stored.ids) {
          var k :| 0 <= k < |roles[1..]| && roles[1..][k] in stored.ids;
          assert roles[k + 1] == roles[1..][k];
        }
      }
      r
  }

  /** `has_staff_role(user, config)` on the dictionary it is given:
      `config.get('staff_role_ids', [])`, so a missing key means no staff
      role. */
  function HasStaffRole(u: Member, f: Fields): (r: Option<bool>)
    ensures StaffKey !in f ==> r == Some(false)
    ensures r == Some(true) <==> StaffKey in f && f[StaffKey].JIds? && HoldsListed(u.roles, f[StaffKey].ids)
    ensures r.None? <==> |u.roles| > 0 && StaffKey in f && !f[StaffKey].JIds?
  {
    AnyRoleIn(u.roles, if StaffKey in f then f[StaffKey] else JIds([]))
  }

  /** `can_manage_tickets`: the creator, then a staff member, then anyone
      with `manage_channels` in the channel. The staff test is reached
      only when the creator test fails. */
  function CanManageTickets(u: Member, channel: string, f: Fields, manageChannels: bool): (r: Option<bool>)
    ensures Contains(channel, CreatorTag(u)) ==> r == Some(true)
    ensures r == Some(true) <==>
              Contains(channel, CreatorTag(u)) || HasStaffRole(u, f) == Some(true) || (HasStaffRole(u, f) == Some(false) && manageChannels)
    ensures r.None? <==> !Contains(channel, CreatorTag(u)) && HasStaffRole(u, f).None?
  {
    if Contains(channel, CreatorTag(u)) then Some(true)
    else
      match HasStaffRole(u, f)
      case None => None
      case Some(true) => Some(true)
      case Some(false) => Some(manageChannels)
  }

  /** The creator of a ticket may always manage it, whatever the
      configuration and channel permissions. */
  lemma CreatorManagesOwnTicket(u: Member, f: Fields, manageChannels: bool)
    ensures CanManageTickets(u, TicketName(u), f, manageChannels) == Some(true)
  {
  }

  // ---------------------------------------------------------------------
  // validate_permissions
  // ---------------------------------------------------------------------

  /** The required permission names the member lacks, in input order.
      `held` stands for the flags `getattr(permissions, perm, False)`
      finds set; an unknown name is never held. */
  function Missing(required: seq<string>, held: set<string>): (r: seq<string>)
    ensures |r| <= |required|
    ensures forall p :: p in r <==> p in required && p !in held
    decreases |required|
  {
    if |required| == 0 then []
    else (if required[0] in held then [] else [required[0]]) + Missing(required[1..], held)
  }

  /** Missing permissions keep the order in which they were asked for. */
  lemma {:induction false} MissingConcat(a: seq<string>, b: seq<string>, held: set<string>)
    ensures Missing(a + b, held) == Missing(a, held) + Missing(b, held)
    decreases |a|
  {
    if |a| == 0 {
      assert a + b == b;
    } else {
      assert (a + b)[1..] == a[1..] + b;
      MissingConcat(a[1..], b, held);
    }
  }

  /** `perm.replace('_', ' ').title()`. */
  function Display(perm: string): (r: string)
    ensures |r| == |perm|
    ensures forall i :: 0 <= i < |perm| ==> (r[i] == ' ' <==> perm[i] == '_' || perm[i] == ' ')
  {
    Title(Replace(perm, '_', ' '))
  }

  /** The display name of a permission: underscores become spaces, each
      word of letters starts with a capital and continues in lower case,
      and every other character is kept. */
  lemma DisplayTitles(perm: string)
    ensures var r := Display(perm);
            && |r| == |perm|
            && (forall i :: 0 <= i < |perm| && perm[i] != '_' ==> FoldEq(r[i], perm[i]))
            && (forall i :: 0 <= i < |perm| ==> IsLetter(r[i]) == IsLetter(perm[i]))
            && (forall i :: 0 <= i < |perm| && !IsLetter(perm[i]) && perm[i] != '_' ==> r[i] == perm[i])
            && (forall i :: 0 <= i < |perm| && (i == 0 || !IsLetter(perm[i - 1])) ==> !IsLower(r[i]))
            && (forall i :: 0 < i < |perm| && IsLetter(perm[i - 1]) ==> !IsUpper(r[i]))
  {
    var t := Replace(perm, '_', ' ');
    assert forall i :: 0 <= i < |perm| ==> IsLetter(t[i]) == IsLetter(perm[i]);
  }

  /** The display names of `ps`, in order. */
  function DisplayAll(ps: seq<string>): (r: seq<string>)
    ensures |r| == |ps|
    ensures forall k :: 0 <= k < |ps| ==> r[k] == Display(ps[k])
    decreases |ps|
  {
    if |ps| == 0 then [] else DisplayAll(ps[..|ps| - 1]) + [Display(ps[|ps| - 1])]
  }

  lemma DisplayAllSnoc(ps: seq<string>, p: string)
    ensures DisplayAll(ps + [p]) == DisplayAll(ps) + [Display(p)]
  {
    assert (ps + [p])[..|ps|] == ps;
  }

  /** One more required permission adds it to the missing ones exactly
      when it is not held. */
  lemma MissingSnoc(required: seq<string>, held: set<string>, i: nat)
    requires i < |required|
    ensures Missing(required[..i + 1], held) == Missing(required[..i], held) + (if required[i] in held then [] else [required[i]])
  {
    MissingConcat(required[..i], [required[i]], held);
    assert required[..i + 1] == required[..i] + [required[i]];
  }

  /** Nothing is missing exactly when every required permission is held. */
  lemma MissingEmpty(required: seq<string>, held: set<string>)
    ensures Missing(required, held) == [] <==> forall p :: p in required ==> p in held
  {
    if Missing(required, held) != [] {
      assert Missing(required, held)[0] in Missing(required, held);
    }
  }

  /** `validate_permissions`: the display names of the missing
      permissions, in input order; empty exactly when all are held. */
  method ValidatePermissions(held: set<string>, required: seq<string>) returns (missing: seq<string>)
    ensures |missing| == |Missing(required, held)|
    ensures forall i :: 0 <= i < |missing| ==> missing[i] == Display(Missing(required, held)[i])
    ensures missing == [] <==> forall p :: p in required ==> p in held
  {
    missing := [];
    var i := 0;
    while i < |required|
      invariant 0 <= i <= |required|
      invariant missing == DisplayAll(Missing(required[..i], held))
    {
      MissingSnoc(required, held, i);
      if required[i] !in held {
        DisplayAllSnoc(Missing(required[..i], held), required[i]);
        missing := missing + [Display(required[i])];
      }
      i := i + 1;
    }
    assert required[..i] == required;
    MissingEmpty(required, held);
  }
}
