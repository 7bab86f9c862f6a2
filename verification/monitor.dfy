/**
  The multi-guild FiveM status monitor: its persisted settings in
  `config.json`, the in-memory registry of active monitors, startup
  hydration from the config, the periodic reconciliation tick and the
  three administration commands.

  Every Discord call is an oracle answer supplied with the input: whether
  a channel id resolves, how a message fetch or edit ends, how a send
  ends. The status-page download is an optional page text (`None` when
  the request fails or the reply is not HTTP 200).
*/
module Monitor {
  import opened Wrappers
  import opened Config
  import opened StatusParser

  // ---------------------------------------------------------------------
  // Persisted settings
  // ---------------------------------------------------------------------

  const ChannelKey: string := "fivem_status_channel_id"
  const MessageKey: string := "fivem_status_message_id"
  const ActiveKey: string := "fivem_monitor_active"

  /** The stored channel and message ids, as `.get` returns them (`JNull`
      for a missing key). */
  datatype Ids = Ids(channel: Json, message: Json)

  /** `get_fivem_monitor_config`: the stored ids of an active monitor. */
  function GetMonitor(c: Config, g: GuildId): Option<Ids> {
    match GuildFields(c, g)
    case None => None
    case Some(f) =>
      if Truthy(Lookup(f, ActiveKey)) then Some(Ids(Lookup(f, ChannelKey), Lookup(f, MessageKey)))
      else None
  }

  /** `save_fivem_monitor_config`: stores both ids and marks the monitor
      active, creating the `servers` and guild objects when missing. */
  function SaveMonitor(c: Config, g: GuildId, channel: Json, message: Json): (r: Config)
    ensures GetMonitor(r, g) == Some(Ids(channel, message))
    ensures GuildFields(r, g).Some?
    ensures GuildFields(r, g).value.Keys == FieldsOrEmpty(c, g).Keys + {ChannelKey, MessageKey, ActiveKey}
    ensures forall k :: k !in {ChannelKey, MessageKey, ActiveKey} ==>
              Lookup(GuildFields(r, g).value, k) == Lookup(FieldsOrEmpty(c, g), k)
    ensures OthersUnchanged(c, r, g)
  {
    var c1 := SetGuildKey(c, g, ChannelKey, channel);
    var c2 := SetGuildKey(c1, g, MessageKey, message);
    SetGuildKey(c2, g, ActiveKey, JBool(true))
  }

  /** `disable_fivem_monitor_config`: a guild without an entry is left
      alone; otherwise the monitor is marked inactive and the message id
      is dropped, the channel id being kept. */
  function DisableMonitor(c: Config, g: GuildId): (r: Config)
    ensures GuildFields(c, g).None? ==> r == c
    ensures GetMonitor(r, g).None?
    ensures GuildFields(c, g).Some? ==>
              && GuildFields(r, g).Some?
              && GuildFields(r, g).value.Keys == GuildFields(c, g).value.Keys + {ActiveKey} - {MessageKey}
              && Lookup(GuildFields(r, g).value, ActiveKey) == JBool(false)
              && forall k :: k != ActiveKey && k != MessageKey ==>
                   Lookup(GuildFields(r, g).value, k) == Lookup(GuildFields(c, g).value, k)
    ensures OthersUnchanged(c, r, g)
  {
    if GuildFields(c, g).None? then c
    else DeleteGuildKey(SetGuildKey(c, g, ActiveKey, JBool(false)), g, MessageKey)
  }

  /** Disabling twice is disabling once. */
  lemma DisableIdempotent(c: Config, g: GuildId)
    ensures DisableMonitor(DisableMonitor(c, g), g) == DisableMonitor(c, g)
  {
    var d := DisableMonitor(c, g);
    if GuildFields(c, g).Some? {
      var f := GuildFields(d, g).value;
      assert f[ActiveKey := JBool(false)] - {MessageKey} == f;
      var sv := d.servers.value;
      assert sv[Key(g) := f[ActiveKey := JBool(false)]][Key(g) := f] == sv;
    }
  }

  /** The result of a write to guild `g` depends only on guild `g`'s entry. */
  lemma SaveLocal(c: Config, d: Config, g: GuildId, channel: Json, message: Json)
    requires GuildFields(c, g) == GuildFields(d, g)
    ensures GuildFields(SaveMonitor(c, g, channel, message), g) == GuildFields(SaveMonitor(d, g, channel, message), g)
  {
  }

  lemma DisableLocal(c: Config, d: Config, g: GuildId)
    requires GuildFields(c, g) == GuildFields(d, g)
    ensures GuildFields(DisableMonitor(c, g), g) == GuildFields(DisableMonitor(d, g), g)
  {
  }

  // ---------------------------------------------------------------------
  // Cog state
  // ---------------------------------------------------------------------

  /** One entry of `active_monitors`. The ids are kept exactly as read
      from the config or returned by Discord; `JNull` is `None`. */
  datatype Monitor = Monitor(channel: Json, message: Json, guildName: string)

  /** The registry, the persisted document and `last_status` (`None`
      while it is still the empty dictionary). */
  datatype State = State(registry: map<GuildId, Monitor>, config: Config, lastStatus: Option<Snapshot>)

  /** Everything the cog holds about one guild. */
  datatype View = View(monitor: Option<Monitor>, fields: Option<Fields>)

  function ViewOf(s: State, g: GuildId): View {
    View(if g in s.registry then Some(s.registry[g]) else None, GuildFields(s.config, g))
  }

  /** `s` and `r` differ at most in guild `g`'s registry entry and
      config entry. */
  ghost predicate OnlyGuild(s: State, r: State, g: GuildId) {
    && r.config.top == s.config.top
    && r.lastStatus == s.lastStatus
    && forall h :: h != g ==> ViewOf(r, h) == ViewOf(s, h)
  }

  // ---------------------------------------------------------------------
  // Startup hydration (setup_monitor_from_config)
  // ---------------------------------------------------------------------

  datatype Fetch = Fetched | FetchNotFound | FetchFailed

  /** What Discord answers for one guild at startup: the stored channel id
      does not resolve, it resolves (and the stored message fetch ends as
      given), or the lookup raises. */
  datatype Probe = ChannelMissing | ChannelFound(fetch: Fetch) | ProbeFailed

  /** A guild the bot is in, with Discord's answers for it. */
  datatype Guild = Guild(id: GuildId, name: string, probe: Probe)

  /** One iteration of the startup loop. */
  function HydrateGuild(s: State, gd: Guild): (r: State)
    ensures OnlyGuild(s, r, gd.id)
    ensures GetMonitor(s.config, gd.id).None? ==> r == s
    ensures GetMonitor(s.config, gd.id).Some? && !Truthy(GetMonitor(s.config, gd.id).value.channel) ==> r == s
    ensures gd.probe.ProbeFailed? ==> r == s
    ensures var ids := GetMonitor(s.config, gd.id);
            ids.Some? && Truthy(ids.value.channel) && gd.probe.ChannelMissing? ==>
              r.registry == s.registry && GetMonitor(r.config, gd.id).None?
              && GuildFields(r.config, gd.id).Some?
              && Lookup(GuildFields(r.config, gd.id).value, ChannelKey) == ids.value.channel
    ensures var ids := GetMonitor(s.config, gd.id);
            ids.Some? && Truthy(ids.value.channel) && gd.probe == ChannelFound(Fetched) && Truthy(ids.value.message) ==>
              r.registry == s.registry[gd.id := Monitor(ids.value.channel, ids.value.message, gd.name)]
              && r.config == s.config
    ensures var ids := GetMonitor(s.config, gd.id);
            ids.Some? && Truthy(ids.value.channel) && gd.probe == ChannelFound(FetchNotFound) && Truthy(ids.value.message) ==>
              r.registry == s.registry[gd.id := Monitor(ids.value.channel, JNull, gd.name)]
              && GetMonitor(r.config, gd.id) == Some(Ids(ids.value.channel, JNull))
    ensures var ids := GetMonitor(s.config, gd.id);
            ids.Some? && Truthy(ids.value.channel) && gd.probe.ChannelFound? && !Truthy(ids.value.message) ==>
              r.registry == s.registry[gd.id := Monitor(ids.value.channel, JNull, gd.name)]
              && r.config == s.config
    ensures gd.probe == ChannelFound(FetchFailed) && Truthy(GetMonitor(s.config, gd.id).GetOr(Ids(JNull, JNull)).message) ==> r == s
  {
    var g := gd.id;
    match GetMonitor(s.config, g)
    case None => s
    case Some(ids) =>
      if !Truthy(ids.channel) then s
      else
        match gd.probe
        case ProbeFailed => s
        case ChannelMissing => s.(config := DisableMonitor(s.config, g))
        case ChannelFound(fetch) =>
          if Truthy(ids.message) then
            match fetch
            case Fetched => s.(registry := s.registry[g := Monitor(ids.channel, ids.message, gd.name)])
            case FetchNotFound =>
              s.(registry := s.registry[g := Monitor(ids.channel, JNull, gd.name)],
                 config := SaveMonitor(s.config, g, ids.channel, JNull))
            case FetchFailed => s
          else s.(registry := s.registry[g := Monitor(ids.channel, JNull, gd.name)])
  }

  /** Guild `g`'s outcome depends only on what the cog holds about `g`. */
  lemma HydrateGuildLocal(s: State, t: State, gd: Guild)
    requires ViewOf(s, gd.id) == ViewOf(t, gd.id)
    ensures ViewOf(HydrateGuild(s, gd), gd.id) == ViewOf(HydrateGuild(t, gd), gd.id)
  {
    var g := gd.id;
    assert GetMonitor(s.config, g) == GetMonitor(t.config, g);
    match GetMonitor(s.config, g)
    case None =>
    case Some(ids) =>
      if Truthy(ids.channel) {
        match gd.probe
        case ProbeFailed =>
        case ChannelMissing => DisableLocal(s.config, t.config, g);
        case ChannelFound(fetch) =>
          if Truthy(ids.message) && fetch == FetchNotFound {
            SaveLocal(s.config, t.config, g, ids.channel, JNull);
          }
      }
  }

  function GuildIds(guilds: seq<Guild>): set<GuildId> {
    set i | 0 <= i < |guilds| :: guilds[i].id
  }

  predicate DistinctGuilds(guilds: seq<Guild>) {
    forall i, j :: 0 <= i < j < |guilds| ==> guilds[i].id != guilds[j].id
  }

  /** The loop over `bot.guilds`. */
  function Hydrate(s: State, guilds: seq<Guild>): (r: State)
    ensures r.config.top == s.config.top && r.lastStatus == s.lastStatus
    ensures forall h :: h !in GuildIds(guilds) ==> ViewOf(r, h) == ViewOf(s, h)
    decreases |guilds|
  {
    if |guilds| == 0 then s
    else
      assert forall h :: h in GuildIds(guilds[1..]) ==> h in GuildIds(guilds) by {
        forall h | h in GuildIds(guilds[1..]) ensures h in GuildIds(guilds) {
          var i :| 0 <= i < |guilds[1..]| && guilds[1..][i].id == h;
          assert guilds[i + 1].id == h;
        }
      }
      Hydrate(HydrateGuild(s, guilds[0]), guilds[1..])
  }

  /** Each guild the bot is in ends up exactly as if it were the only one
      processed: one guild's failure or reconfiguration never affects
      another. */
  lemma {:induction false} HydrateIsPerGuild(s: State, guilds: seq<Guild>, i: nat)
    requires DistinctGuilds(guilds) && i < |guilds|
    ensures ViewOf(Hydrate(s, guilds), guilds[i].id) == ViewOf(HydrateGuild(s, guilds[i]), guilds[i].id)
    decreases |guilds|
  {
    var s1 := HydrateGuild(s, guilds[0]);
    var rest := guilds[1..];
    if i == 0 {
      assert guilds[0].id !in GuildIds(rest);
    } else {
      assert rest[i - 1] == guilds[i];
      HydrateIsPerGuild(s1, rest, i - 1);
      HydrateGuildLocal(s1, s, guilds[i]);
    }
  }

  // ---------------------------------------------------------------------
  // The reconciliation tick (status_monitor)
  // ---------------------------------------------------------------------

  /** How fetching the stored message and editing it ends. */
  datatype Edit = Edited | EditNotFound | EditForbidden | EditFailed

  /** How `channel.send` ends; `Sent` carries the new message's id. */
  datatype Send = Sent(id: int) | SendForbidden | SendFailed

  /** Discord's answers for one guild during one tick. */
  datatype Answer = Answer(channelResolves: bool, edit: Edit, send: Send)

  /** A message call the tick makes on a guild's channel. */
  datatype Call = EditCall(g: GuildId) | SendCall(g: GuildId)

  datatype Outcome = Outcome(state: State, calls: seq<Call>)

  /** The calls made on guild `g`'s channel, in order. */
  function CallsFor(calls: seq<Call>, g: GuildId): (r: seq<Call>)
    ensures forall c :: c in r ==> c in calls && c.g == g
    ensures forall c :: c in calls && c.g == g ==> c in r
  {
    if |calls| == 0 then []
    else (if calls[0].g == g then [calls[0]] else []) + CallsFor(calls[1..], g)
  }

  lemma {:induction false} CallsForConcat(a: seq<Call>, b: seq<Call>, g: GuildId)
    ensures CallsFor(a + b, g) == CallsFor(a, g) + CallsFor(b, g)
    decreases |a|
  {
    if |a| > 0 {
      assert (a + b)[0] == a[0];
      assert (a + b)[1..] == a[1..] + b;
      CallsForConcat(a[1..], b, g);
    } else {
      assert a + b == b;
    }
  }

  /** How many sends the calls contain. */
  function SendCount(calls: seq<Call>): nat {
    if |calls| == 0 then 0
    else (if calls[0].SendCall? then 1 else 0) + SendCount(calls[1..])
  }

  /** The monitor now shows message `id`, in the registry and on disk. */
  function Reposted(s: State, g: GuildId, m: Monitor, id: int): State {
    s.(registry := s.registry[g := m.(message := JInt(id))],
       config := SaveMonitor(s.config, g, m.channel, JInt(id)))
  }

  /** The monitor is dropped from the registry and disabled on disk. */
  function Dropped(s: State, g: GuildId): State {
    s.(registry := s.registry - {g}, config := DisableMonitor(s.config, g))
  }

  /** One iteration of the tick's loop, for a guild still registered. */
  function Step(s: State, g: GuildId, a: Answer): (r: Outcome)
    requires g in s.registry
    ensures OnlyGuild(s, r.state, g)
    ensures forall c :: c in r.calls ==> c.g == g
    ensures !a.channelResolves ==>
              g !in r.state.registry && GetMonitor(r.state.config, g).None? && r.calls == []
    ensures var m := s.registry[g];
            a.channelResolves && Truthy(m.message) && a.edit == Edited ==>
              r.state == s && r.calls == [EditCall(g)]
    ensures var m := s.registry[g];
            a.channelResolves && (!Truthy(m.message) || a.edit in {EditNotFound, EditForbidden}) ==>
              SendCount(r.calls) == 1
    ensures var m := s.registry[g];
            a.channelResolves && (!Truthy(m.message) || a.edit in {EditNotFound, EditForbidden}) && a.send.Sent? ==>
              && g in r.state.registry
              && r.state.registry[g] == m.(message := JInt(a.send.id))
              && GetMonitor(r.state.config, g) == Some(Ids(m.channel, JInt(a.send.id)))
    ensures var m := s.registry[g];
            a.channelResolves && !Truthy(m.message) && a.send == SendForbidden ==>
              g !in r.state.registry && GetMonitor(r.state.config, g).None?
    ensures var m := s.registry[g];
            a.channelResolves && !Truthy(m.message) && a.send == SendFailed ==> r.state == s
    ensures var m := s.registry[g];
            a.channelResolves && Truthy(m.message) && a.edit != Edited && !a.send.Sent? ==> r.state == s
  {
    var m := s.registry[g];
    if !a.channelResolves then Outcome(Dropped(s, g), [])
    else if Truthy(m.message) then
      match a.edit
      case Edited => Outcome(s, [EditCall(g)])
      case EditFailed => Outcome(s, [EditCall(g)])
      case _ =>
        // NotFound and Forbidden both post a fresh message; a failure of
        // that send is caught and leaves the entry as it was
        assert SendCount([EditCall(g), SendCall(g)]) == SendCount([SendCall(g)]);
        match a.send
        case Sent(id) => Outcome(Reposted(s, g, m, id), [EditCall(g), SendCall(g)])
        case _ => Outcome(s, [EditCall(g), SendCall(g)])
    else
      match a.send
      case Sent(id) => Outcome(Reposted(s, g, m, id), [SendCall(g)])
      case SendForbidden => Outcome(Dropped(s, g), [SendCall(g)])
      case SendFailed => Outcome(s, [SendCall(g)])
  }

  /** Guild `g`'s step depends only on what the cog holds about `g`. */
  lemma StepLocal(s: State, t: State, g: GuildId, a: Answer)
    requires g in s.registry && ViewOf(s, g) == ViewOf(t, g)
    ensures g in t.registry
    ensures ViewOf(Step(s, g, a).state, g) == ViewOf(Step(t, g, a).state, g)
    ensures Step(s, g, a).calls == Step(t, g, a).calls
  {
    assert ViewOf(s, g).monitor == ViewOf(t, g).monitor;
    var m := s.registry[g];
    if !a.channelResolves || (!Truthy(m.message) && a.send == SendForbidden) {
      DisableLocal(s.config, t.config, g);
      assert Step(s, g, a).state == Dropped(s, g);
      assert Step(t, g, a).state == Dropped(t, g);
    } else if a.send.Sent? && (!Truthy(m.message) || a.edit in {EditNotFound, EditForbidden}) {
      SaveLocal(s.config, t.config, g, m.channel, JInt(a.send.id));
      assert Step(s, g, a).state == Reposted(s, g, m, a.send.id);
      assert Step(t, g, a).state == Reposted(t, g, m, a.send.id);
    } else {
      assert Step(s, g, a).state == s;
      assert Step(t, g, a).state == t;
    }
  }

  predicate Distinct(order: seq<GuildId>) {
    forall i, j :: 0 <= i < j < |order| ==> order[i] != order[j]
  }

  /** The loop over the snapshot `list(active_monitors.items())`, whose
      key order is `order`. */
  function Visit(s: State, order: seq<GuildId>, answers: GuildId -> Answer): (r: Outcome)
    requires Distinct(order)
    requires forall i :: 0 <= i < |order| ==> order[i] in s.registry
    ensures r.state.config.top == s.config.top && r.state.lastStatus == s.lastStatus
    ensures forall h :: h !in order ==> ViewOf(r.state, h) == ViewOf(s, h)
    ensures forall c :: c in r.calls ==> c.g in order
    decreases |order|
  {
    if |order| == 0 then Outcome(s, [])
    else
      var o := Step(s, order[0], answers(order[0]));
      assert forall i :: 0 <= i < |order[1..]| ==> order[1..][i] != order[0] by {
        forall i | 0 <= i < |order[1..]| ensures order[1..][i] != order[0] {
          assert order[1..][i] == order[i + 1];
        }
      }
      var rest := Visit(o.state, order[1..], answers);
      Outcome(rest.state, o.calls + rest.calls)
  }

  /** Every registered guild ends the tick's loop exactly as if it were
      the only one processed: a guild whose channel vanished or whose send
      failed never stops the others. */
  lemma {:induction false} VisitIsPerGuild(s: State, order: seq<GuildId>, answers: GuildId -> Answer, i: nat)
    requires Distinct(order)
    requires forall k :: 0 <= k < |order| ==> order[k] in s.registry
    requires i < |order|
    ensures ViewOf(Visit(s, order, answers).state, order[i]) == ViewOf(Step(s, order[i], answers(order[i])).state, order[i])
    decreases |order|
  {
    var g := order[0];
    var o := Step(s, g, answers(g));
    var rest := order[1..];
    assert forall k :: 0 <= k < |rest| ==> rest[k] == order[k + 1];
    assert Visit(s, order, answers).state == Visit(o.state, rest, answers).state;
    if i == 0 {
      assert g !in rest;
    } else {
      var h := order[i];
      assert rest[i - 1] == h;
      VisitIsPerGuild(o.state, rest, answers, i - 1);
      StepLocal(s, o.state, h, answers(h));
    }
  }

  /** The calls the tick's loop makes on a guild's channel are those of
      that guild's own step. */
  lemma {:induction false} VisitCallsPerGuild(s: State, order: seq<GuildId>, answers: GuildId -> Answer, i: nat)
    requires Distinct(order)
    requires forall k :: 0 <= k < |order| ==> order[k] in s.registry
    requires i < |order|
    ensures CallsFor(Visit(s, order, answers).calls, order[i]) == Step(s, order[i], answers(order[i])).calls
    decreases |order|
  {
    var g := order[0];
    var o := Step(s, g, answers(g));
    var rest := order[1..];
    assert forall k :: 0 <= k < |rest| ==> rest[k] == order[k + 1];
    var r := Visit(o.state, rest, answers);
    assert Visit(s, order, answers).calls == o.calls + r.calls;
    CallsForConcat(o.calls, r.calls, order[i]);
    if i == 0 {
      assert g !in rest;
      CallsForNone(r.calls, g);
      CallsForAll(o.calls, g);
    } else {
      var h := order[i];
      assert rest[i - 1] == h;
      VisitCallsPerGuild(o.state, rest, answers, i - 1);
      StepLocal(s, o.state, h, answers(h));
      CallsForNone(o.calls, h);
    }
  }

  lemma CallsForNone(calls: seq<Call>, g: GuildId)
    requires forall c :: c in calls ==> c.g != g
    ensures CallsFor(calls, g) == []
  {
    if CallsFor(calls, g) != [] {
      assert CallsFor(calls, g)[0] in CallsFor(calls, g);
    }
  }

  lemma {:induction false} CallsForAll(calls: seq<Call>, g: GuildId)
    requires forall c :: c in calls ==> c.g == g
    ensures CallsFor(calls, g) == calls
    decreases |calls|
  {
    if |calls| > 0 {
      assert calls[0] in calls;
      assert forall c :: c in calls[1..] ==> c in calls;
      CallsForAll(calls[1..], g);
    }
  }

  /** `status_monitor`: idle without monitors or without a status page;
      otherwise records the parsed page and visits every monitor. */
  function Tick(s: State, page: Option<string>, order: seq<GuildId>, answers: GuildId -> Answer): (r: Outcome)
    requires Distinct(order)
    requires forall i :: 0 <= i < |order| ==> order[i] in s.registry
    requires forall g :: g in s.registry ==> g in order
    ensures |s.registry| == 0 || page.None? ==> r == Outcome(s, [])
    ensures |s.registry| > 0 && page.Some? ==> r.state.lastStatus == Some(Parse(page.value))
    ensures r.state.config.top == s.config.top
    ensures forall h :: h !in s.registry ==> ViewOf(r.state, h) == ViewOf(s, h)
  {
    if |s.registry| == 0 then Outcome(s, [])
    else
      match page
      case None => Outcome(s, [])
      case Some(text) => Visit(s.(lastStatus := Some(Parse(text))), order, answers)
  }

  /** Each registered guild's outcome of a tick with a status page is the
      outcome of its own step, whatever happens to the other guilds. */
  lemma TickIsPerGuild(s: State, text: string, order: seq<GuildId>, answers: GuildId -> Answer, g: GuildId)
    requires Distinct(order)
    requires forall i :: 0 <= i < |order| ==> order[i] in s.registry
    requires forall g :: g in s.registry ==> g in order
    requires g in s.registry
    ensures ViewOf(Tick(s, Some(text), order, answers).state, g) == ViewOf(Step(s, g, answers(g)).state, g)
    ensures CallsFor(Tick(s, Some(text), order, answers).calls, g) == Step(s, g, answers(g)).calls
  {
    var s1 := s.(lastStatus := Some(Parse(text)));
    var i :| 0 <= i < |order| && order[i] == g;
    VisitIsPerGuild(s1, order, answers, i);
    VisitCallsPerGuild(s1, order, answers, i);
    StepLocal(s1, s, g, answers(g));
  }

  // ---------------------------------------------------------------------
  // Commands
  // ---------------------------------------------------------------------

  /** The command's reply, by meaning. */
  datatype Reply = NoPermission | NotConfigured | StatusUnavailable | Configured | Disabled | Forced | CommandFailed

  datatype Response = Response(state: State, reply: Reply)

  /** `/configurar_estado_fivem`: administrators only; posts the status in
      `channel`, registers it and persists it. */
  function SetupCommand(s: State, g: GuildId, guildName: string, isAdmin: bool,
                        page: Option<string>, channel: int, send: Send): (r: Response)
    ensures r.reply == Configured <==> isAdmin && page.Some? && send.Sent?
    ensures r.reply != Configured ==> r.state == s
    ensures !isAdmin ==> r.reply == NoPermission
    ensures isAdmin && page.None? ==> r.reply == StatusUnavailable
    ensures r.reply == Configured ==>
              && r.state.registry == s.registry[g := Monitor(JInt(channel), JInt(send.id), guildName)]
              && GetMonitor(r.state.config, g) == Some(Ids(JInt(channel), JInt(send.id)))
              && r.state.lastStatus == Some(Parse(page.value))
              && OthersUnchanged(s.config, r.state.config, g)
  {
    if !isAdmin then Response(s, NoPermission)
    else
      match page
      case None => Response(s, StatusUnavailable)
      case Some(text) =>
        match send
        case Sent(id) =>
          Response(State(s.registry[g := Monitor(JInt(channel), JInt(id), guildName)],
                         SaveMonitor(s.config, g, JInt(channel), JInt(id)),
                         Some(Parse(text))),
                   Configured)
        case _ => Response(s, CommandFailed)
  }

  /** `/desactivar_estado_fivem`: administrators only; forgets a
      registered monitor and disables it on disk. */
  function DisableCommand(s: State, g: GuildId, isAdmin: bool): (r: Response)
    ensures r.reply == Disabled <==> isAdmin && g in s.registry
    ensures r.reply != Disabled ==> r.state == s
    ensures r.reply == Disabled ==>
              && r.state.registry == s.registry - {g}
              && GetMonitor(r.state.config, g).None?
              && OnlyGuild(s, r.state, g)
  {
    if !isAdmin then Response(s, NoPermission)
    else if g !in s.registry then Response(s, NotConfigured)
    else Response(Dropped(s, g), Disabled)
  }

  /** `/forzar_actualizacion_fivem`: for members who may manage the guild,
      runs the tick at once when this guild has a monitor. */
  function ForceUpdateCommand(s: State, g: GuildId, canManage: bool, page: Option<string>,
                              order: seq<GuildId>, answers: GuildId -> Answer): (r: Response)
    requires Distinct(order)
    requires forall i :: 0 <= i < |order| ==> order[i] in s.registry
    requires forall g :: g in s.registry ==> g in order
    ensures r.reply == Forced <==> canManage && g in s.registry
    ensures r.reply == Forced ==> r.state == Tick(s, page, order, answers).state
    ensures r.reply != Forced ==> r.state == s
  {
    if !canManage then Response(s, NoPermission)
    else if g !in s.registry then Response(s, NotConfigured)
    else Response(Tick(s, page, order, answers).state, Forced)
  }

  /** A configured monitor survives a restart: hydration finds it active
      in the saved document and registers the same channel and message. */
  lemma SetupSurvivesRestart(s: State, g: GuildId, guildName: string, page: Option<string>, channel: int, id: int)
    requires page.Some? && channel != 0 && id != 0
    ensures var r := SetupCommand(s, g, guildName, true, page, channel, Sent(id));
            var booted := State(map[], r.state.config, None);
            Hydrate(booted, [Guild(g, guildName, ChannelFound(Fetched))]).registry
              == map[g := Monitor(JInt(channel), JInt(id), guildName)]
  {
    var r := SetupCommand(s, g, guildName, true, page, channel, Sent(id));
    var booted := State(map[], r.state.config, None);
    var gd := Guild(g, guildName, ChannelFound(Fetched));
    assert Hydrate(booted, [gd]) == Hydrate(HydrateGuild(booted, gd), []);
  }

  /** A disabled monitor stays off after a restart. */
  lemma DisableSurvivesRestart(s: State, g: GuildId, name: string, probe: Probe)
    requires g in s.registry
    ensures var r := DisableCommand(s, g, true);
            var booted := State(map[], r.state.config, None);
            Hydrate(booted, [Guild(g, name, probe)]) == booted
  {
    var r := DisableCommand(s, g, true);
    var booted := State(map[], r.state.config, None);
    var gd := Guild(g, name, probe);
    assert Hydrate(booted, [gd]) == Hydrate(HydrateGuild(booted, gd), []);
  }
}
