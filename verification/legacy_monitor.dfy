/**
  The older single-guild FiveM status monitor. It keeps one channel id
  and one message id in memory, reads them at startup from the entry of
  the first guild the bot is in, and persists them only when the monitor
  is configured or disabled: the tick repairs the message in memory only
  and never writes the document.
*/
module LegacyMonitor {
  import opened Wrappers
  import opened Config
  import opened StatusParser
  import opened Monitor

  /** The cog's fields (`JNull` is `None`) and the persisted document. */
  datatype LState = LState(channel: Json, message: Json, config: Config, lastStatus: Option<Snapshot>)

  /** Both ids are set: the only situation in which the monitor works. */
  predicate BothIds(s: LState) {
    Truthy(s.channel) && Truthy(s.message)
  }

  // ---------------------------------------------------------------------
  // Startup (setup_monitor_from_config)
  // ---------------------------------------------------------------------

  /** Loads the ids of `firstGuild`'s entry, then checks them against
      Discord. The document is only read. */
  function Startup(s: LState, firstGuild: Option<GuildId>, probe: Probe): (r: LState)
    ensures r.config == s.config && r.lastStatus == s.lastStatus
    ensures firstGuild.None? || GuildFields(s.config, firstGuild.value).None? ==> r == s
    ensures firstGuild.Some? && GuildFields(s.config, firstGuild.value).Some? ==>
              var f := GuildFields(s.config, firstGuild.value).value;
              var ch, msg := Lookup(f, ChannelKey), Lookup(f, MessageKey);
              && (!(Truthy(ch) && Truthy(msg)) ==> r.channel == ch && r.message == msg)
              && (Truthy(ch) && Truthy(msg) && probe.ChannelMissing? ==> r.channel == JNull && r.message == JNull)
              && (Truthy(ch) && Truthy(msg) && probe == ChannelFound(FetchNotFound) ==> r.channel == ch && r.message == JNull)
              && (Truthy(ch) && Truthy(msg) && probe != ChannelMissing && probe != ChannelFound(FetchNotFound) ==>
                    r.channel == ch && r.message == msg)
  {
    match firstGuild
    case None => s
    case Some(g) =>
      match GuildFields(s.config, g)
      case None => s
      case Some(f) =>
        var loaded := s.(channel := Lookup(f, ChannelKey), message := Lookup(f, MessageKey));
        if !BothIds(loaded) then loaded
        else
          match probe
          case ChannelMissing => loaded.(channel := JNull, message := JNull)
          case ChannelFound(FetchNotFound) => loaded.(message := JNull)
          case _ => loaded
  }

  // ---------------------------------------------------------------------
  // The tick (status_monitor)
  // ---------------------------------------------------------------------

  /** One run of the loop; `page` is the status page (`None` when the
      download fails) and `a` Discord's answers. */
  function Tick(s: LState, page: Option<string>, a: Answer): (r: LState)
    ensures r.config == s.config
    ensures !BothIds(s) || page.None? ==> r == s
    ensures BothIds(s) && page.Some? ==>
              && r.lastStatus == Some(Parse(page.value))
              && r.channel == s.channel
              && (a.channelResolves && a.edit == EditNotFound && a.send.Sent? ==> r.message == JInt(a.send.id))
              && (!(a.channelResolves && a.edit == EditNotFound && a.send.Sent?) ==> r.message == s.message)
  {
    if !BothIds(s) then s
    else
      match page
      case None => s
      case Some(text) =>
        var s1 := s.(lastStatus := Some(Parse(text)));
        if !a.channelResolves then s1
        else
          match a.edit
          case EditNotFound =>
            // the lost message is replaced in memory only; a failed send
            // escapes to the outer handler
            if a.send.Sent? then s1.(message := JInt(a.send.id)) else s1
          case _ => s1
  }

  // ---------------------------------------------------------------------
  // Commands
  // ---------------------------------------------------------------------

  /** `/configurar_estado_fivem` (single-guild): stores both ids in memory
      and in guild `g`'s entry, without an active flag. */
  function SetupCommand(s: LState, g: GuildId, isAdmin: bool, page: Option<string>, channel: int, send: Send): (r: LResponse)
    ensures r.reply == Configured <==> isAdmin && page.Some? && send.Sent?
    ensures r.reply != Configured ==> r.state == s
    ensures r.reply == Configured ==>
              && r.state.channel == JInt(channel) && r.state.message == JInt(send.id)
              && r.state.lastStatus == Some(Parse(page.value))
              && GuildFields(r.state.config, g).Some?
              && Lookup(GuildFields(r.state.config, g).value, ChannelKey) == JInt(channel)
              && Lookup(GuildFields(r.state.config, g).value, MessageKey) == JInt(send.id)
              && Lookup(GuildFields(r.state.config, g).value, ActiveKey) == Lookup(FieldsOrEmpty(s.config, g), ActiveKey)
              && OthersUnchanged(s.config, r.state.config, g)
  {
    if !isAdmin then LResponse(s, NoPermission)
    else
      match page
      case None => LResponse(s, StatusUnavailable)
      case Some(text) =>
        match send
        case Sent(id) =>
          var c := SetGuildKey(SetGuildKey(s.config, g, ChannelKey, JInt(channel)), g, MessageKey, JInt(id));
          LResponse(LState(JInt(channel), JInt(id), c, Some(Parse(text))), Configured)
        case _ => LResponse(s, CommandFailed)
  }

  /** `/desactivar_estado_fivem` (single-guild): only when both ids are
      set; clears them and removes both keys from guild `g`'s entry. */
  function DisableCommand(s: LState, g: GuildId, isAdmin: bool): (r: LResponse)
    ensures r.reply == Disabled <==> isAdmin && BothIds(s)
    ensures r.reply != Disabled ==> r.state == s
    ensures r.reply == Disabled ==>
              && r.state.channel == JNull && r.state.message == JNull && r.state.lastStatus.None?
              && OthersUnchanged(s.config, r.state.config, g)
              && (GuildFields(s.config, g).None? ==> r.state.config == s.config)
              && (GuildFields(s.config, g).Some? ==>
                    && GuildFields(r.state.config, g).Some?
                    && GuildFields(r.state.config, g).value.Keys
                         == GuildFields(s.config, g).value.Keys - {ChannelKey, MessageKey}
                    && forall k :: k in GuildFields(r.state.config, g).value ==>
                         GuildFields(r.state.config, g).value[k] == GuildFields(s.config, g).value[k])
  {
    if !isAdmin then LResponse(s, NoPermission)
    else if !BothIds(s) then LResponse(s, NotConfigured)
    else
      var c := if GuildFields(s.config, g).None? then s.config
               else DeleteGuildKey(DeleteGuildKey(s.config, g, ChannelKey), g, MessageKey);
      LResponse(LState(JNull, JNull, c, None), Disabled)
  }

  /** `/forzar_actualizacion_fivem` (single-guild). */
  function ForceUpdateCommand(s: LState, canManage: bool, page: Option<string>, a: Answer): (r: LResponse)
    ensures r.reply == Forced <==> canManage && BothIds(s)
    ensures r.reply == Forced ==> r.state == Tick(s, page, a)
    ensures r.reply != Forced ==> r.state == s
  {
    if !canManage then LResponse(s, NoPermission)
    else if !BothIds(s) then LResponse(s, NotConfigured)
    else LResponse(Tick(s, page, a), Forced)
  }

  datatype LResponse = LResponse(state: LState, reply: Reply)

  // ---------------------------------------------------------------------
  // Properties across operations
  // ---------------------------------------------------------------------

  /** A monitor configured in the first guild is reloaded after a restart
      when its message still exists. */
  lemma SetupSurvivesRestart(s: LState, g: GuildId, page: Option<string>, channel: int, id: int)
    requires page.Some? && channel != 0 && id != 0
    ensures var r := SetupCommand(s, g, true, page, channel, Sent(id)).state;
            var booted := Startup(LState(JNull, JNull, r.config, None), Some(g), ChannelFound(Fetched));
            booted.channel == JInt(channel) && booted.message == JInt(id)
  {
  }

  /** The message a tick re-posts is not persisted: after a restart the
      monitor looks for the deleted message again, drops its id, and from
      then on every tick does nothing. */
  lemma RepairLostOnRestart(s: LState, g: GuildId, text: string, a: Answer, page: Option<string>, b: Answer)
    requires BothIds(s) && a.channelResolves && a.edit == EditNotFound && a.send.Sent?
    requires GuildFields(s.config, g).Some?
    requires Lookup(GuildFields(s.config, g).value, ChannelKey) == s.channel
    requires Lookup(GuildFields(s.config, g).value, MessageKey) == s.message
    ensures var t := Tick(s, Some(text), a);
            var booted := Startup(LState(JNull, JNull, t.config, None), Some(g), ChannelFound(FetchNotFound));
            && booted.message == JNull
            && Tick(booted, page, b) == booted
  {
  }
}
