/**
  The welcome cog: a new member is greeted in the guild's configured
  welcome channel, and administrators set or clear that channel. The
  document is read with `load_config`, which falls back to an empty
  document when the file is missing or not valid JSON, and written with
  `save_config`, whose boolean result decides the reply.
*/
module Welcome {
  import opened Wrappers
  import opened Config

  const WelcomeKey: string := "welcome_channel_id"

  /** The document `load_config` returns: the parsed file, or `{}` when it
      cannot be read (`None`). */
  function Loaded(file: Option<Config>): (c: Config)
    ensures file.Some? ==> c == file.value
    ensures file.None? ==> c.top == map[] && c.servers.None?
  {
    file.GetOr(Config(map[], None))
  }

  /** `on_member_join`: the channel the greeting is posted in, if any. A
      falsy stored id, or one `get_channel` does not resolve, means no
      greeting; only a stored integer can name a channel. */
  function GreetingChannel(file: Option<Config>, g: GuildId, hasChannel: int -> bool): (r: Option<int>)
    ensures r.Some? <==>
              var j := Lookup(FieldsOrEmpty(Loaded(file), g), WelcomeKey);
              j.JInt? && j.i != 0 && hasChannel(j.i)
    ensures r.Some? ==> Lookup(FieldsOrEmpty(Loaded(file), g), WelcomeKey) == JInt(r.value)
    ensures GuildFields(Loaded(file), g).None? ==> r.None?
  {
    match Lookup(FieldsOrEmpty(Loaded(file), g), WelcomeKey)
    case JInt(i) => if i != 0 && hasChannel(i) then Some(i) else None
    case _ => None
  }

  datatype Reply = NotAdmin | NoWelcomeConfig | Saved | SaveFailed

  /** The file after a command, and the reply. */
  datatype Result = Result(file: Option<Config>, reply: Reply)

  /** `/set_welcome_channel`: administrators only; success is reported
      exactly when `save_config` returns `True`. */
  function SetWelcomeChannel(file: Option<Config>, g: GuildId, isAdmin: bool, channel: int, saveOk: bool): (r: Result)
    ensures r.reply == Saved <==> isAdmin && saveOk
    ensures r.reply == NotAdmin <==> !isAdmin
    ensures r.reply == SaveFailed <==> isAdmin && !saveOk
    ensures r.reply != Saved ==> r.file == file
    ensures r.reply == Saved ==>
              && r.file.Some?
              && GuildFields(r.file.value, g) == Some(FieldsOrEmpty(Loaded(file), g)[WelcomeKey := JInt(channel)])
              && OthersUnchanged(Loaded(file), r.file.value, g)
  {
    if !isAdmin then Result(file, NotAdmin)
    else
      var c := SetGuildKey(Loaded(file), g, WelcomeKey, JInt(channel));
      if saveOk then Result(Some(c), Saved) else Result(file, SaveFailed)
  }

  /** `/disable_welcome`: administrators only; "no configuration" when
      `servers` or the guild's entry is missing; otherwise removes the
      welcome channel (if any) and keeps every other key. */
  function DisableWelcome(file: Option<Config>, g: GuildId, isAdmin: bool, saveOk: bool): (r: Result)
    ensures r.reply == NotAdmin <==> !isAdmin
    ensures r.reply == NoWelcomeConfig <==> isAdmin && GuildFields(Loaded(file), g).None?
    ensures r.reply == Saved <==> isAdmin && GuildFields(Loaded(file), g).Some? && saveOk
    ensures r.reply != Saved ==> r.file == file
    ensures r.reply == Saved ==>
              && r.file.Some?
              && GuildFields(r.file.value, g) == Some(GuildFields(Loaded(file), g).value - {WelcomeKey})
              && OthersUnchanged(Loaded(file), r.file.value, g)
  {
    if !isAdmin then Result(file, NotAdmin)
    else
      var c := Loaded(file);
      if GuildFields(c, g).None? then Result(file, NoWelcomeConfig)
      else
        var c' := DeleteGuildKey(c, g, WelcomeKey);
        if saveOk then Result(Some(c'), Saved) else Result(file, SaveFailed)
  }

  /** After the welcome channel is set, members who join are greeted
      there when it resolves. */
  lemma SetThenGreet(file: Option<Config>, g: GuildId, channel: int, hasChannel: int -> bool)
    requires channel != 0 && hasChannel(channel)
    ensures var r := SetWelcomeChannel(file, g, true, channel, true);
            GreetingChannel(r.file, g, hasChannel) == Some(channel)
  {
  }

  /** After the welcome is disabled, nobody is greeted. */
  lemma DisableStopsGreeting(file: Option<Config>, g: GuildId, hasChannel: int -> bool)
    ensures var r := DisableWelcome(file, g, true, true);
            r.reply == Saved ==> GreetingChannel(r.file, g, hasChannel).None?
  {
  }

  /** Setting and then disabling leaves the guild's entry as it was,
      without a welcome channel. */
  lemma SetThenDisable(file: Option<Config>, g: GuildId, channel: int)
    ensures var r1 := SetWelcomeChannel(file, g, true, channel, true);
            var r2 := DisableWelcome(r1.file, g, true, true);
            r2.reply == Saved && GuildFields(r2.file.value, g) == Some(FieldsOrEmpty(Loaded(file), g) - {WelcomeKey})
  {
    SetThenDeleteKey(Loaded(file), g, WelcomeKey, JInt(channel));
  }

  /** When the file cannot be read, a successful set writes a document
      holding nothing but the welcome channel: every other setting in the
      file is lost. */
  lemma UnreadableFileReplaced(g: GuildId, channel: int)
    ensures var r := SetWelcomeChannel(None, g, true, channel, true);
            && r.file.Some? && r.file.value.top == map[]
            && GuildFields(r.file.value, g) == Some(map[WelcomeKey := JInt(channel)])
            && forall h: GuildId :: h != g ==> GuildFields(r.file.value, h).None?
  {
    var r := SetWelcomeChannel(None, g, true, channel, true);
    forall h: GuildId | h != g
      ensures GuildFields(r.file.value, h).None?
    {
      assert GuildFields(Loaded(None), h).None?;
    }
  }
}
