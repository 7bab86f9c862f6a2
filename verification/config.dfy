/**
  The `config.json` document as an immutable value.

  The bot reads and rewrites one JSON document. Its top level holds a
  `servers` object keyed by `str(guild.id)`, each entry an object of
  settings (channel ids, role-id lists, flags); a few handlers also use
  top-level keys directly. Every handler loads the document, edits a copy
  and writes it back, so each handler is modelled as a pure function from
  the old document to the new one.
*/
module Config {
  import opened Wrappers

  /** The JSON values the bot stores: ids, id lists, flags, emoji strings. */
  datatype Json = JNull | JBool(b: bool) | JInt(i: int) | JStr(s: string) | JIds(ids: seq<int>)

  /** Python truthiness of a stored value (`if not x:`). */
  predicate Truthy(j: Json) {
    match j
    case JNull => false
    case JBool(b) => b
    case JInt(i) => i != 0
    case JStr(s) => |s| > 0
    case JIds(l) => |l| > 0
  }

  /** Python's `j == id` for a stored value and an integer id: `True`
      and `False` equal 1 and 0. */
  predicate IsId(j: Json, id: int) {
    match j
    case JInt(i) => i == id
    case JBool(b) => id == (if b then 1 else 0)
    case _ => false
  }

  type Fields = map<string, Json>

  /** `top` holds every top-level key except `servers`; `servers` is `None`
      when the document has no `servers` object. */
  datatype Config = Config(top: Fields, servers: Option<map<string, Fields>>)

  type GuildId = nat

  // ---------------------------------------------------------------------
  // str(guild_id)
  // ---------------------------------------------------------------------

  function Digit(d: nat): (c: char)
    requires d < 10
    ensures '0' <= c <= '9'
  {
    ('0' as int + d) as char
  }

  /** `str(g)`: the decimal rendering of a guild id, the key under `servers`. */
  function Key(g: GuildId): (r: string)
    ensures 1 <= |r|
    ensures forall i :: 0 <= i < |r| ==> '0' <= r[i] <= '9'
    decreases g
  {
    if g < 10 then [Digit(g)] else Key(g / 10) + [Digit(g % 10)]
  }

  /** Distinct guilds never share a configuration entry. */
  lemma {:induction false} KeyInjective(a: GuildId, b: GuildId)
    requires Key(a) == Key(b)
    ensures a == b
    decreases a
  {
    if a < 10 && b < 10 {
    } else if a < 10 || b < 10 {
      // one rendering has a single digit, the other at least two
      assert false;
    } else {
      var ka, kb := Key(a / 10), Key(b / 10);
      assert Key(a) == ka + [Digit(a % 10)];
      assert Key(b) == kb + [Digit(b % 10)];
      assert |ka| == |kb|;
      assert Key(a)[..|ka|] == ka && Key(b)[..|kb|] == kb;
      KeyInjective(a / 10, b / 10);
      assert Key(a)[|ka|] == Digit(a % 10);
    }
  }

  lemma KeysDistinct()
    ensures forall a: GuildId, b: GuildId :: a != b ==> Key(a) != Key(b)
  {
    forall a: GuildId, b: GuildId | Key(a) == Key(b)
      ensures a == b
    {
      KeyInjective(a, b);
    }
  }

  // ---------------------------------------------------------------------
  // Reading
  // ---------------------------------------------------------------------

  /** `d.get(k)`: a missing key reads as `None`. */
  function Lookup(f: Fields, k: string): Json {
    if k in f then f[k] else JNull
  }

  /** `config['servers'][str(g)]` when both levels exist. */
  function GuildFields(c: Config, g: GuildId): Option<Fields> {
    if c.servers.Some? && Key(g) in c.servers.value then Some(c.servers.value[Key(g)]) else None
  }

  /** `config.get('servers', {}).get(str(g), {})`. */
  function FieldsOrEmpty(c: Config, g: GuildId): Fields {
    GuildFields(c, g).GetOr(map[])
  }

  /** Nothing outside guild `g`'s entry differs between `c` and `d`. */
  ghost predicate OthersUnchanged(c: Config, d: Config, g: GuildId) {
    && d.top == c.top
    && forall h: GuildId :: h != g ==> GuildFields(d, h) == GuildFields(c, h)
  }

  // ---------------------------------------------------------------------
  // Writing
  // ---------------------------------------------------------------------

  /** Replaces guild `g`'s entry, first creating `servers` when missing. */
  function PutGuild(c: Config, g: GuildId, f: Fields): (r: Config)
    ensures GuildFields(r, g) == Some(f)
    ensures OthersUnchanged(c, r, g)
  {
    KeysDistinct();
    var servers := c.servers.GetOr(map[]);
    Config(c.top, Some(servers[Key(g) := f]))
  }

  /** The idiom `servers.setdefault(gid, {})[k] = v`: creates the missing
      maps, then sets one key of guild `g`. */
  function SetGuildKey(c: Config, g: GuildId, k: string, v: Json): (r: Config)
    ensures GuildFields(r, g) == Some(FieldsOrEmpty(c, g)[k := v])
    ensures Lookup(GuildFields(r, g).value, k) == v
    ensures forall k' :: k' != k ==> Lookup(GuildFields(r, g).value, k') == Lookup(FieldsOrEmpty(c, g), k')
    ensures GuildFields(r, g).value.Keys == FieldsOrEmpty(c, g).Keys + {k}
    ensures OthersUnchanged(c, r, g)
  {
    PutGuild(c, g, FieldsOrEmpty(c, g)[k := v])
  }

  /** `del config['servers'][str(g)][k]` (a no-op when `k` is absent). */
  function DeleteGuildKey(c: Config, g: GuildId, k: string): (r: Config)
    requires GuildFields(c, g).Some?
    ensures GuildFields(r, g) == Some(GuildFields(c, g).value - {k})
    ensures GuildFields(r, g).value.Keys == GuildFields(c, g).value.Keys - {k}
    ensures forall k' :: k' != k && k' in GuildFields(c, g).value ==>
              GuildFields(r, g).value[k'] == GuildFields(c, g).value[k']
    ensures OthersUnchanged(c, r, g)
  {
    PutGuild(c, g, GuildFields(c, g).value - {k})
  }

  /** `config[k] = v` on the top level. */
  function SetTop(c: Config, k: string, v: Json): (r: Config)
    ensures Lookup(r.top, k) == v
    ensures forall k' :: k' != k ==> Lookup(r.top, k') == Lookup(c.top, k')
    ensures r.servers == c.servers
  {
    Config(c.top[k := v], c.servers)
  }

  /** Setting a key and deleting it again leaves the entry as it was
      without that key. */
  lemma SetThenDeleteKey(c: Config, g: GuildId, k: string, v: Json)
    ensures GuildFields(DeleteGuildKey(SetGuildKey(c, g, k, v), g, k), g) == Some(FieldsOrEmpty(c, g) - {k})
  {
    assert FieldsOrEmpty(c, g)[k := v] - {k} == FieldsOrEmpty(c, g) - {k};
  }

  lemma OthersUnchangedTrans(c: Config, d: Config, e: Config, g: GuildId)
    requires OthersUnchanged(c, d, g) && OthersUnchanged(d, e, g)
    ensures OthersUnchanged(c, e, g)
  {
  }
}
