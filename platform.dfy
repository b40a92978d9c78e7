/** The chat platform's entities as the bot sees them: plain snapshots of
    roles, voice channels, members, guilds and command contexts. The
    platform's own behaviour is not modelled; what the bot asks of it is
    recorded in an action log by the modules that use these types. */
module Platform {
  import opened Common

  type MemberId = int

  /** Roles compare by id on the platform, so the model compares `id`s. */
  datatype Role = Role(id: int, name: string)

  datatype Channel = Channel(id: int, name: string)

  /** A guild member: `voice` is the voice channel they sit in, if any, and
      `nick` their per-guild display-name override, if any. */
  datatype Member = Member(
    id: MemberId,
    name: string,
    roles: seq<Role>,
    voice: Option<Channel>,
    nick: Option<string>)

  datatype Guild = Guild(
    id: int,
    roles: seq<Role>,
    channels: seq<Channel>,
    members: seq<Member>)

  /** Who issued a command: a guild member, or a plain user (direct message). */
  datatype Author = GuildMember(member: Member) | DirectUser(userId: int, userName: string)
  {
    function Id(): int {
      match this
      case GuildMember(m) => m.id
      case DirectUser(id, _) => id
    }
  }

  /** A command context: the guild it happened in (none for a direct
      message), its author, and whether the bot has a voice client there. */
  datatype Context = Context(guild: Option<Guild>, author: Author, voiceClient: bool)

  /** The voice channel of the context's author; a plain user has none. */
  function AuthorVoice(ctx: Context): (r: Option<Channel>)
    ensures r.Some? ==> ctx.author.GuildMember? && ctx.author.member.voice == r
  {
    match ctx.author
    case GuildMember(m) => m.voice
    case DirectUser(_, _) => None
  }

  /** True when one of `roles` is `role` (compared by id); `None` is in no
      role list. */
  predicate HoldsRole(roles: seq<Role>, role: Option<Role>) {
    role.Some? && exists i :: 0 <= i < |roles| && roles[i].id == role.value.id
  }

  /** The platform's lookup of a member by user name or nickname: the first
      member of the guild with that name or nick. */
  function GetMemberNamed(g: Guild, name: string): (r: Option<Member>)
    ensures r.Some? ==> r.value in g.members && (r.value.name == name || r.value.nick == Some(name))
    ensures r.None? ==> forall m :: m in g.members ==> m.name != name && m.nick != Some(name)
  {
    match FirstWhere(g.members, (m: Member) => m.name == name || m.nick == Some(name))
    case Some(i) => Some(g.members[i])
    case None => None
  }

  /** The platform's lookup of a member by id. */
  function GetMember(g: Guild, id: MemberId): (r: Option<Member>)
    ensures r.Some? ==> r.value in g.members && r.value.id == id
    ensures r.None? ==> forall m :: m in g.members ==> m.id != id
  {
    match FirstWhere(g.members, (m: Member) => m.id == id)
    case Some(i) => Some(g.members[i])
    case None => None
  }
}
