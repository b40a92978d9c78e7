/** The punishment cog: the four per-member backups of an imprisoned
    member (roles, voice channel, nickname, escape phrase), the recording
    sessions per context, the list of background tasks, and the commands and
    callbacks that change them. Everything the bot asks of the chat platform
    is appended to an action log; the platform's answers that the code
    depends on (the members' snapshots, who is in the prison channel, which
    edits fail) are inputs. */
module Punishment {
  import opened Common
  import opened Platform
  import opened Lookups
  import opened Recognition
  import opened ContextMaps

  type TaskId = nat

  /** The bot's settings, fixed at start-up. */
  datatype Config = Config(
    adminRoles: seq<string>,
    adminUsernames: seq<string>,
    prisonerRoleName: string,
    prisonChannelName: string,
    forbiddenLines: seq<string>)

  /** The text messages the bot sends to the command's channel. */
  datatype Message =
    | NotOnServer
    | NoPermission
    | MemberNotFound(username: string)
    | CannotSetRole(roleName: string, memberName: string)
    | Imprisoned(memberName: string, channelName: string, escapePhrase: string, autoPardonTime: real)
    | CloseToEscape(memberName: string, sentence: string, score: Score, phrase: string)
    | CloseToForbidden(memberName: string, sentence: string, score: Score, line: string)
    | PardonedUser(memberName: string)
    | PrisonTimeEnded(names: seq<string>)

  /** What the bot asks of the platform, in order. */
  datatype Action =
    | Send(message: Message)
    | MoveMember(member: MemberId, channel: Channel)
    | EditRoles(member: MemberId, roles: seq<Role>)
    | RenameAsPrisoner(member: MemberId, name: string)
    | RestoreNick(member: MemberId, nick: Option<string>)
    | MoveVoiceClient(channel: Channel)
    | ConnectVoice(channel: Channel)
    | ScheduleAutoPardon(prisoner: Member, delay: real)
    | Announce(member: MemberId, escapePhrase: string)
    | StartRecording
    | PlayRebuke(member: MemberId)
    | ScheduleMute(member: MemberId)
    | Disconnect

  /** A running speech-recognition session, stored per context. */
  datatype Session = Recording(ctx: Context)

  /** The four backup maps, taken together as one value. */
  datatype Registry = Registry(
    roles: map<MemberId, seq<Role>>,
    channels: map<MemberId, Option<Channel>>,
    nicks: map<MemberId, Option<string>>,
    phrases: map<MemberId, string>)

  /** Exceptions that end a command or callback early. */
  datatype Fault =
    | NotInGuild          // the context has no guild
    | NoChannels          // the channel search ran over an empty channel list
    | PrisonerRoleMissing // the prisoner role does not exist, so its name cannot be read
    | AuthorNotInVoice    // the author's voice channel was read but there is none
    | MemberUnresolved    // the speaker is not a member of the guild
    | UnhashableKey       // a (member id, roles) pair was used as a member id

  datatype Status = Completed | Rejected | Raised(fault: Fault)

  // ----- Rights -----------------------------------------------------------

  /** The author may punish: one of their roles is an admin role, or their
      name is an admin user name. */
  predicate Authorized(author: Member, config: Config) {
    (exists i :: 0 <= i < |author.roles| && author.roles[i].name in config.adminRoles)
    || author.name in config.adminUsernames
  }

  /** The rights check of `punish`: a search of the author's roles, then the
      user-name list. */
  method CheckRights(author: Member, config: Config) returns (hasRights: bool)
    ensures hasRights == Authorized(author, config)
  {
    hasRights := false;
    var i := 0;
    while i < |author.roles|
      invariant 0 <= i <= |author.roles|
      invariant !hasRights
      invariant forall j :: 0 <= j < i ==> author.roles[j].name !in config.adminRoles
    {
      if author.roles[i].name in config.adminRoles {
        hasRights := true;
        break;
      }
      i := i + 1;
    }
    if author.name in config.adminUsernames {
      hasRights := true;
    }
  }

  /** The member `punish` acts on: only when the author is a guild member
      with rights and the name resolves. */
  function PunishTarget(config: Config, ctx: Context, username: string): (t: Option<Member>)
    ensures t.Some? ==> ctx.author.GuildMember? && Authorized(ctx.author.member, config)
                        && ctx.guild.Some? && t.value in ctx.guild.value.members
  {
    if ctx.author.GuildMember? && Authorized(ctx.author.member, config) && ctx.guild.Some?
    then GetMemberNamed(ctx.guild.value, username)
    else None
  }

  // ----- Pardoning members ----------------------------------------------

  /** What pardoning works on: the backups and the actions asked of the
      platform so far. */
  datatype World = World(reg: Registry, log: seq<Action>)

  /** The outcome of pardoning, and false when an exception stopped it. */
  datatype Pardoned = Pardoned(world: World, ok: bool)

  /** The actions `after` added to `before`. */
  function NewActions(before: seq<Action>, after: seq<Action>): seq<Action> {
    if |before| <= |after| then after[|before|..] else []
  }

  /** `after` continues the log `before`. */
  predicate Extends(before: seq<Action>, after: seq<Action>) {
    |before| <= |after| && after[..|before|] == before
  }

  /** True when `m` sits in the prison channel. */
  predicate InPrison(m: Member, prison: Channel) {
    m.voice.Some? && m.voice.value.id == prison.id
  }

  /** The channel backup of `id` when it names a channel. */
  function SavedChannel(reg: Registry, id: MemberId): Option<Channel> {
    if id in reg.channels then reg.channels[id] else None
  }

  /** First step: the saved roles come back, and their backup goes, only if
      the member still holds the prisoner role and has a backup. */
  function RestoreRoles(w: World, m: Member, prisonerRole: Option<Role>): World {
    if HoldsRole(m.roles, prisonerRole) && m.id in w.reg.roles
    then World(w.reg.(roles := w.reg.roles - {m.id}), w.log + [EditRoles(m.id, w.reg.roles[m.id])])
    else w
  }

  /** Second step: a member in the prison channel is moved to the saved
      channel, or to the author's when none was saved, and the channel
      backup goes; a member elsewhere keeps the backup. Both branches read
      the author's voice channel when they need it, and the step fails
      (None) when the author has none. */
  function MoveOut(w: World, m: Member, prison: Channel, authorVoice: Option<Channel>): Option<World> {
    var saved := SavedChannel(w.reg, m.id);
    var channels := if m.id in w.reg.channels then w.reg.channels - {m.id} else w.reg.channels;
    if InPrison(m, prison) then
      if saved.Some? then
        Some(World(w.reg.(channels := channels), w.log + [MoveMember(m.id, saved.value)]))
      else if authorVoice.Some? then
        Some(World(w.reg.(channels := channels), w.log + [MoveMember(m.id, authorVoice.value)]))
      else None
    else if authorVoice.Some? then Some(w)
    else None
  }

  /** Third step: the escape phrase goes. */
  function DropPhrase(w: World, m: Member): World {
    if m.id in w.reg.phrases then w.(reg := w.reg.(phrases := w.reg.phrases - {m.id})) else w
  }

  /** Fourth step: a saved nickname is restored, and its backup goes, only
      when the edit succeeds. */
  function RestoreNickname(w: World, m: Member, nickFails: set<MemberId>): World {
    if m.id in w.reg.nicks && m.id !in nickFails
    then World(w.reg.(nicks := w.reg.nicks - {m.id}), w.log + [RestoreNick(m.id, w.reg.nicks[m.id])])
    else w
  }

  /** The pardon of one member: the four steps, then the message; a failed
      move stops the pardon after the roles step. */
  function PardonOne(w: World, m: Member, prison: Channel, prisonerRole: Option<Role>,
                     authorVoice: Option<Channel>, nickFails: set<MemberId>): Pardoned
  {
    var afterRoles := RestoreRoles(w, m, prisonerRole);
    match MoveOut(afterRoles, m, prison, authorVoice)
    case None => Pardoned(afterRoles, false)
    case Some(moved) =>
      var afterNick := RestoreNickname(DropPhrase(moved, m), m, nickFails);
      Pardoned(afterNick.(log := afterNick.log + [Send(PardonedUser(m.name))]), true)
  }

  /** The pardon loop over a list of members, stopping at the first
      exception. */
  function PardonAll(w: World, members: seq<Member>, prison: Channel, prisonerRole: Option<Role>,
                     authorVoice: Option<Channel>, nickFails: set<MemberId>): Pardoned
    decreases |members|
  {
    if members == [] then Pardoned(w, true)
    else
      var first := PardonOne(w, members[0], prison, prisonerRole, authorVoice, nickFails);
      if !first.ok then first
      else PardonAll(first.world, members[1..], prison, prisonerRole, authorVoice, nickFails)
  }

  /** Every backup map of `after` is part of the same map of `before`. */
  predicate Shrinks(before: Registry, after: Registry) {
    && (forall id :: id in after.roles ==> id in before.roles && after.roles[id] == before.roles[id])
    && (forall id :: id in after.channels ==> id in before.channels && after.channels[id] == before.channels[id])
    && (forall id :: id in after.nicks ==> id in before.nicks && after.nicks[id] == before.nicks[id])
    && (forall id :: id in after.phrases ==> id in before.phrases && after.phrases[id] == before.phrases[id])
  }

  /** The value under `k`, if any. */
  function Lookup<K, V>(m: map<K, V>, k: K): Option<V> {
    if k in m then Some(m[k]) else None
  }

  /** Everything the registry holds for one member. */
  datatype Entries = Entries(roles: Option<seq<Role>>, channel: Option<Option<Channel>>,
                             nick: Option<Option<string>>, phrase: Option<string>)

  function EntriesOf(reg: Registry, id: MemberId): Entries {
    Entries(Lookup(reg.roles, id), Lookup(reg.channels, id), Lookup(reg.nicks, id), Lookup(reg.phrases, id))
  }

  /** Two registries hold the same entry (or none) for `id` in every map. */
  predicate SameEntries(a: Registry, b: Registry, id: MemberId) {
    EntriesOf(a, id) == EntriesOf(b, id)
  }

  // The facts of each step of a pardon, then of the whole pardon of one
  // member, assembled from them.

  /** The actions added over two successive extensions of a log are those
      of the first followed by those of the second. */
  lemma NewActionsSplit(a: seq<Action>, b: seq<Action>, c: seq<Action>)
    requires Extends(a, b) && Extends(b, c)
    ensures Extends(a, c)
    ensures NewActions(a, c) == NewActions(a, b) + NewActions(b, c)
  {
    assert c[..|a|] == c[..|b|][..|a|];
    assert c[|a|..] == c[|a|..|b|] + c[|b|..];
    assert c[|a|..|b|] == b[|a|..];
  }

  /** `after` continues `before` and adds no action of the kind `bad`. */
  predicate ExtendsWithout(before: seq<Action>, after: seq<Action>, bad: Action -> bool) {
    Extends(before, after) && forall a :: a in NewActions(before, after) ==> !bad(a)
  }

  lemma ExtendsWithoutTrans(a: seq<Action>, b: seq<Action>, c: seq<Action>, bad: Action -> bool)
    requires ExtendsWithout(a, b, bad) && ExtendsWithout(b, c, bad)
    ensures ExtendsWithout(a, c, bad)
  {
    NewActionsSplit(a, b, c);
  }

  lemma ShrinksTrans(a: Registry, b: Registry, c: Registry)
    requires Shrinks(a, b) && Shrinks(b, c)
    ensures Shrinks(a, c)
  {
  }

  /** The roles step: the role backup is consumed, and the roles edited,
      exactly when the member holds the prisoner role and has a backup;
      nothing else changes. */
  lemma RestoreRolesStep(w: World, m: Member, prisonerRole: Option<Role>)
    ensures var r := RestoreRoles(w, m, prisonerRole);
      && Extends(w.log, r.log) && Shrinks(w.reg, r.reg)
      && r.reg.channels == w.reg.channels && r.reg.nicks == w.reg.nicks && r.reg.phrases == w.reg.phrases
      && (forall id :: id != m.id ==> EntriesOf(r.reg, id) == EntriesOf(w.reg, id))
      && (forall a :: a in NewActions(w.log, r.log) ==> a.EditRoles?)
    ensures var r := RestoreRoles(w, m, prisonerRole);
      && (HoldsRole(m.roles, prisonerRole) && m.id in w.reg.roles ==>
            m.id !in r.reg.roles && NewActions(w.log, r.log) == [EditRoles(m.id, w.reg.roles[m.id])])
      && (!(HoldsRole(m.roles, prisonerRole) && m.id in w.reg.roles) ==> r == w)
  {
    var r := RestoreRoles(w, m, prisonerRole);
    if HoldsRole(m.roles, prisonerRole) && m.id in w.reg.roles {
      AppendExtends(w.log, [EditRoles(m.id, w.reg.roles[m.id])]);
    } else {
      AppendExtends(w.log, []);
      assert w.log + [] == w.log;
    }
  }

  /** A successful move step: a prisoner is moved, to the saved channel or
      else the author's, and loses the channel backup; anyone else is left
      as they are. Only the channel backup changes. */
  lemma MoveOutStep(w: World, m: Member, prison: Channel, authorVoice: Option<Channel>)
    requires MoveOut(w, m, prison, authorVoice).Some?
    ensures var moved := MoveOut(w, m, prison, authorVoice).value;
      && Extends(w.log, moved.log) && Shrinks(w.reg, moved.reg)
      && moved.reg.roles == w.reg.roles && moved.reg.nicks == w.reg.nicks && moved.reg.phrases == w.reg.phrases
      && (forall id :: id != m.id ==> EntriesOf(moved.reg, id) == EntriesOf(w.reg, id))
      && (forall a :: a in NewActions(w.log, moved.log) ==> a.MoveMember?)
    ensures var moved := MoveOut(w, m, prison, authorVoice).value;
      && (InPrison(m, prison) ==>
            && m.id !in moved.reg.channels
            && NewActions(w.log, moved.log) ==
                 [MoveMember(m.id, if SavedChannel(w.reg, m.id).Some? then SavedChannel(w.reg, m.id).value else authorVoice.value)])
      && (!InPrison(m, prison) ==> moved == w)
  {
    var moved := MoveOut(w, m, prison, authorVoice).value;
    if InPrison(m, prison) {
      AppendExtends(w.log, NewActions(w.log, moved.log));
    } else {
      AppendExtends(w.log, []);
      assert w.log + [] == w.log;
    }
  }

  /** The phrase and nickname steps: the escape phrase goes; a saved
      nickname is restored, and its backup goes, unless the edit fails. */
  lemma FinishStep(w: World, m: Member, nickFails: set<MemberId>)
    ensures var n := RestoreNickname(DropPhrase(w, m), m, nickFails);
      && Extends(w.log, n.log) && Shrinks(w.reg, n.reg)
      && n.reg.roles == w.reg.roles && n.reg.channels == w.reg.channels
      && (forall id :: id != m.id ==> EntriesOf(n.reg, id) == EntriesOf(w.reg, id))
      && (forall a :: a in NewActions(w.log, n.log) ==> a.RestoreNick?)
    ensures var n := RestoreNickname(DropPhrase(w, m), m, nickFails);
      && m.id !in n.reg.phrases
      && (m.id in n.reg.nicks <==> m.id in w.reg.nicks && m.id in nickFails)
  {
    var d := DropPhrase(w, m);
    var n := RestoreNickname(d, m, nickFails);
    if m.id in d.reg.nicks && m.id !in nickFails {
      AppendExtends(w.log, [RestoreNick(m.id, d.reg.nicks[m.id])]);
    } else {
      AppendExtends(w.log, []);
      assert w.log + [] == w.log;
    }
  }

  /** The pardon of one member in terms of its steps. */
  lemma PardonOneUnfold(w: World, m: Member, prison: Channel, prisonerRole: Option<Role>,
                        authorVoice: Option<Channel>, nickFails: set<MemberId>)
    ensures var p := PardonOne(w, m, prison, prisonerRole, authorVoice, nickFails);
      var r := RestoreRoles(w, m, prisonerRole);
      && (MoveOut(r, m, prison, authorVoice).None? ==> p == Pardoned(r, false))
      && (MoveOut(r, m, prison, authorVoice).Some? ==>
            var n := RestoreNickname(DropPhrase(MoveOut(r, m, prison, authorVoice).value, m), m, nickFails);
            && p.ok && p.world.reg == n.reg && p.world.log == n.log + [Send(PardonedUser(m.name))])
  {
  }

  /** The role backup is consumed, and the roles restored first, exactly
      when the member holds the prisoner role and has a backup; otherwise
      the backup stays and no roles are edited. */
  lemma PardonOneRoles(w: World, m: Member, prison: Channel, prisonerRole: Option<Role>,
                       authorVoice: Option<Channel>, nickFails: set<MemberId>)
    ensures var p := PardonOne(w, m, prison, prisonerRole, authorVoice, nickFails);
      var added := NewActions(w.log, p.world.log);
      && Extends(w.log, p.world.log)
      && (HoldsRole(m.roles, prisonerRole) && m.id in w.reg.roles ==>
            (m.id !in p.world.reg.roles && |added| > 0 && added[0] == EditRoles(m.id, w.reg.roles[m.id])))
      && (!(HoldsRole(m.roles, prisonerRole) && m.id in w.reg.roles) ==>
            (p.world.reg.roles == w.reg.roles && forall a :: a in added ==> !a.EditRoles?))
  {
    var p := PardonOne(w, m, prison, prisonerRole, authorVoice, nickFails);
    var r := RestoreRoles(w, m, prisonerRole);
    RestoreRolesStep(w, m, prisonerRole);
    PardonOneUnfold(w, m, prison, prisonerRole, authorVoice, nickFails);
    var noEdit := (a: Action) => a.EditRoles?;
    if MoveOut(r, m, prison, authorVoice).Some? {
      var moved := MoveOut(r, m, prison, authorVoice).value;
      var n := RestoreNickname(DropPhrase(moved, m), m, nickFails);
      MoveOutStep(r, m, prison, authorVoice);
      FinishStep(moved, m, nickFails);
      AppendExtends(n.log, [Send(PardonedUser(m.name))]);
      assert ExtendsWithout(r.log, moved.log, noEdit);
      assert ExtendsWithout(moved.log, n.log, noEdit);
      assert ExtendsWithout(n.log, p.world.log, noEdit);
      ExtendsWithoutTrans(r.log, moved.log, n.log, noEdit);
      ExtendsWithoutTrans(r.log, n.log, p.world.log, noEdit);
      NewActionsSplit(w.log, r.log, p.world.log);
    } else {
      AppendExtends(w.log, NewActions(w.log, r.log));
    }
  }

  /** A completed pardon of a member in the prison channel consumes the
      channel backup and moves the member to the saved channel, or to the
      author's channel when none was saved. */
  lemma PardonOneReleases(w: World, m: Member, prison: Channel, prisonerRole: Option<Role>,
                          authorVoice: Option<Channel>, nickFails: set<MemberId>)
    requires InPrison(m, prison)
    ensures var p := PardonOne(w, m, prison, prisonerRole, authorVoice, nickFails);
      p.ok ==> m.id !in p.world.reg.channels
    ensures var p := PardonOne(w, m, prison, prisonerRole, authorVoice, nickFails);
      p.ok ==>
        MoveMember(m.id, if SavedChannel(w.reg, m.id).Some? then SavedChannel(w.reg, m.id).value else authorVoice.value)
          in NewActions(w.log, p.world.log)
  {
    var p := PardonOne(w, m, prison, prisonerRole, authorVoice, nickFails);
    var r := RestoreRoles(w, m, prisonerRole);
    PardonOneUnfold(w, m, prison, prisonerRole, authorVoice, nickFails);
    if p.ok {
      var moved := MoveOut(r, m, prison, authorVoice).value;
      var n := RestoreNickname(DropPhrase(moved, m), m, nickFails);
      RestoreRolesStep(w, m, prisonerRole);
      MoveOutStep(r, m, prison, authorVoice);
      FinishStep(moved, m, nickFails);
      AppendExtends(n.log, [Send(PardonedUser(m.name))]);
      NewActionsSplit(w.log, r.log, moved.log);
      NewActionsSplit(w.log, moved.log, n.log);
      NewActionsSplit(w.log, n.log, p.world.log);
      assert NewActions(r.log, moved.log)[0] in NewActions(w.log, moved.log);
    }
  }

  /** A member outside the prison channel keeps the channel backup and is
      not moved. */
  lemma PardonOneLeavesInPlace(w: World, m: Member, prison: Channel, prisonerRole: Option<Role>,
                               authorVoice: Option<Channel>, nickFails: set<MemberId>)
    requires !InPrison(m, prison)
    ensures var p := PardonOne(w, m, prison, prisonerRole, authorVoice, nickFails);
      p.world.reg.channels == w.reg.channels
    ensures var p := PardonOne(w, m, prison, prisonerRole, authorVoice, nickFails);
      forall a :: a in NewActions(w.log, p.world.log) ==> !a.MoveMember?
  {
    var p := PardonOne(w, m, prison, prisonerRole, authorVoice, nickFails);
    var r := RestoreRoles(w, m, prisonerRole);
    var noMove := (a: Action) => a.MoveMember?;
    RestoreRolesStep(w, m, prisonerRole);
    PardonOneUnfold(w, m, prison, prisonerRole, authorVoice, nickFails);
    assert ExtendsWithout(w.log, r.log, noMove);
    if p.ok {
      var n := RestoreNickname(DropPhrase(r, m), m, nickFails);
      MoveOutStep(r, m, prison, authorVoice);
      FinishStep(r, m, nickFails);
      AppendExtends(n.log, [Send(PardonedUser(m.name))]);
      assert ExtendsWithout(r.log, n.log, noMove);
      assert ExtendsWithout(n.log, p.world.log, noMove);
      ExtendsWithoutTrans(w.log, r.log, n.log, noMove);
      ExtendsWithoutTrans(w.log, n.log, p.world.log, noMove);
    }
  }

  /** A completed pardon always drops the escape phrase, drops the nickname
      backup only when the nickname edit succeeded, and ends with the
      message. */
  lemma PardonOnePhraseAndNick(w: World, m: Member, prison: Channel, prisonerRole: Option<Role>,
                               authorVoice: Option<Channel>, nickFails: set<MemberId>)
    ensures var p := PardonOne(w, m, prison, prisonerRole, authorVoice, nickFails);
      p.ok ==>
        && m.id !in p.world.reg.phrases
        && (m.id in p.world.reg.nicks <==> m.id in w.reg.nicks && m.id in nickFails)
        && |p.world.log| > 0 && p.world.log[|p.world.log| - 1] == Send(PardonedUser(m.name))
  {
    var r := RestoreRoles(w, m, prisonerRole);
    PardonOneUnfold(w, m, prison, prisonerRole, authorVoice, nickFails);
    if MoveOut(r, m, prison, authorVoice).Some? {
      RestoreRolesStep(w, m, prisonerRole);
      MoveOutStep(r, m, prison, authorVoice);
      FinishStep(MoveOut(r, m, prison, authorVoice).value, m, nickFails);
    }
  }

  /** The pardon stops early only when it has to read the author's voice
      channel and the author has none; it has then only restored the roles. */
  lemma PardonOneFails(w: World, m: Member, prison: Channel, prisonerRole: Option<Role>,
                       authorVoice: Option<Channel>, nickFails: set<MemberId>)
    ensures var p := PardonOne(w, m, prison, prisonerRole, authorVoice, nickFails);
      && (!p.ok <==> authorVoice.None? && !(InPrison(m, prison) && SavedChannel(w.reg, m.id).Some?))
      && (!p.ok ==> p.world == RestoreRoles(w, m, prisonerRole))
  {
    RestoreRolesStep(w, m, prisonerRole);
    PardonOneUnfold(w, m, prison, prisonerRole, authorVoice, nickFails);
  }

  /** Pardoning only ever removes backups. */
  lemma PardonOneShrinks(w: World, m: Member, prison: Channel, prisonerRole: Option<Role>,
                         authorVoice: Option<Channel>, nickFails: set<MemberId>)
    ensures Shrinks(w.reg, PardonOne(w, m, prison, prisonerRole, authorVoice, nickFails).world.reg)
  {
    var r := RestoreRoles(w, m, prisonerRole);
    RestoreRolesStep(w, m, prisonerRole);
    PardonOneUnfold(w, m, prison, prisonerRole, authorVoice, nickFails);
    if MoveOut(r, m, prison, authorVoice).Some? {
      var moved := MoveOut(r, m, prison, authorVoice).value;
      var n := RestoreNickname(DropPhrase(moved, m), m, nickFails);
      MoveOutStep(r, m, prison, authorVoice);
      FinishStep(moved, m, nickFails);
      ShrinksTrans(w.reg, r.reg, moved.reg);
      ShrinksTrans(w.reg, moved.reg, n.reg);
    }
  }

  /** Pardoning one member never touches another member's entries. */
  lemma PardonOneFrame(w: World, m: Member, prison: Channel, prisonerRole: Option<Role>,
                       authorVoice: Option<Channel>, nickFails: set<MemberId>, id: MemberId)
    requires id != m.id
    ensures SameEntries(w.reg, PardonOne(w, m, prison, prisonerRole, authorVoice, nickFails).world.reg, id)
  {
    var r := RestoreRoles(w, m, prisonerRole);
    RestoreRolesStep(w, m, prisonerRole);
    PardonOneUnfold(w, m, prison, prisonerRole, authorVoice, nickFails);
    if MoveOut(r, m, prison, authorVoice).Some? {
      var moved := MoveOut(r, m, prison, authorVoice).value;
      MoveOutStep(r, m, prison, authorVoice);
      FinishStep(moved, m, nickFails);
    }
  }

  /** The pardon of a list only removes backups. */
  lemma {:induction false} PardonAllShrinks(w: World, members: seq<Member>, prison: Channel, prisonerRole: Option<Role>,
                                            authorVoice: Option<Channel>, nickFails: set<MemberId>)
    ensures Shrinks(w.reg, PardonAll(w, members, prison, prisonerRole, authorVoice, nickFails).world.reg)
    decreases |members|
  {
    if members != [] {
      var first := PardonOne(w, members[0], prison, prisonerRole, authorVoice, nickFails);
      PardonOneShrinks(w, members[0], prison, prisonerRole, authorVoice, nickFails);
      if first.ok {
        PardonAllShrinks(first.world, members[1..], prison, prisonerRole, authorVoice, nickFails);
      }
    }
  }

  /** The pardon of a list leaves the entries of a member not in the list
      as they were. */
  lemma {:induction false} PardonAllFrame(w: World, members: seq<Member>, prison: Channel, prisonerRole: Option<Role>,
                                          authorVoice: Option<Channel>, nickFails: set<MemberId>, id: MemberId)
    requires forall i :: 0 <= i < |members| ==> members[i].id != id
    ensures SameEntries(w.reg, PardonAll(w, members, prison, prisonerRole, authorVoice, nickFails).world.reg, id)
    decreases |members|
  {
    if members != [] {
      var first := PardonOne(w, members[0], prison, prisonerRole, authorVoice, nickFails);
      PardonOneFrame(w, members[0], prison, prisonerRole, authorVoice, nickFails, id);
      if first.ok {
        assert forall i :: 0 <= i < |members[1..]| ==> members[1..][i].id == members[i + 1].id;
        PardonAllFrame(first.world, members[1..], prison, prisonerRole, authorVoice, nickFails, id);
      }
    }
  }

  /** When the pardon of a list completes, no member of the list has an
      escape phrase any more. */
  lemma {:induction false} PardonAllClearsPhrases(w: World, members: seq<Member>, prison: Channel, prisonerRole: Option<Role>,
                                                  authorVoice: Option<Channel>, nickFails: set<MemberId>)
    ensures var p := PardonAll(w, members, prison, prisonerRole, authorVoice, nickFails);
      p.ok ==> forall i :: 0 <= i < |members| ==> members[i].id !in p.world.reg.phrases
    decreases |members|
  {
    if members != [] {
      var first := PardonOne(w, members[0], prison, prisonerRole, authorVoice, nickFails);
      PardonOnePhraseAndNick(w, members[0], prison, prisonerRole, authorVoice, nickFails);
      if first.ok {
        PardonAllClearsPhrases(first.world, members[1..], prison, prisonerRole, authorVoice, nickFails);
        PardonAllShrinks(first.world, members[1..], prison, prisonerRole, authorVoice, nickFails);
        var p := PardonAll(w, members, prison, prisonerRole, authorVoice, nickFails);
        forall i | 0 <= i < |members| ensures p.ok ==> members[i].id !in p.world.reg.phrases {
          if i > 0 {
            assert members[i] == members[1..][i - 1];
          }
        }
      }
    }
  }

  /** `after` continues the log `before` and adds no request to disconnect. */
  predicate QuietlyExtends(before: seq<Action>, after: seq<Action>) {
    Extends(before, after) && Disconnect !in NewActions(before, after)
  }

  lemma QuietlyExtendsTrans(a: seq<Action>, b: seq<Action>, c: seq<Action>)
    requires QuietlyExtends(a, b) && QuietlyExtends(b, c)
    ensures QuietlyExtends(a, c)
  {
    assert c[..|a|] == c[..|b|][..|a|];
    assert NewActions(a, c) == NewActions(a, b) + NewActions(b, c);
  }

  /** The pardon of one member only appends to the log, and never asks to
      disconnect. */
  lemma PardonOneAppends(w: World, m: Member, prison: Channel, prisonerRole: Option<Role>,
                         authorVoice: Option<Channel>, nickFails: set<MemberId>)
    ensures QuietlyExtends(w.log, PardonOne(w, m, prison, prisonerRole, authorVoice, nickFails).world.log)
  {
    var p := PardonOne(w, m, prison, prisonerRole, authorVoice, nickFails);
    var r := RestoreRoles(w, m, prisonerRole);
    RestoreRolesStep(w, m, prisonerRole);
    PardonOneUnfold(w, m, prison, prisonerRole, authorVoice, nickFails);
    assert QuietlyExtends(w.log, r.log);
    if p.ok {
      var moved := MoveOut(r, m, prison, authorVoice).value;
      var n := RestoreNickname(DropPhrase(moved, m), m, nickFails);
      MoveOutStep(r, m, prison, authorVoice);
      FinishStep(moved, m, nickFails);
      AppendExtends(n.log, [Send(PardonedUser(m.name))]);
      assert QuietlyExtends(r.log, moved.log);
      assert QuietlyExtends(moved.log, n.log);
      assert QuietlyExtends(n.log, p.world.log);
      QuietlyExtendsTrans(w.log, r.log, moved.log);
      QuietlyExtendsTrans(w.log, moved.log, n.log);
      QuietlyExtendsTrans(w.log, n.log, p.world.log);
    }
  }

  /** The pardon of a list only appends to the log, and never asks to
      disconnect. */
  lemma {:induction false} PardonAllAppends(w: World, members: seq<Member>, prison: Channel, prisonerRole: Option<Role>,
                                            authorVoice: Option<Channel>, nickFails: set<MemberId>)
    ensures QuietlyExtends(w.log, PardonAll(w, members, prison, prisonerRole, authorVoice, nickFails).world.log)
    decreases |members|
  {
    if members != [] {
      var first := PardonOne(w, members[0], prison, prisonerRole, authorVoice, nickFails);
      PardonOneAppends(w, members[0], prison, prisonerRole, authorVoice, nickFails);
      if first.ok {
        PardonAllAppends(first.world, members[1..], prison, prisonerRole, authorVoice, nickFails);
        QuietlyExtendsTrans(w.log, first.world.log, PardonAll(first.world, members[1..], prison, prisonerRole, authorVoice, nickFails).world.log);
      }
    }
  }

  // ----- Counting the prisoners left --------------------------------------

  /** A member of the prison channel counts as a prisoner when they hold
      the prisoner role or still have an escape phrase. */
  predicate IsPrisoner(m: Member, prisonerRole: Option<Role>, phrases: map<MemberId, string>) {
    HoldsRole(m.roles, prisonerRole) || m.id in phrases
  }

  /** The number of prisoners among `occupants`. */
  function PrisonerCount(occupants: seq<Member>, prisonerRole: Option<Role>, phrases: map<MemberId, string>): nat
    decreases |occupants|
  {
    if occupants == [] then 0
    else PrisonerCount(occupants[..|occupants| - 1], prisonerRole, phrases)
         + (if IsPrisoner(occupants[|occupants| - 1], prisonerRole, phrases) then 1 else 0)
  }

  /** The count is zero exactly when no occupant is a prisoner. */
  lemma {:induction false} NoPrisonersIff(occupants: seq<Member>, prisonerRole: Option<Role>, phrases: map<MemberId, string>)
    ensures PrisonerCount(occupants, prisonerRole, phrases) == 0 <==>
              forall i :: 0 <= i < |occupants| ==> !IsPrisoner(occupants[i], prisonerRole, phrases)
    decreases |occupants|
  {
    if occupants != [] {
      var init := occupants[..|occupants| - 1];
      NoPrisonersIff(init, prisonerRole, phrases);
      assert forall i :: 0 <= i < |init| ==> init[i] == occupants[i];
    }
  }

  /** The counting loop over the prison channel's members. */
  method CountPrisoners(occupants: seq<Member>, prisonerRole: Option<Role>, phrases: map<MemberId, string>) returns (n: nat)
    ensures n == PrisonerCount(occupants, prisonerRole, phrases)
    ensures n == 0 <==> forall i :: 0 <= i < |occupants| ==> !IsPrisoner(occupants[i], prisonerRole, phrases)
  {
    n := 0;
    var i := 0;
    while i < |occupants|
      invariant 0 <= i <= |occupants|
      invariant n == PrisonerCount(occupants[..i], prisonerRole, phrases)
    {
      assert occupants[..i + 1][..i] == occupants[..i];
      var m := occupants[i];
      if HoldsRole(m.roles, prisonerRole) {
        n := n + 1;
      } else if m.id in phrases {
        n := n + 1;
      }
      i := i + 1;
    }
    assert occupants[..i] == occupants;
    NoPrisonersIff(occupants, prisonerRole, phrases);
  }

  // ----- The whole of pardon_internal ----------------------------------------

  /** Everything `pardon_internal` decides: the backups and the log, the
      sessions, and how it ends. */
  datatype Effect = Effect(world: World, slots: map<int, Session>, status: Status)

  function PardonEffect(config: Config, w: World, slots: map<int, Session>, ctx: Context,
                        members: seq<Member>, occupants: seq<Member>, nickFails: set<MemberId>): Effect
  {
    if ctx.guild.None? then Effect(w, slots, Raised(NotInGuild))
    else
      var g := ctx.guild.value;
      match ChannelByName(g.channels, config.prisonChannelName)
      case None => Effect(w, slots, Raised(NoChannels))
      case Some(prison) =>
        var role := RoleByName(g.roles, config.prisonerRoleName);
        var p := PardonAll(w, members, prison, role, AuthorVoice(ctx), nickFails);
        if !p.ok then Effect(p.world, slots, Raised(AuthorNotInVoice))
        else if PrisonerCount(occupants, role, p.world.reg.phrases) == 0 && ctx.voiceClient then
          Effect(p.world.(log := p.world.log + [Disconnect]), slots - {ConvertKey(ctx)}, Completed)
        else Effect(p.world, slots, Completed)
  }

  /** After a completed pardon the session of the context is gone and the
      bot disconnected exactly when it has a voice client and no member of
      the prison channel holds the prisoner role or an escape phrase; every
      other session stays. */
  lemma PardonEffectDisconnects(config: Config, w: World, slots: map<int, Session>, ctx: Context,
                                members: seq<Member>, occupants: seq<Member>, nickFails: set<MemberId>)
    requires PardonEffect(config, w, slots, ctx, members, occupants, nickFails).status == Completed
    ensures var e := PardonEffect(config, w, slots, ctx, members, occupants, nickFails);
      var role := RoleByName(ctx.guild.value.roles, config.prisonerRoleName);
      var gone := ctx.voiceClient && forall i :: 0 <= i < |occupants| ==> !IsPrisoner(occupants[i], role, e.world.reg.phrases);
      && Extends(w.log, e.world.log)
      && (gone ==> (e.slots == slots - {ConvertKey(ctx)} && |e.world.log| > 0 && e.world.log[|e.world.log| - 1] == Disconnect))
      && (!gone ==> (e.slots == slots && Disconnect !in NewActions(w.log, e.world.log)))
  {
    var g := ctx.guild.value;
    var prison := ChannelByName(g.channels, config.prisonChannelName).value;
    var role := RoleByName(g.roles, config.prisonerRoleName);
    var p := PardonAll(w, members, prison, role, AuthorVoice(ctx), nickFails);
    NoPrisonersIff(occupants, role, p.world.reg.phrases);
    PardonAllAppends(w, members, prison, role, AuthorVoice(ctx), nickFails);
    var e := PardonEffect(config, w, slots, ctx, members, occupants, nickFails);
    assert e.world.log[..|w.log|] == w.log;
  }

  // ----- Recognition events -------------------------------------------------

  /** How a transcribed utterance is taken: ignored (no escape phrase, or
      blank), an exception (no guild, or the speaker is not a member), or
      the reactions of the decision rule. */
  datatype Hearing = Ignored | Unresolved(fault: Fault) | Heard(member: Member, phrase: string, reactions: seq<Reaction>)

  function Hear(config: Config, phrases: map<MemberId, string>, ctx: Context, user: MemberId, text: string,
                ratio: (string, string) -> Score): Hearing
  {
    if user !in phrases then Ignored
    else if ctx.guild.None? then Unresolved(NotInGuild)
    else match GetMember(ctx.guild.value, user)
      case None => Unresolved(MemberUnresolved)
      case Some(m) =>
        if Strip(text) == [] then Ignored
        else Heard(m, phrases[user], React(Candidates(Strip(text)), phrases[user], config.forbiddenLines, ratio))
  }

  /** Speakers without an escape phrase and blank utterances never lead to
      any reaction; a heard utterance is judged against the speaker's own
      phrase, which is never blank while the cog's invariant holds. */
  lemma HearGate(config: Config, phrases: map<MemberId, string>, ctx: Context, user: MemberId, text: string,
                 ratio: (string, string) -> Score)
    ensures user !in phrases ==> Hear(config, phrases, ctx, user, text, ratio) == Ignored
    ensures user in phrases && ctx.guild.Some? && GetMember(ctx.guild.value, user).Some?
              && AllSpace(text) ==>
              Hear(config, phrases, ctx, user, text, ratio) == Ignored
    ensures Hear(config, phrases, ctx, user, text, ratio).Heard? ==>
              var h := Hear(config, phrases, ctx, user, text, ratio);
              user in phrases && h.phrase == phrases[user] && h.member.id == user && Strip(text) != []
    ensures (forall id :: id in phrases ==> phrases[id] != []) && Hear(config, phrases, ctx, user, text, ratio).Heard? ==>
              Hear(config, phrases, ctx, user, text, ratio).phrase != []
  {
    if user in phrases && ctx.guild.Some? && GetMember(ctx.guild.value, user).Some? && AllSpace(text) {
      StripBlankIff(text);
      assert Strip(text) == [];
    }
  }

  predicate EndsInEscape(rs: seq<Reaction>) {
    rs != [] && rs[|rs| - 1].Escaped?
  }

  /** The messages and rebukes the reactions produce, in order. */
  function ReactionActions(m: Member, phrase: string, rs: seq<Reaction>): seq<Action>
    decreases |rs|
  {
    if rs == [] then []
    else
      (match rs[0]
       case Escaped(s, score) => [Send(CloseToEscape(m.name, s, score, phrase))]
       case Warned(s, score) => [Send(CloseToEscape(m.name, s, score, phrase))]
       case Rebuked(s, line, score) => [Send(CloseToForbidden(m.name, s, score, line)), PlayRebuke(m.id)])
      + ReactionActions(m, phrase, rs[1..])
  }

  // ----- Background tasks ---------------------------------------------------

  /** `list.remove(x)` after an `x in list` check: the first occurrence goes,
      nothing else changes. */
  function RemoveFirst(s: seq<TaskId>, x: TaskId): (r: seq<TaskId>)
    ensures x !in s ==> r == s
    ensures x in s ==> exists i :: 0 <= i < |s| && s[i] == x && x !in s[..i] && r == s[..i] + s[i + 1..]
    ensures multiset(r) == multiset(s) - multiset{x}
  {
    match FirstWhere(s, (t: TaskId) => t == x)
    case None => s
    case Some(i) =>
      assert s == s[..i] + [s[i]] + s[i + 1..];
      assert forall j :: 0 <= j < i ==> s[..i][j] != x;
      s[..i] + s[i + 1..]
  }

  // ----- Pardon targets -------------------------------------------------------

  /** Whom `pardon` hands to the pardon loop. */
  datatype Targets = Resolved(members: seq<Member>) | NamedNotFound | Unresolvable(fault: Fault)

  /** As written: a name is looked up; without a name every entry of the role
      backup is looked up as an (id, roles) pair, which fails as soon as
      there is one. */
  function PardonTargets(ctx: Context, username: string, roleBackup: map<MemberId, seq<Role>>): Targets {
    if username != [] then
      if ctx.guild.None? then Unresolvable(NotInGuild)
      else match GetMemberNamed(ctx.guild.value, username)
        case None => NamedNotFound
        case Some(m) => Resolved([m])
    else if roleBackup == map[] then Resolved([])
    else Unresolvable(UnhashableKey)
  }

  /** The pardon of everyone pardons no one while anyone is imprisoned. */
  lemma PardonEveryoneFails(ctx: Context, roleBackup: map<MemberId, seq<Role>>)
    requires roleBackup != map[]
    ensures PardonTargets(ctx, [], roleBackup) == Unresolvable(UnhashableKey)
  {
  }

  /** The members the blanket pardon is meant to reach: every guild member
      with a role backup. */
  function ImprisonedMembers(members: seq<Member>, roleBackup: map<MemberId, seq<Role>>): seq<Member>
    decreases |members|
  {
    if members == [] then []
    else (if members[0].id in roleBackup then [members[0]] else []) + ImprisonedMembers(members[1..], roleBackup)
  }

  /** Intended targets: exactly the guild members that have a role backup. */
  function PardonTargetsIntended(ctx: Context, username: string, roleBackup: map<MemberId, seq<Role>>): Targets {
    if username != [] then PardonTargets(ctx, username, roleBackup)
    else if ctx.guild.None? then Unresolvable(NotInGuild)
    else Resolved(ImprisonedMembers(ctx.guild.value.members, roleBackup))
  }

  /** The intended blanket pardon reaches every imprisoned guild member and
      no one else. */
  lemma {:induction false} ImprisonedMembersExact(members: seq<Member>, roleBackup: map<MemberId, seq<Role>>)
    ensures forall m :: m in ImprisonedMembers(members, roleBackup) <==> m in members && m.id in roleBackup
    decreases |members|
  {
    if members != [] {
      ImprisonedMembersExact(members[1..], roleBackup);
      assert members == [members[0]] + members[1..];
    }
  }

  lemma PardonTargetsIntendedReachesAll(ctx: Context, roleBackup: map<MemberId, seq<Role>>)
    requires ctx.guild.Some?
    ensures var t := PardonTargetsIntended(ctx, [], roleBackup);
      t.Resolved? && forall m :: m in t.members <==> m in ctx.guild.value.members && m.id in roleBackup
  {
    ImprisonedMembersExact(ctx.guild.value.members, roleBackup);
  }

  /** The names listed in the auto-pardon message. */
  function Names(members: seq<Member>): (names: seq<string>)
    ensures |names| == |members|
    ensures forall i :: 0 <= i < |members| ==> names[i] == members[i].name
  {
    seq(|members|, i requires 0 <= i < |members| => members[i].name)
  }

  /** The log after a punishment whose prisoner role exists: move to the
      prison channel; set the prisoner role (or report that it could not be
      set); bring the voice client to the prison channel; rename; an
      auto-pardon when a time was given; the message; the spoken
      announcement. */
  function ImprisonLog(log: seq<Action>, m: Member, prison: Channel, role: Role, voiceClient: bool, escapePhrase: string,
                       autoPardonTime: real, roleEditFails: bool): seq<Action>
  {
    log
    + [MoveMember(m.id, prison)]
    + [if roleEditFails then Send(CannotSetRole(role.name, m.name)) else EditRoles(m.id, [role])]
    + [if voiceClient then MoveVoiceClient(prison) else ConnectVoice(prison)]
    + [RenameAsPrisoner(m.id, m.name)]
    + (if autoPardonTime != 0.0 then [ScheduleAutoPardon(m, autoPardonTime)] else [])
    + [Send(Imprisoned(m.name, prison.name, escapePhrase, autoPardonTime))]
    + [Announce(m.id, escapePhrase)]
  }

  /** The actions a punishment adds, in order. */
  function ImprisonActions(m: Member, prison: Channel, role: Role, voiceClient: bool, escapePhrase: string,
                           autoPardonTime: real, roleEditFails: bool): seq<Action>
  {
    [MoveMember(m.id, prison),
     if roleEditFails then Send(CannotSetRole(role.name, m.name)) else EditRoles(m.id, [role]),
     if voiceClient then MoveVoiceClient(prison) else ConnectVoice(prison),
     RenameAsPrisoner(m.id, m.name)]
    + (if autoPardonTime != 0.0 then [ScheduleAutoPardon(m, autoPardonTime)] else [])
    + [Send(Imprisoned(m.name, prison.name, escapePhrase, autoPardonTime)), Announce(m.id, escapePhrase)]
  }

  /** The log after a punishment is the log before followed by the
      punishment's actions. */
  lemma ImprisonLogAppends(log: seq<Action>, m: Member, prison: Channel, role: Role, voiceClient: bool, escapePhrase: string,
                           autoPardonTime: real, roleEditFails: bool)
    ensures ImprisonLog(log, m, prison, role, voiceClient, escapePhrase, autoPardonTime, roleEditFails)
            == log + ImprisonActions(m, prison, role, voiceClient, escapePhrase, autoPardonTime, roleEditFails)
  {
    var r := ImprisonLog(log, m, prison, role, voiceClient, escapePhrase, autoPardonTime, roleEditFails);
    var t := ImprisonActions(m, prison, role, voiceClient, escapePhrase, autoPardonTime, roleEditFails);
    assert |r| == |log + t|;
    forall k | 0 <= k < |r| ensures r[k] == (log + t)[k] {
      if k < |log| {
        assert r[k] == log[k];
      }
    }
  }

  /** Appending continues the log with exactly the appended actions. */
  lemma AppendExtends(log: seq<Action>, t: seq<Action>)
    ensures Extends(log, log + t) && NewActions(log, log + t) == t
  {
    assert (log + t)[..|log|] == log;
    assert (log + t)[|log|..] == t;
  }

  /** A punishment only appends to the log: six actions, seven with an
      auto-pardon; the move to the prison comes first and the announcement
      last; the auto-pardon is scheduled exactly when a time was given and
      the prisoner role is set exactly when the edit does not fail. */
  lemma ImprisonLogShape(log: seq<Action>, m: Member, prison: Channel, role: Role, voiceClient: bool, escapePhrase: string,
                         autoPardonTime: real, roleEditFails: bool)
    ensures var r := ImprisonLog(log, m, prison, role, voiceClient, escapePhrase, autoPardonTime, roleEditFails);
      Extends(log, r) && |r| == |log| + (if autoPardonTime != 0.0 then 7 else 6)
    ensures var r := ImprisonLog(log, m, prison, role, voiceClient, escapePhrase, autoPardonTime, roleEditFails);
      r[|log|] == MoveMember(m.id, prison) && r[|r| - 1] == Announce(m.id, escapePhrase)
    ensures var r := ImprisonLog(log, m, prison, role, voiceClient, escapePhrase, autoPardonTime, roleEditFails);
      ScheduleAutoPardon(m, autoPardonTime) in NewActions(log, r) <==> autoPardonTime != 0.0
    ensures var r := ImprisonLog(log, m, prison, role, voiceClient, escapePhrase, autoPardonTime, roleEditFails);
      EditRoles(m.id, [role]) in NewActions(log, r) <==> !roleEditFails
  {
    var t := ImprisonActions(m, prison, role, voiceClient, escapePhrase, autoPardonTime, roleEditFails);
    ImprisonLogAppends(log, m, prison, role, voiceClient, escapePhrase, autoPardonTime, roleEditFails);
    AppendExtends(log, t);
    assert (log + t)[|log|] == t[0];
  }

  // ----- The cog ----------------------------------------------------------------

  class PunishmentCog {
    const config: Config
    /** Member id to the roles held before the punishment. */
    var roleBackup: map<MemberId, seq<Role>>
    /** Member id to the voice channel before the punishment (None: not in voice). */
    var channelBackup: map<MemberId, Option<Channel>>
    /** Member id to the nickname before the punishment. */
    var nickBackup: map<MemberId, Option<string>>
    /** Member id to the phrase that frees them. */
    var escapePhrases: map<MemberId, string>
    /** The recording session of each context. */
    const sessions: ContextMap<Session>
    var backgroundTasks: seq<TaskId>
    /** What the bot has asked of the platform so far. */
    var log: seq<Action>

    ghost function Backups(): Registry
      reads this
    {
      Registry(roleBackup, channelBackup, nickBackup, escapePhrases)
    }

    ghost function Now(): World
      reads this
    {
      World(Backups(), log)
    }

    /** An escape phrase is stored only when one was given. An empty phrase
        would be matched by the empty candidates a transcription yields
        (see `HearGate`), so every method keeps this. */
    ghost predicate Valid()
      reads this
    {
      forall id :: id in escapePhrases ==> escapePhrases[id] != []
    }

    constructor (config: Config)
      ensures Valid()
      ensures this.config == config
      ensures Backups() == Registry(map[], map[], map[], map[])
      ensures fresh(sessions) && sessions.entries == map[]
      ensures backgroundTasks == [] && log == []
    {
      this.config := config;
      roleBackup, channelBackup, nickBackup, escapePhrases := map[], map[], map[], map[];
      sessions := new ContextMap();
      backgroundTasks, log := [], [];
    }

    /** `punish`. No backup is written unless the author is a guild member
        with rights and the name resolves; then the role, channel and
        nickname backups are overwritten (an earlier punishment's backups
        are lost) and the escape phrase is stored only when non-empty. */
    method Punish(ctx: Context, username: string, escapePhrase: string, autoPardonTime: real, roleEditFails: bool)
      returns (status: Status)
      requires Valid()
      modifies this
      ensures Valid()
      ensures backgroundTasks == old(backgroundTasks)
      ensures PunishTarget(config, ctx, username).None? ==> Backups() == old(Backups()) && status != Completed
      ensures !ctx.author.GuildMember? ==> status == Rejected && log == old(log) + [Send(NotOnServer)]
      ensures ctx.author.GuildMember? && !Authorized(ctx.author.member, config) ==>
                status == Rejected && log == old(log) + [Send(NoPermission)]
      ensures ctx.author.GuildMember? && Authorized(ctx.author.member, config) && ctx.guild.None? ==>
                status == Raised(NotInGuild) && log == old(log)
      ensures ctx.author.GuildMember? && Authorized(ctx.author.member, config) && ctx.guild.Some?
              && GetMemberNamed(ctx.guild.value, username).None? ==>
                status == Rejected && log == old(log) + [Send(MemberNotFound(username))]
      ensures PunishTarget(config, ctx, username).Some? && ctx.guild.value.channels == [] ==>
                status == Raised(NoChannels) && Backups() == old(Backups()) && log == old(log)
      ensures PunishTarget(config, ctx, username).Some? && ctx.guild.value.channels != [] ==>
                var m := PunishTarget(config, ctx, username).value;
                var prison := ChannelByName(ctx.guild.value.channels, config.prisonChannelName).value;
                var role := RoleByName(ctx.guild.value.roles, config.prisonerRoleName);
                && roleBackup == old(roleBackup)[m.id := m.roles]
                && channelBackup == old(channelBackup)[m.id := m.voice]
                && (role.None? ==>
                      && status == Raised(PrisonerRoleMissing)
                      && nickBackup == old(nickBackup) && escapePhrases == old(escapePhrases)
                      && log == old(log) + [MoveMember(m.id, prison)])
                && (role.Some? ==>
                      && status == Completed
                      && nickBackup == old(nickBackup)[m.id := m.nick]
                      && escapePhrases == (if escapePhrase != [] then old(escapePhrases)[m.id := escapePhrase] else old(escapePhrases))
                      && log == ImprisonLog(old(log), m, prison, role.value, ctx.voiceClient, escapePhrase, autoPardonTime, roleEditFails))
    {
      if !ctx.author.GuildMember? {
        log := log + [Send(NotOnServer)];
        return Rejected;
      }
      var hasRights := CheckRights(ctx.author.member, config);
      if !hasRights {
        log := log + [Send(NoPermission)];
        return Rejected;
      }
      if ctx.guild.None? {
        return Raised(NotInGuild);
      }
      var target := GetMemberNamed(ctx.guild.value, username);
      if target.None? {
        log := log + [Send(MemberNotFound(username))];
        return Rejected;
      }
      var prison := FindChannelByName(ctx.guild.value.channels, config.prisonChannelName);
      if prison.None? {
        return Raised(NoChannels);
      }
      status := Imprison(ctx, target.value, prison.value, escapePhrase, autoPardonTime, roleEditFails);
    }

    /** The part of `punish` after the member and the prison channel are
        found: back up roles and channel, move, swap roles, bring the voice
        client, back up and change the nickname, store the phrase. */
    method Imprison(ctx: Context, member: Member, prison: Channel, escapePhrase: string, autoPardonTime: real, roleEditFails: bool)
      returns (status: Status)
      requires Valid() && ctx.guild.Some?
      modifies this
      ensures Valid()
      ensures backgroundTasks == old(backgroundTasks)
      ensures roleBackup == old(roleBackup)[member.id := member.roles]
      ensures channelBackup == old(channelBackup)[member.id := member.voice]
      ensures RoleByName(ctx.guild.value.roles, config.prisonerRoleName).None? ==>
                && status == Raised(PrisonerRoleMissing)
                && nickBackup == old(nickBackup) && escapePhrases == old(escapePhrases)
                && log == old(log) + [MoveMember(member.id, prison)]
      ensures RoleByName(ctx.guild.value.roles, config.prisonerRoleName).Some? ==>
                && status == Completed
                && nickBackup == old(nickBackup)[member.id := member.nick]
                && escapePhrases == (if escapePhrase != [] then old(escapePhrases)[member.id := escapePhrase] else old(escapePhrases))
      ensures RoleByName(ctx.guild.value.roles, config.prisonerRoleName).Some? ==>
                log == ImprisonLog(old(log), member, prison, RoleByName(ctx.guild.value.roles, config.prisonerRoleName).value,
                                   ctx.voiceClient, escapePhrase, autoPardonTime, roleEditFails)
    {
      roleBackup := roleBackup[member.id := member.roles];
      channelBackup := channelBackup[member.id := member.voice];
      log := log + [MoveMember(member.id, prison)];

      var prisonerRole := FindRoleByName(ctx.guild.value.roles, config.prisonerRoleName);
      if prisonerRole.None? {
        // The role edit fails, and so does the error report that names the role.
        return Raised(PrisonerRoleMissing);
      }
      Confine(member, prison, prisonerRole.value, ctx.voiceClient, escapePhrase, autoPardonTime, roleEditFails, old(log));
      status := Completed;
    }

    /** The rest of `punish` once the prisoner role is known: swap roles,
        bring the voice client, back up and change the nickname, store the
        phrase, schedule the auto-pardon, report and announce. */
    method Confine(member: Member, prison: Channel, role: Role, voiceClient: bool, escapePhrase: string,
                   autoPardonTime: real, roleEditFails: bool, ghost before: seq<Action>)
      requires Valid() && log == before + [MoveMember(member.id, prison)]
      modifies this
      ensures Valid()
      ensures backgroundTasks == old(backgroundTasks)
      ensures roleBackup == old(roleBackup) && channelBackup == old(channelBackup)
      ensures nickBackup == old(nickBackup)[member.id := member.nick]
      ensures escapePhrases == (if escapePhrase != [] then old(escapePhrases)[member.id := escapePhrase] else old(escapePhrases))
      ensures log == ImprisonLog(before, member, prison, role, voiceClient, escapePhrase, autoPardonTime, roleEditFails)
    {
      // A failed role edit is reported instead of applied.
      log := log + [if roleEditFails then Send(CannotSetRole(role.name, member.name)) else EditRoles(member.id, [role])];
      log := log + [if voiceClient then MoveVoiceClient(prison) else ConnectVoice(prison)];
      nickBackup := nickBackup[member.id := member.nick];
      log := log + [RenameAsPrisoner(member.id, member.name)];
      if escapePhrase != [] {
        escapePhrases := escapePhrases[member.id := escapePhrase];
      }
      log := log + (if autoPardonTime != 0.0 then [ScheduleAutoPardon(member, autoPardonTime)] else []);
      log := log + [Send(Imprisoned(member.name, prison.name, escapePhrase, autoPardonTime))];
      log := log + [Announce(member.id, escapePhrase)];
    }

    /** The callback run when the punishment announcement has finished: a
        session is created for the context only when the playback did not
        fail and the context has none yet. */
    method OnAnnouncementFinished(ctx: Context, failed: bool)
      modifies this, sessions
      ensures Backups() == old(Backups()) && backgroundTasks == old(backgroundTasks)
      ensures failed || ConvertKey(ctx) in old(sessions.entries) ==>
                sessions.entries == old(sessions.entries) && log == old(log)
      ensures !failed && ConvertKey(ctx) !in old(sessions.entries) ==>
                sessions.entries == old(sessions.entries)[ConvertKey(ctx) := Recording(ctx)]
                && log == old(log) + [StartRecording]
    {
      if failed {
        return;
      }
      var present := sessions.Contains(ContextItem(ctx));
      if !present {
        sessions.Set(ctx, Recording(ctx));
        log := log + [StartRecording];
      }
    }

    /** The roles step of the pardon loop. */
    method RestoreRolesOf(m: Member, prisonerRole: Option<Role>)
      modifies this
      ensures Now() == RestoreRoles(old(Now()), m, prisonerRole)
      ensures backgroundTasks == old(backgroundTasks)
    {
      if HoldsRole(m.roles, prisonerRole) && m.id in roleBackup {
        var roles := roleBackup[m.id];
        roleBackup := roleBackup - {m.id};
        log := log + [EditRoles(m.id, roles)];
      }
    }

    /** The channel step of the pardon loop; false when it raised. */
    method MoveOutOf(m: Member, prison: Channel, authorVoice: Option<Channel>) returns (ok: bool)
      modifies this
      ensures ok == MoveOut(old(Now()), m, prison, authorVoice).Some?
      ensures ok ==> Now() == MoveOut(old(Now()), m, prison, authorVoice).value
      ensures !ok ==> Now() == old(Now())
      ensures backgroundTasks == old(backgroundTasks)
    {
      if m.voice.Some? && m.voice.value.id == prison.id {
        if m.id in channelBackup && channelBackup[m.id].Some? {
          log := log + [MoveMember(m.id, channelBackup[m.id].value)];
        } else {
          if authorVoice.None? {
            return false;
          }
          log := log + [MoveMember(m.id, authorVoice.value)];
        }
        if m.id in channelBackup {
          channelBackup := channelBackup - {m.id};
        }
      } else if authorVoice.None? {
        // The log line of this branch reads the author's voice channel.
        return false;
      }
      ok := true;
    }

    /** The nickname step of the pardon loop. */
    method RestoreNicknameOf(m: Member, nickFails: set<MemberId>)
      modifies this
      ensures Now() == RestoreNickname(old(Now()), m, nickFails)
      ensures backgroundTasks == old(backgroundTasks)
    {
      if m.id in nickBackup {
        var nick := nickBackup[m.id];
        if m.id !in nickFails {
          log := log + [RestoreNick(m.id, nick)];
          nickBackup := nickBackup - {m.id};
        }
      }
    }

    /** One iteration of the pardon loop. */
    method PardonMember(m: Member, prison: Channel, prisonerRole: Option<Role>,
                        authorVoice: Option<Channel>, nickFails: set<MemberId>) returns (ok: bool)
      modifies this
      ensures Now() == PardonOne(old(Now()), m, prison, prisonerRole, authorVoice, nickFails).world
      ensures ok == PardonOne(old(Now()), m, prison, prisonerRole, authorVoice, nickFails).ok
      ensures backgroundTasks == old(backgroundTasks)
    {
      RestoreRolesOf(m, prisonerRole);
      ok := MoveOutOf(m, prison, authorVoice);
      if !ok {
        return;
      }
      if m.id in escapePhrases {
        escapePhrases := escapePhrases - {m.id};
      }
      RestoreNicknameOf(m, nickFails);
      log := log + [Send(PardonedUser(m.name))];
    }

    /** The loop of `pardon_internal` over the members to pardon. */
    method PardonEach(members: seq<Member>, prison: Channel, prisonerRole: Option<Role>,
                      authorVoice: Option<Channel>, nickFails: set<MemberId>) returns (ok: bool)
      modifies this
      ensures Now() == PardonAll(old(Now()), members, prison, prisonerRole, authorVoice, nickFails).world
      ensures ok == PardonAll(old(Now()), members, prison, prisonerRole, authorVoice, nickFails).ok
      ensures backgroundTasks == old(backgroundTasks)
    {
      ghost var whole := PardonAll(Now(), members, prison, prisonerRole, authorVoice, nickFails);
      var i := 0;
      while i < |members|
        invariant 0 <= i <= |members|
        invariant PardonAll(Now(), members[i..], prison, prisonerRole, authorVoice, nickFails) == whole
        invariant backgroundTasks == old(backgroundTasks)
      {
        assert members[i..][0] == members[i] && members[i..][1..] == members[i + 1..];
        ok := PardonMember(members[i], prison, prisonerRole, authorVoice, nickFails);
        if !ok {
          return;
        }
        i := i + 1;
      }
      ok := true;
    }

    /** `pardon_internal`: pardon each member in turn, then count the
        prisoners left in the prison channel (`occupants`, as the platform
        reports them) and disconnect when there are none. */
    method PardonInternal(ctx: Context, members: seq<Member>, occupants: seq<Member>, nickFails: set<MemberId>)
      returns (status: Status)
      requires Valid()
      modifies this, sessions
      ensures Valid()
      ensures backgroundTasks == old(backgroundTasks)
      ensures Now() == PardonEffect(config, old(Now()), old(sessions.entries), ctx, members, occupants, nickFails).world
      ensures sessions.entries == PardonEffect(config, old(Now()), old(sessions.entries), ctx, members, occupants, nickFails).slots
      ensures status == PardonEffect(config, old(Now()), old(sessions.entries), ctx, members, occupants, nickFails).status
    {
      if ctx.guild.None? {
        return Raised(NotInGuild);
      }
      var prison := FindChannelByName(ctx.guild.value.channels, config.prisonChannelName);
      if prison.None? {
        return Raised(NoChannels);
      }
      var prisonerRole := FindRoleByName(ctx.guild.value.roles, config.prisonerRoleName);
      PardonAllShrinks(Now(), members, prison.value, prisonerRole, AuthorVoice(ctx), nickFails);
      var ok := PardonEach(members, prison.value, prisonerRole, AuthorVoice(ctx), nickFails);
      if !ok {
        return Raised(AuthorNotInVoice);
      }
      var n := CountPrisoners(occupants, prisonerRole, escapePhrases);
      if n == 0 {
        if !ctx.voiceClient {
          return Completed;
        }
        log := log + [Disconnect];
        // A missing session raises a key error, which is caught and logged.
        var _ := sessions.Delete(ctx);
      }
      status := Completed;
    }

    /** `pardon`: a named member, or every imprisoned member of the guild
        (the blanket pardon as intended; `PardonTargets` is the code as
        written). */
    method Pardon(ctx: Context, username: string, occupants: seq<Member>, nickFails: set<MemberId>)
      returns (status: Status)
      requires Valid()
      modifies this, sessions
      ensures Valid()
      ensures backgroundTasks == old(backgroundTasks)
      ensures PardonTargetsIntended(ctx, username, old(roleBackup)).NamedNotFound? ==>
                && status == Rejected && Backups() == old(Backups()) && sessions.entries == old(sessions.entries)
                && log == old(log) + [Send(MemberNotFound(username))]
      ensures PardonTargetsIntended(ctx, username, old(roleBackup)).Unresolvable? ==>
                && status == Raised(PardonTargetsIntended(ctx, username, old(roleBackup)).fault)
                && Now() == old(Now()) && sessions.entries == old(sessions.entries)
      ensures PardonTargetsIntended(ctx, username, old(roleBackup)).Resolved? ==>
                var e := PardonEffect(config, old(Now()), old(sessions.entries), ctx,
                                      PardonTargetsIntended(ctx, username, old(roleBackup)).members, occupants, nickFails);
                Now() == e.world && sessions.entries == e.slots && status == e.status
    {
      var targets := PardonTargetsIntended(ctx, username, roleBackup);
      match targets
      case NamedNotFound =>
        log := log + [Send(MemberNotFound(username))];
        status := Rejected;
      case Unresolvable(fault) =>
        status := Raised(fault);
      case Resolved(members) =>
        status := PardonInternal(ctx, members, occupants, nickFails);
    }

    /** `pardon_after`, once its delay has passed: announce the end of the
        prison time, then pardon the members. */
    method PardonAfter(ctx: Context, members: seq<Member>, occupants: seq<Member>, nickFails: set<MemberId>)
      returns (status: Status)
      requires Valid()
      modifies this, sessions
      ensures Valid()
      ensures backgroundTasks == old(backgroundTasks)
      ensures var e := PardonEffect(config, World(old(Backups()), old(log) + [Send(PrisonTimeEnded(Names(members)))]),
                                    old(sessions.entries), ctx, members, occupants, nickFails);
        Now() == e.world && sessions.entries == e.slots && status == e.status
    {
      log := log + [Send(PrisonTimeEnded(Names(members)))];
      status := PardonInternal(ctx, members, occupants, nickFails);
    }

    /** `text_recognition_callback_async`: a transcribed utterance of `user`
        is judged against their escape phrase and the forbidden lines; the
        first candidate close enough to the escape phrase pardons that
        member alone. */
    method OnTextRecognized(ctx: Context, user: MemberId, text: string, ratio: (string, string) -> Score,
                            occupants: seq<Member>, nickFails: set<MemberId>) returns (status: Status)
      requires Valid()
      modifies this, sessions
      ensures Valid()
      ensures backgroundTasks == old(backgroundTasks)
      ensures Hear(config, old(escapePhrases), ctx, user, text, ratio).Ignored? ==>
                status == Completed && Now() == old(Now()) && sessions.entries == old(sessions.entries)
      ensures Hear(config, old(escapePhrases), ctx, user, text, ratio).Unresolved? ==>
                && status == Raised(Hear(config, old(escapePhrases), ctx, user, text, ratio).fault)
                && Now() == old(Now()) && sessions.entries == old(sessions.entries)
      ensures var h := Hear(config, old(escapePhrases), ctx, user, text, ratio);
        h.Heard? && !EndsInEscape(h.reactions) ==>
          && status == Completed && sessions.entries == old(sessions.entries)
          && Now() == World(old(Backups()), old(log) + ReactionActions(h.member, h.phrase, h.reactions))
      ensures var h := Hear(config, old(escapePhrases), ctx, user, text, ratio);
        h.Heard? && EndsInEscape(h.reactions) ==>
          var e := PardonEffect(config, World(old(Backups()), old(log) + ReactionActions(h.member, h.phrase, h.reactions)),
                                old(sessions.entries), ctx, [h.member], occupants, nickFails);
          Now() == e.world && sessions.entries == e.slots && status == e.status
    {
      if user !in escapePhrases {
        return Completed;
      }
      var stripped := Strip(text);
      if ctx.guild.None? {
        return Raised(NotInGuild);
      }
      var member := GetMember(ctx.guild.value, user);
      if stripped == [] {
        if member.None? {
          return Raised(MemberUnresolved);
        }
        return Completed;
      }
      if member.None? {
        return Raised(MemberUnresolved);
      }
      var phrase := escapePhrases[user];
      var reactions := React(Candidates(stripped), phrase, config.forbiddenLines, ratio);
      log := log + ReactionActions(member.value, phrase, reactions);
      if EndsInEscape(reactions) {
        status := PardonInternal(ctx, [member.value], occupants, nickFails);
      } else {
        status := Completed;
      }
    }

    /** The callback run when a rebuke has been spoken: schedule the mute
        and track its task. */
    method OnRebukeFinished(member: Member, task: TaskId)
      modifies this
      ensures Backups() == old(Backups())
      ensures log == old(log) + [ScheduleMute(member.id)]
      ensures backgroundTasks == old(backgroundTasks) + [task]
    {
      log := log + [ScheduleMute(member.id)];
      AddBackgroundTask(task);
    }

    /** `add_background_task`. */
    method AddBackgroundTask(task: TaskId)
      modifies this
      ensures backgroundTasks == old(backgroundTasks) + [task]
      ensures Backups() == old(Backups()) && log == old(log)
    {
      backgroundTasks := backgroundTasks + [task];
    }

    /** `remove_background_task`: drop the task's first occurrence, if any. */
    method RemoveBackgroundTask(task: TaskId)
      modifies this
      ensures backgroundTasks == RemoveFirst(old(backgroundTasks), task)
      ensures multiset(backgroundTasks) == multiset(old(backgroundTasks)) - multiset{task}
      ensures Backups() == old(Backups()) && log == old(log)
    {
      if task in backgroundTasks {
        backgroundTasks := RemoveFirst(backgroundTasks, task);
      }
    }
  }
}
