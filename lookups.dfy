/** The bot's linear searches over a guild's roles and channels. Each search
    is a loop (a method) proved equal to a specification function, and the
    properties of the searches are stated on those functions. */
module Lookups {
  import opened Common
  import opened Platform

  /** The first role with this id, if any. */
  function RoleById(roles: seq<Role>, id: int): Option<Role> {
    match FirstWhere(roles, (r: Role) => r.id == id)
    case Some(i) => Some(roles[i])
    case None => None
  }

  /** The first role with this name, if any. */
  function RoleByName(roles: seq<Role>, name: string): Option<Role> {
    match FirstWhere(roles, (r: Role) => r.name == name)
    case Some(i) => Some(roles[i])
    case None => None
  }

  /** The first channel with this name; when none has it, the LAST channel
      (the loop variable left over from the search); nothing when the guild
      has no channels at all (the search then fails). */
  function ChannelByName(channels: seq<Channel>, name: string): Option<Channel> {
    if channels == [] then None
    else match FirstWhere(channels, (c: Channel) => c.name == name)
      case Some(i) => Some(channels[i])
      case None => Some(channels[|channels| - 1])
  }

  lemma RoleByIdFinds(roles: seq<Role>, id: int)
    ensures RoleById(roles, id).Some? <==> exists i :: 0 <= i < |roles| && roles[i].id == id
    ensures RoleById(roles, id).Some? ==> RoleById(roles, id).value.id == id && RoleById(roles, id).value in roles
  {
  }

  lemma RoleByNameFinds(roles: seq<Role>, name: string)
    ensures RoleByName(roles, name).Some? <==> exists i :: 0 <= i < |roles| && roles[i].name == name
    ensures RoleByName(roles, name).Some? ==> RoleByName(roles, name).value.name == name && RoleByName(roles, name).value in roles
  {
  }

  /** The channel search never fails on a non-empty list; it answers a
      channel of the right name when there is one, and the last channel
      otherwise. */
  lemma ChannelByNameFallback(channels: seq<Channel>, name: string)
    ensures ChannelByName(channels, name).None? <==> channels == []
    ensures (exists i :: 0 <= i < |channels| && channels[i].name == name) ==>
              ChannelByName(channels, name).Some? && ChannelByName(channels, name).value.name == name
    ensures channels != [] && (forall i :: 0 <= i < |channels| ==> channels[i].name != name) ==>
              ChannelByName(channels, name) == Some(channels[|channels| - 1])
  {
  }

  /** `find_role_by_id`. */
  method FindRoleById(roles: seq<Role>, id: int) returns (r: Option<Role>)
    ensures r == RoleById(roles, id)
  {
    var i := 0;
    while i < |roles|
      invariant 0 <= i <= |roles|
      invariant forall j :: 0 <= j < i ==> roles[j].id != id
    {
      if roles[i].id == id {
        return Some(roles[i]);
      }
      i := i + 1;
    }
    return None;
  }

  /** `find_role_by_name`. */
  method FindRoleByName(roles: seq<Role>, name: string) returns (r: Option<Role>)
    ensures r == RoleByName(roles, name)
  {
    var i := 0;
    while i < |roles|
      invariant 0 <= i <= |roles|
      invariant forall j :: 0 <= j < i ==> roles[j].name != name
    {
      if roles[i].name == name {
        return Some(roles[i]);
      }
      i := i + 1;
    }
    return None;
  }

  /** `find_channel_by_name`: a miss returns the last channel visited. */
  method FindChannelByName(channels: seq<Channel>, name: string) returns (r: Option<Channel>)
    ensures r == ChannelByName(channels, name)
  {
    var last: Option<Channel> := None;
    var i := 0;
    while i < |channels|
      invariant 0 <= i <= |channels|
      invariant forall j :: 0 <= j < i ==> channels[j].name != name
      invariant last == if i == 0 then None else Some(channels[i - 1])
    {
      last := Some(channels[i]);
      if channels[i].name == name {
        return last;
      }
      i := i + 1;
    }
    return last;
  }
}
