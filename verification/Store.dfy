/** The tables of one island that the services below read and write. */
module Store {

  /** A message, retraction or report id: its rank on the ULID axis (see `Ulid.UlidOrder`); 0 stands for the
      empty string, which sorts below every id. */
  type Rank = nat
  type UserId = string
  type ChannelId = string
  type CommunityId = string

  datatype Option<+T> = None | Some(value: T)

  datatype Result<+T, +E> = Ok(value: T) | Err(error: E)

  datatype ChannelKind = Standard | Dm

  datatype Channel = Channel(kind: ChannelKind, aikoChannel: string)

  datatype Message = Message(
    channel: ChannelId, sender: Option<UserId>, clientMsgId: Option<string>, body: string, deleted: bool)

  datatype Retraction = Retraction(target: Rank, channel: ChannelId)

  datatype Resolution = Pending | TakenDown | Dismissed

  datatype Report = Report(
    message: Rank, reporter: Option<UserId>, resolution: Resolution, resolvedBy: Option<UserId>)

  datatype Role = Admin | Member

  datatype Visibility = Public | Unlisted | Private

  datatype Community = Community(
    name: string, visibility: Visibility, takenDown: bool, memberCount: int, owner: Option<UserId>)

  datatype Db = Db(
    users: map<UserId, string>,                        // user id -> aiko username
    channels: map<ChannelId, Channel>,
    messages: map<Rank, Message>,
    retractions: map<Rank, Retraction>,
    reports: map<Rank, Report>,
    blocks: set<(UserId, UserId)>,                     // (blocker, blocked)
    memberships: map<(ChannelId, UserId), Role>,
    readPositions: map<(ChannelId, UserId), Rank>,
    communities: map<CommunityId, Community>,
    communityMembers: set<(CommunityId, UserId)>)
}
