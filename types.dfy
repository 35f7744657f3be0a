/**
 * The bot's data: its configuration, the moderation tables, the messages it receives from
 * the platform and the outbound calls it makes.
 */
module Types {
  import opened Common
  import opened Text
  import opened Assoc

  /** The `$config` array, minus tokens and file paths. */
  datatype Config = Config(
    groupId: int,
    unifiedMode: bool,
    maxMessages: int,        // moderation.flood_control.max_messages
    timeWindow: int,         // moderation.flood_control.time_window
    muteDuration: int,       // moderation.flood_control.mute_duration, the default mute length
    autoDeleteLinks: bool,
    badWordsFilter: bool,
    maxMentions: int,
    kickDuration: int,
    maxWarnings: int,
    badWords: seq<string>,
    superAdminIds: Option<seq<int>>)  // `super_admin_ids`, absent in the shipped configuration

  /** The configuration the repository ships with (identifiers and word list aside). */
  function ShippedConfig(groupId: int, badWords: seq<string>): Config {
    Config(groupId, true, 5, 10, 300, true, true, 3, 600, 3, badWords, None)
  }

  /** One user's record in one room of the stats file. */
  datatype UserStats = UserStats(joinDate: Option<int>, messageCount: nat, lastMessage: Option<int>)

  datatype StatsEvent = Join | MessageSent

  /** A moderation action as `syncActionAcrossChats` receives it: the verb and its `$data`. */
  datatype Action =
    | MuteAction(duration: int)
    | UnmuteAction
    | BanAction
    | UnbanAction
    | KickAction
    | NicknameAction(nickname: string, admin: int)
    | WarnAction(reason: string)
    | UnwarnAction

  /** The chat commands, with `!` and `/` prefixes folded together. */
  datatype Command =
    | MuteCmd | UnmuteCmd | BanCmd | UnbanCmd | KickCmd | WarnCmd | UnwarnCmd | NickCmd
    | StatsCmd | UniteCmd | SeparateCmd | UnifiedCmd
    | AddAdminCmd | RemoveAdminCmd | AdminsCmd | AddModerCmd | RemoveModerCmd | ModersCmd
    | HelpCmd | NoCommand

  /** Which permission message a refusal sends. */
  datatype Denial =
    | ModeratorsOnly          // moderation commands
    | StatsOfOthers           // /stats about someone else
    | AdminsOnly              // /unite and /separate in the router
    | UnifiedListAdminsOnly   // /unified
    | SuperAdminsOnlyAdd      // /addadmin
    | SuperAdminsOnlyRemove   // /removeadmin
    | AddModerAdminsOnly      // /addmoder
    | RemoveModerAdminsOnly   // /removemoder
    | NicknameAdminsOnly      // setNickname's own check
    | UniteAdminsOnly         // enableUnifiedMode's own check
    | SeparateAdminsOnly      // disableUnifiedMode's own check

  datatype Tier = AdminTier | ModeratorTier | MemberTier

  /** What `/stats` reports about a user in a room. */
  datatype StatsReport = StatsReport(
    nickname: Option<string>,
    joinDate: Option<int>,
    messageCount: int,
    lastMessage: Option<int>,
    warnings: int,
    maxWarnings: int,
    muteLeft: Option<TimeText>,
    banned: bool)

  /** A message the bot sends, tagged by kind with the values it mentions. */
  datatype Notice =
    | Muted(user: int, time: TimeText) | Unmuted(user: int) | NotMuted(user: int)
    | Banned(user: int) | AlreadyBanned(user: int) | Unbanned(user: int) | NotBanned(user: int)
    | Kicked(user: int, time: TimeText)
    | NicknameSet(user: int, nickname: string)
    | Warned(user: int, count: int, max: int, reason: string) | AutoMuted(user: int)
    | Unwarned(user: int, count: int, max: int) | NoWarnings(user: int)
    | SyncApplied(user: int, action: Action)
    | MuteExpired(user: int)
    | ChatJoinedNetwork(chat: int) | ChatUnited | ChatAlreadyUnited
    | ChatLeftNetwork(chat: int) | ChatSeparated | ChatNotUnited
    | Denied(denial: Denial) | Usage(command: Command) | NoUserId | CannotMuteAdmin
    | StatsOf(user: int, report: StatsReport)
    | UnifiedList(chats: seq<int>)
    | AlreadyAdmin | NotAdmin | CannotRemoveSuperAdmin | AdminAdded(user: int) | AdminRemoved(user: int)
    | AdminList(admins: seq<int>, supers: seq<int>)
    | AlreadyModerator | NotModerator | ModeratorAdded(user: int) | ModeratorRemoved(user: int)
    | ModeratorList(moderators: seq<int>) | ModeratorListEmpty
    | Help(tier: Tier)
    | BotGreeting | Welcome(user: int)

  /** An outbound platform call: `messages.send`, `messages.removeChatUser`, or the start of a propagation. */
  datatype Effect =
    | Send(peer: int, notice: Notice)
    | RemoveFromChat(chat: int, user: int)
    | SyncCall(user: int, action: Action, origin: int)

  /**
   * Everything the bot keeps between messages: the seven JSON tables, the admin and
   * moderator rosters of `$config`, and the log of outbound calls made so far.
   */
  datatype Tables = Tables(
    mutes: Assoc<int, int>,                    // user -> expiry time, in insertion order
    kicks: map<int, int>,                      // user -> time the kick ends
    bans: seq<int>,                            // banned users
    warns: map<int, map<int, int>>,            // room -> user -> warning count
    nicknames: Assoc<int, Assoc<int, string>>, // room -> user -> nickname, in insertion order
    unified: seq<int>,                         // the rooms that mirror each other's moderation
    stats: map<int, map<int, UserStats>>,      // room -> user -> activity record
    admins: seq<int>,
    moderators: seq<int>,
    outbox: seq<Effect>)

  // ---------------------------------------------------------------- inbound

  datatype ChatAction = ChatAction(kind: string, memberId: Option<int>)

  datatype ReplyTo = ReplyTo(fromId: Option<int>)

  /** The fields of a `message_new` object the bot reads. */
  datatype Message = Message(
    peerId: int,
    fromId: int,
    text: Option<string>,
    action: Option<ChatAction>,
    reply: Option<ReplyTo>,
    forwardedFromIds: Option<seq<Option<int>>>)

  datatype Update = Update(kind: string, message: Message)

  /** The long-poll session: server, key and the event cursor `ts`. */
  datatype Session = Session(server: string, key: string, ts: string)

  /** What one long-poll request yields: nothing usable, or a decoded envelope. */
  datatype PollResponse =
    | TransportFailure
    | Envelope(failed: bool, ts: Option<string>, updates: Option<seq<Update>>)
}
