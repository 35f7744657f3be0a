/**
 * What every moderation verb of `VKChatBot` does to the tables and the outbox, as pure
 * functions of the tables before the call. The `ChatBot` class in module `Bot` is proved to
 * follow these functions step by step; the lemmas here and in module `Propagation` state
 * what they promise.
 *
 * A verb called directly (`is_sync = false`) answers in its room and, when `unified_mode` is
 * on, hands the action to `Sync`, which replays it with `is_sync = true` in every other
 * unified room. A replayed verb never calls `Sync`; the `decreases` clauses below say exactly
 * that, and are what makes the mutual recursion terminate.
 */
module Moderation {
  import opened Common
  import opened Text
  import opened Assoc
  import opened Types

  // ---------------------------------------------------------------- lookups

  /** `isAdmin`: membership in `admin_ids`. */
  predicate IsAdmin(t: Tables, u: int) {
    u in t.admins
  }

  /** `isModerator`: an admin, or listed in `moderator_ids`. */
  predicate IsModerator(t: Tables, u: int) {
    IsAdmin(t, u) || u in t.moderators
  }

  /** `super_admin_ids`, or else the first admin alone (no one when there are no admins). */
  function SuperAdmins(cfg: Config, t: Tables): seq<int> {
    match cfg.superAdminIds
    case Some(ids) => ids
    case None => if t.admins == [] then [] else [t.admins[0]]
  }

  /** `isMuted`: there is a mute entry and it lies in the future. */
  predicate IsMuted(t: Tables, u: int, now: int) {
    match Get(t.mutes, u)
    case Some(expiry) => expiry > now
    case None => false
  }

  /** `isKicked`: there is a kick entry and it lies in the future. */
  predicate IsKicked(t: Tables, u: int, now: int) {
    u in t.kicks && t.kicks[u] > now
  }

  /** `isBanned`. */
  predicate IsBanned(t: Tables, u: int) {
    u in t.bans
  }

  /** `$warn_list[$peer_id][$user_id] ?? 0`. */
  function WarnCount(w: map<int, map<int, int>>, room: int, u: int): int {
    if room in w && u in w[room] then w[room][u] else 0
  }

  /** `$warn_list[$peer_id][$user_id] = n`, creating the room's table when needed. */
  function SetWarn(w: map<int, map<int, int>>, room: int, u: int, n: int): map<int, map<int, int>> {
    var inner := if room in w then w[room] else map[];
    w[room := inner[u := n]]
  }

  /** The nickname `u` carries in `room`, if any. */
  function NickOf(nicks: Assoc<int, Assoc<int, string>>, room: int, u: int): Option<string> {
    match Get(nicks, room)
    case Some(inner) => Get(inner, u)
    case None => None
  }

  /** `$nicknames[$peer_id][$user_id] = $nickname`, creating the room's table when needed. */
  function SetNick(nicks: Assoc<int, Assoc<int, string>>, room: int, u: int, name: string): Assoc<int, Assoc<int, string>> {
    Put(nicks, room, Put(Get(nicks, room).GetOr([]), u, name))
  }

  /** Record one outbound call. */
  function Emit(t: Tables, e: Effect): Tables {
    t.(outbox := t.outbox + [e])
  }

  // ---------------------------------------------------------------- the verbs

  /** `muteUser`: set the expiry to `now + duration`, overwriting any earlier entry. */
  function Mute(cfg: Config, t: Tables, peer: int, u: int, duration: int, isSync: bool, now: int): Tables
    decreases if isSync then 0 else 2, 0, 0
  {
    var t1 := t.(mutes := Put(t.mutes, u, now + duration));
    if isSync then t1
    else
      var t2 := Emit(t1, Send(peer, Muted(u, FormatTimeString(duration))));
      if cfg.unifiedMode then Sync(cfg, t2, u, MuteAction(duration), peer, now) else t2
  }

  /** `unmuteUser`: drop the mute entry if there is one; a direct call on an unmuted user only answers. */
  function Unmute(cfg: Config, t: Tables, peer: int, u: int, isSync: bool, now: int): Tables
    decreases if isSync then 0 else 2, 0, 0
  {
    if Get(t.mutes, u).Some? then
      var t1 := t.(mutes := Remove(t.mutes, u));
      if isSync then t1
      else
        var t2 := Emit(t1, Send(peer, Unmuted(u)));
        if cfg.unifiedMode then Sync(cfg, t2, u, UnmuteAction, peer, now) else t2
    else if !isSync then Emit(t, Send(peer, NotMuted(u)))
    else t
  }

  /** `banUser`: append to the ban list and remove from the room, only if not banned yet. */
  function Ban(cfg: Config, t: Tables, peer: int, u: int, isSync: bool, now: int): Tables
    decreases if isSync then 0 else 2, 0, 0
  {
    if u !in t.bans then
      var t1 := t.(bans := t.bans + [u], outbox := t.outbox + [RemoveFromChat(peer, u)]);
      if isSync then t1
      else
        var t2 := Emit(t1, Send(peer, Banned(u)));
        if cfg.unifiedMode then Sync(cfg, t2, u, BanAction, peer, now) else t2
    else if !isSync then Emit(t, Send(peer, AlreadyBanned(u)))
    else t
  }

  /** `unbanUser`: delete the user's entry from the ban list, keeping the others in order. */
  function Unban(cfg: Config, t: Tables, peer: int, u: int, isSync: bool, now: int): Tables
    decreases if isSync then 0 else 2, 0, 0
  {
    if u in t.bans then
      var t1 := t.(bans := RemoveFirst(t.bans, u));
      if isSync then t1
      else
        var t2 := Emit(t1, Send(peer, Unbanned(u)));
        if cfg.unifiedMode then Sync(cfg, t2, u, UnbanAction, peer, now) else t2
    else if !isSync then Emit(t, Send(peer, NotBanned(u)))
    else t
  }

  /** `kickUser`: record the end of the kick and remove the user from the room. */
  function Kick(cfg: Config, t: Tables, peer: int, u: int, isSync: bool, now: int): Tables
    decreases if isSync then 0 else 2, 0, 0
  {
    var t1 := t.(kicks := t.kicks[u := now + cfg.kickDuration], outbox := t.outbox + [RemoveFromChat(peer, u)]);
    if isSync then t1
    else
      var t2 := Emit(t1, Send(peer, Kicked(u, FormatTimeString(cfg.kickDuration))));
      if cfg.unifiedMode then Sync(cfg, t2, u, KickAction, peer, now) else t2
  }

  /** `setNickname`: a direct call needs an admin; a replayed one does not check. */
  function SetNickname(cfg: Config, t: Tables, peer: int, u: int, nickname: string, admin: int, isSync: bool, now: int): Tables
    decreases if isSync then 0 else 2, 0, 0
  {
    if !isSync && !IsAdmin(t, admin) then Emit(t, Send(peer, Denied(NicknameAdminsOnly)))
    else
      var t1 := t.(nicknames := SetNick(t.nicknames, peer, u, nickname));
      if isSync then t1
      else
        var t2 := Emit(t1, Send(peer, NicknameSet(u, nickname)));
        if cfg.unifiedMode then Sync(cfg, t2, u, NicknameAction(nickname, admin), peer, now) else t2
  }

  /**
   * `warnUser`: one more warning in this room. A direct warning that reaches `max_warnings`
   * mutes the user for the flood-control duration (through the ordinary, propagating mute),
   * then writes the room's counter back as 0. A replayed warning only counts.
   */
  function Warn(cfg: Config, t: Tables, peer: int, u: int, reason: string, isSync: bool, now: int): Tables
    decreases if isSync then 0 else 3, 0, 0
  {
    var count := WarnCount(t.warns, peer, u) + 1;
    var t1 := t.(warns := SetWarn(t.warns, peer, u, count));
    if isSync then t1
    else
      var t2 := Emit(t1, Send(peer, Warned(u, count, cfg.maxWarnings, reason)));
      var t3 :=
        if count >= cfg.maxWarnings then
          var muted := Mute(cfg, t2, peer, u, cfg.muteDuration, false, now);
          Emit(muted, Send(peer, AutoMuted(u))).(warns := SetWarn(t1.warns, peer, u, 0))
        else t2;
      if cfg.unifiedMode then Sync(cfg, t3, u, WarnAction(reason), peer, now) else t3
  }

  /** `unwarnUser`: take one warning back, only when there is at least one. */
  function Unwarn(cfg: Config, t: Tables, peer: int, u: int, isSync: bool, now: int): Tables
    decreases if isSync then 0 else 2, 0, 0
  {
    var count := WarnCount(t.warns, peer, u);
    if count > 0 then
      var t1 := t.(warns := SetWarn(t.warns, peer, u, count - 1));
      if isSync then t1
      else
        var t2 := Emit(t1, Send(peer, Unwarned(u, count - 1, cfg.maxWarnings)));
        if cfg.unifiedMode then Sync(cfg, t2, u, UnwarnAction, peer, now) else t2
    else if !isSync then Emit(t, Send(peer, NoWarnings(u)))
    else t
  }

  // ---------------------------------------------------------------- propagation

  /**
   * `syncActionAcrossChats`: log the call, then replay the action in every unified room but
   * the one it came from, in list order.
   */
  function Sync(cfg: Config, t: Tables, u: int, a: Action, origin: int, now: int): Tables
    decreases 1, 1, 0
  {
    var t1 := Emit(t, SyncCall(u, a, origin));
    ReplayAll(cfg, t1, u, a, origin, t1.unified, now)
  }

  /** The loop of `syncActionAcrossChats` over `chats`, origin skipped. */
  function ReplayAll(cfg: Config, t: Tables, u: int, a: Action, origin: int, chats: seq<int>, now: int): Tables
    decreases 1, 0, |chats|
  {
    if chats == [] then t
    else
      var before := ReplayAll(cfg, t, u, a, origin, chats[..|chats| - 1], now);
      var chat := chats[|chats| - 1];
      if chat == origin then before else ReplayIn(cfg, before, u, a, chat, now)
  }

  /** One turn of that loop: the verb with `is_sync = true`, then the sync notice. */
  function ReplayIn(cfg: Config, t: Tables, u: int, a: Action, chat: int, now: int): Tables
    decreases 1, 0, 0
  {
    Emit(Apply(cfg, t, chat, u, a, true, now), Send(chat, SyncApplied(u, a)))
  }

  /** The verb an action names, applied to `u` in `peer`. */
  function Apply(cfg: Config, t: Tables, peer: int, u: int, a: Action, isSync: bool, now: int): Tables
    decreases if isSync then 0 else 3, 0, if a.WarnAction? then 2 else 1
  {
    match a
    case MuteAction(d) => Mute(cfg, t, peer, u, d, isSync, now)
    case UnmuteAction => Unmute(cfg, t, peer, u, isSync, now)
    case BanAction => Ban(cfg, t, peer, u, isSync, now)
    case UnbanAction => Unban(cfg, t, peer, u, isSync, now)
    case KickAction => Kick(cfg, t, peer, u, isSync, now)
    case NicknameAction(name, admin) => SetNickname(cfg, t, peer, u, name, admin, isSync, now)
    case WarnAction(reason) => Warn(cfg, t, peer, u, reason, isSync, now)
    case UnwarnAction => Unwarn(cfg, t, peer, u, isSync, now)
  }

  // ---------------------------------------------------------------- unite / separate

  /** One message to each room of `chats` except `skip`, in order. */
  function BroadcastExcept(chats: seq<int>, skip: int, n: Notice): seq<Effect> {
    if chats == [] then []
    else
      BroadcastExcept(chats[..|chats| - 1], skip, n)
      + (if chats[|chats| - 1] == skip then [] else [Send(chats[|chats| - 1], n)])
  }

  /** One message to each room of `chats`, in order. */
  function Broadcast(chats: seq<int>, n: Notice): seq<Effect> {
    if chats == [] then []
    else Broadcast(chats[..|chats| - 1], n) + [Send(chats[|chats| - 1], n)]
  }

  /** `enableUnifiedMode`: an admin adds the room to the network, announcing it to the others. */
  function EnableUnified(t: Tables, peer: int, admin: int): Tables {
    if !IsAdmin(t, admin) then Emit(t, Send(peer, Denied(UniteAdminsOnly)))
    else if peer !in t.unified then
      var chats := t.unified + [peer];
      t.(unified := chats, outbox := t.outbox + BroadcastExcept(chats, peer, ChatJoinedNetwork(peer)) + [Send(peer, ChatUnited)])
    else Emit(t, Send(peer, ChatAlreadyUnited))
  }

  /** `disableUnifiedMode`: an admin takes the room out of the network, telling the rooms left. */
  function DisableUnified(t: Tables, peer: int, admin: int): Tables {
    if !IsAdmin(t, admin) then Emit(t, Send(peer, Denied(SeparateAdminsOnly)))
    else if peer in t.unified then
      var chats := RemoveFirst(t.unified, peer);
      t.(unified := chats, outbox := t.outbox + Broadcast(chats, ChatLeftNetwork(peer)) + [Send(peer, ChatSeparated)])
    else Emit(t, Send(peer, ChatNotUnited))
  }

  // ---------------------------------------------------------------- user stats

  function ZeroStats(): UserStats {
    UserStats(None, 0, None)
  }

  /** `getUserStats`: the stored record, or the zero record (which is not stored). */
  function GetUserStats(stats: map<int, map<int, UserStats>>, room: int, u: int): UserStats {
    if room in stats && u in stats[room] then stats[room][u] else ZeroStats()
  }

  /** `updateUserStats`: a join sets a missing join date; a message counts, stamps and sets a missing join date. */
  function UpdateStats(stats: map<int, map<int, UserStats>>, room: int, u: int, ev: StatsEvent, now: int): map<int, map<int, UserStats>> {
    var inner := if room in stats then stats[room] else map[];
    var s := GetUserStats(stats, room, u);
    var s' :=
      match ev
      case Join => if s.joinDate.None? then s.(joinDate := Some(now)) else s
      case MessageSent =>
        var counted := s.(messageCount := s.messageCount + 1, lastMessage := Some(now));
        if counted.joinDate.None? then counted.(joinDate := Some(now)) else counted;
    stats[room := inner[u := s']]
  }

  // ---------------------------------------------------------------- expiry sweep

  /** The users whose mute has run out (expiry <= now), in table order. */
  function ExpiredUsers(m: Assoc<int, int>, now: int): seq<int> {
    if m == [] then []
    else ExpiredUsers(m[..|m| - 1], now) + (if m[|m| - 1].1 <= now then [m[|m| - 1].0] else [])
  }

  /** The mute table without the entries that have run out, in table order. */
  function Unexpired(m: Assoc<int, int>, now: int): Assoc<int, int> {
    if m == [] then []
    else Unexpired(m[..|m| - 1], now) + (if m[|m| - 1].1 <= now then [] else [m[|m| - 1]])
  }

  /** For each expired user in turn, one notice to every room of `chats`. */
  function ExpiryNotices(users: seq<int>, chats: seq<int>): seq<Effect> {
    if users == [] then []
    else ExpiryNotices(users[..|users| - 1], chats) + Broadcast(chats, MuteExpired(users[|users| - 1]))
  }

  /** `checkExpiredMutes`. */
  function Sweep(t: Tables, now: int): Tables {
    var expired := ExpiredUsers(t.mutes, now);
    if expired == [] then t
    else t.(mutes := Unexpired(t.mutes, now), outbox := t.outbox + ExpiryNotices(expired, t.unified))
  }

  // ---------------------------------------------------------------- the table invariant

  /** What every stored table keeps: lists without duplicates, dictionaries with distinct keys, counts >= 0. */
  predicate WellFormed(t: Tables) {
    && NoDup(t.bans)
    && NoDup(t.unified)
    && DistinctKeys(t.mutes)
    && NicknamesWellFormed(t.nicknames)
    && WarnsNonNegative(t.warns)
  }

  predicate NicknamesWellFormed(nicks: Assoc<int, Assoc<int, string>>) {
    DistinctKeys(nicks) && forall p :: p in nicks ==> DistinctKeys(p.1)
  }

  predicate WarnsNonNegative(w: map<int, map<int, int>>) {
    forall room, u :: room in w && u in w[room] ==> w[room][u] >= 0
  }
}
