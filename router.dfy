/**
 * `processMessage`: the welcome on an invite, the activity stats, and the command router.
 * Routing is split in two. `Route` reads the tables and decides what the command asks for:
 * a reply, a verb on a resolved user, a network or roster change, or nothing. `Execute`
 * carries that out. `resolveUserId` turns the argument after the command into a user.
 */
module Router {
  import opened Common
  import opened Text
  import opened Assoc
  import opened Types
  import opened Moderation

  // ---------------------------------------------------------------- the `[idN|...]` token

  /** `.*?\]` from `j`: a closing bracket comes before any line feed. */
  function ClosesFrom(s: string, j: nat): (r: bool)
    decreases |s| - j
    ensures r <==> exists k :: j <= k < |s| && s[k] == ']' && forall l :: j <= l < k ==> s[l] != '\n'
  {
    if j >= |s| then false
    else if s[j] == ']' then true
    else if s[j] == '\n' then false
    else
      var r := ClosesFrom(s, j + 1);
      assert r ==> exists k :: j <= k < |s| && s[k] == ']' && forall l :: j <= l < k ==> s[l] != '\n';
      r
  }

  /**
   * The digits of a match of `\[id(\d+)\|.*?\]` that starts at `i`. The digit run is the
   * longest one, since a shorter run would leave a digit where the bar must be.
   */
  function IdAt(s: string, i: nat): Option<string> {
    if !PrefixAt(s, i, "[id") then None
    else
      var d := LeadingDigits(s[i + 3..]);
      if d != [] && i + 3 + |d| < |s| && s[i + 3 + |d|] == '|' && ClosesFrom(s, i + 4 + |d|) then Some(d)
      else None
  }

  /** `preg_match` for the token: the leftmost match at `i` or later. */
  function FirstIdFrom(s: string, i: nat): (r: Option<string>)
    decreases |s| - i
    ensures r.Some? ==> exists j :: i <= j < |s| && IdAt(s, j) == r && forall k :: i <= k < j ==> IdAt(s, k).None?
    ensures r.None? ==> forall j :: i <= j < |s| ==> IdAt(s, j).None?
    ensures r.Some? ==> r.value != [] && AllDigits(r.value)
  {
    if i >= |s| then None
    else if IdAt(s, i).Some? then IdAt(s, i)
    else FirstIdFrom(s, i + 1)
  }

  // ---------------------------------------------------------------- nickname lookup

  /** The first user of one room whose nickname folds to `key`. */
  function FindNickIn(users: Assoc<int, string>, key: string): (r: Option<int>)
    ensures r.Some? ==> exists i :: 0 <= i < |users| && users[i].0 == r.value && FoldCase(users[i].1) == key
                                    && forall j :: 0 <= j < i ==> FoldCase(users[j].1) != key
    ensures r.None? <==> forall q :: q in users ==> FoldCase(q.1) != key
  {
    if users == [] then None
    else if FoldCase(users[0].1) == key then Some(users[0].0)
    else
      var r := FindNickIn(users[1..], key);
      assert forall q :: q in users[1..] ==> q in users;
      assert forall q :: q in users ==> q == users[0] || q in users[1..];
      if r.Some? then FirstUserAfter(users, key, r.value); r else r
  }

  /** A match found first after the first user is also found first in the whole room, when the first user does not match. */
  lemma FirstUserAfter(users: Assoc<int, string>, key: string, id: int)
    requires users != [] && FoldCase(users[0].1) != key
    requires exists i :: 0 <= i < |users[1..]| && users[1..][i].0 == id && FoldCase(users[1..][i].1) == key
                         && forall j :: 0 <= j < i ==> FoldCase(users[1..][j].1) != key
    ensures exists i :: 0 <= i < |users| && users[i].0 == id && FoldCase(users[i].1) == key
                        && forall j :: 0 <= j < i ==> FoldCase(users[j].1) != key
  {
    var rest := users[1..];
    var i :| 0 <= i < |rest| && rest[i].0 == id && FoldCase(rest[i].1) == key
             && forall j :: 0 <= j < i ==> FoldCase(rest[j].1) != key;
    assert users[i + 1] == rest[i];
    assert forall j :: 0 <= j < i + 1 ==> FoldCase(users[j].1) != key by {
      forall j | 0 <= j < i + 1 ensures FoldCase(users[j].1) != key {
        if j > 0 {
          assert users[j] == rest[j - 1];
        }
      }
    }
  }

  /** The first user, room by room in insertion order, whose nickname folds to `key`. */
  function FindNick(nicks: Assoc<int, Assoc<int, string>>, key: string): (r: Option<int>)
    ensures r.Some? ==> exists i :: 0 <= i < |nicks| && r == FindNickIn(nicks[i].1, key)
                                    && forall j :: 0 <= j < i ==> FindNickIn(nicks[j].1, key).None?
    ensures r.None? <==> forall p, q :: p in nicks && q in p.1 ==> FoldCase(q.1) != key
  {
    if nicks == [] then None
    else
      var here := FindNickIn(nicks[0].1, key);
      if here.Some? then here
      else
        var r := FindNick(nicks[1..], key);
        assert forall p :: p in nicks[1..] ==> p in nicks;
        assert forall p :: p in nicks ==> p == nicks[0] || p in nicks[1..];
        if r.Some? then FirstRoomAfter(nicks, key, r); r else r
  }

  /** A match found first in the rooms after the first one is also found first in all of them, when the first room has none. */
  lemma FirstRoomAfter(nicks: Assoc<int, Assoc<int, string>>, key: string, r: Option<int>)
    requires nicks != [] && FindNickIn(nicks[0].1, key).None?
    requires exists i :: 0 <= i < |nicks[1..]| && r == FindNickIn(nicks[1..][i].1, key)
                         && forall j :: 0 <= j < i ==> FindNickIn(nicks[1..][j].1, key).None?
    ensures exists i :: 0 <= i < |nicks| && r == FindNickIn(nicks[i].1, key)
                        && forall j :: 0 <= j < i ==> FindNickIn(nicks[j].1, key).None?
  {
    var rest := nicks[1..];
    var i :| 0 <= i < |rest| && r == FindNickIn(rest[i].1, key) && forall j :: 0 <= j < i ==> FindNickIn(rest[j].1, key).None?;
    assert nicks[i + 1] == rest[i];
    assert forall j :: 0 <= j < i + 1 ==> FindNickIn(nicks[j].1, key).None? by {
      forall j | 0 <= j < i + 1 ensures FindNickIn(nicks[j].1, key).None? {
        if j > 0 {
          assert nicks[j] == rest[j - 1];
        }
      }
    }
    assert 0 <= i + 1 < |nicks| && r == FindNickIn(nicks[i + 1].1, key);
  }

  // ---------------------------------------------------------------- resolveUserId

  /** A resolved id and whether PHP treats it as true (the string "0" and the key 0 are false). */
  datatype ResolvedId = ResolvedId(id: int, truthy: bool)

  /**
   * `resolveUserId`: the digits of an `[idN|...]` token anywhere in the argument, else the
   * argument itself when it is numeric, else the first user whose nickname in any room
   * matches it case-insensitively, else nothing.
   */
  function ResolveUserId(nicks: Assoc<int, Assoc<int, string>>, mention: string): (r: Option<ResolvedId>)
    ensures FirstIdFrom(mention, 0).Some? ==>
              r == Some(ResolvedId(DigitsValue(FirstIdFrom(mention, 0).value), FirstIdFrom(mention, 0).value != "0"))
    ensures FirstIdFrom(mention, 0).None? && IsNumeric(mention) ==> r == Some(ResolvedId(IntVal(mention), mention != "0"))
    ensures FirstIdFrom(mention, 0).None? && !IsNumeric(mention) ==>
              (r.Some? <==> exists p, q :: p in nicks && q in p.1 && FoldCase(q.1) == FoldCase(mention))
    ensures FirstIdFrom(mention, 0).None? && !IsNumeric(mention) && r.Some? ==>
              r.value.truthy == (r.value.id != 0)
              && exists i :: 0 <= i < |nicks| && FindNickIn(nicks[i].1, FoldCase(mention)) == Some(r.value.id)
                             && forall j :: 0 <= j < i ==> FindNickIn(nicks[j].1, FoldCase(mention)).None?
  {
    var token := FirstIdFrom(mention, 0);
    if token.Some? then Some(ResolvedId(DigitsValue(token.value), token.value != "0"))
    else if IsNumeric(mention) then Some(ResolvedId(IntVal(mention), mention != "0"))
    else
      match FindNick(nicks, FoldCase(mention))
      case Some(u) => Some(ResolvedId(u, u != 0))
      case None => None
  }

  // ---------------------------------------------------------------- reading a message

  /** `explode(' ', $message['text'] ?? '')`. */
  function Parts(m: Message): (parts: seq<string>)
    ensures |parts| >= 1
  {
    Split(m.text.GetOr(""), ' ')
  }

  /** The command a lower-cased first word names; `!` and `/` are interchangeable. */
  function CommandOf(word: string): Command {
    if word == "!mute" || word == "/mute" then MuteCmd
    else if word == "!unmute" || word == "/unmute" then UnmuteCmd
    else if word == "!ban" || word == "/ban" then BanCmd
    else if word == "!unban" || word == "/unban" then UnbanCmd
    else if word == "!kick" || word == "/kick" then KickCmd
    else if word == "!warn" || word == "/warn" then WarnCmd
    else if word == "!unwarn" || word == "/unwarn" then UnwarnCmd
    else if word == "!nick" || word == "/nick" then NickCmd
    else if word == "!stats" || word == "/stats" then StatsCmd
    else if word == "!unite" || word == "/unite" then UniteCmd
    else if word == "!separate" || word == "/separate" then SeparateCmd
    else if word == "!unified" || word == "/unified" then UnifiedCmd
    else if word == "!addadmin" || word == "/addadmin" then AddAdminCmd
    else if word == "!removeadmin" || word == "/removeadmin" then RemoveAdminCmd
    else if word == "!admins" || word == "/admins" then AdminsCmd
    else if word == "!addmoder" || word == "/addmoder" then AddModerCmd
    else if word == "!removemoder" || word == "/removemoder" then RemoveModerCmd
    else if word == "!moders" || word == "/moders" then ModersCmd
    else if word == "!help" || word == "/help" then HelpCmd
    else NoCommand
  }

  /** `strtolower($parts[0])` looked up as a command. */
  function CommandWord(m: Message): Command {
    CommandOf(AsciiLower(Parts(m)[0]))
  }

  /** The commands only moderators (and admins) may use. */
  predicate IsModerationCommand(c: Command) {
    c.MuteCmd? || c.UnmuteCmd? || c.BanCmd? || c.UnbanCmd? || c.KickCmd? || c.WarnCmd? || c.UnwarnCmd? || c.NickCmd?
  }

  /** `count($parts) >= 2 && $this->resolveUserId($parts[1])`: the mentioned user, when the mention resolves to a true value. */
  function Mentioned(t: Tables, parts: seq<string>): (r: Option<int>)
    ensures r.Some? ==> |parts| >= 2
  {
    if |parts| < 2 then None
    else match ResolveUserId(t.nicknames, parts[1])
      case Some(res) => if res.truthy then Some(res.id) else None
      case None => None
  }

  /** `$reply_user_id` when it is true: the replied-to message has a sender other than 0. */
  function Replied(m: Message): (r: Option<int>)
    ensures r.Some? ==> r.value != 0
  {
    if m.reply.Some? && m.reply.value.fromId.Some? && m.reply.value.fromId.value != 0 then m.reply.value.fromId else None
  }

  /** The target of the commands that take one: the mention first, then the reply. */
  function Target(t: Tables, m: Message): Option<int> {
    var mention := Mentioned(t, Parts(m));
    if mention.Some? then mention else Replied(m)
  }

  /** The mute length: `$parts[$k]` when it is numeric, else the configured default. */
  function MuteLength(cfg: Config, parts: seq<string>, k: nat): int {
    if k < |parts| && IsNumeric(parts[k]) then IntVal(parts[k]) else cfg.muteDuration
  }

  /** The words from `k` on, joined back with single spaces; nothing when there are none. */
  function Tail(parts: seq<string>, k: nat): string {
    if |parts| > k then Text.Join(parts[k..], ' ') else ""
  }

  // ---------------------------------------------------------------- the routing decision

  /** What a message asks the bot to do. */
  datatype Decision =
    | Reply(notice: Notice)
    | DoMute(user: int, duration: int)
    | DoUnmute(user: int)
    | DoBan(user: int)
    | DoUnban(user: int)
    | DoKick(user: int)
    | DoWarn(user: int, reason: string)
    | DoUnwarn(user: int)
    | DoNick(user: int, nickname: string)
    | DoUnite
    | DoSeparate
    | DoAddAdmin(user: int)
    | DoRemoveAdmin(user: int)
    | DoAddModer(user: int)
    | DoRemoveModer(user: int)
    | Ignore

  /**
   * `/mute`: the reply author first (with the length in `parts[1]`), else the mention
   * (with the length in `parts[2]`). A reply from sender 0 gives "no user id", and an admin
   * cannot be muted.
   */
  function RouteMute(cfg: Config, t: Tables, m: Message): (d: Decision)
    ensures d.DoMute? || d.Reply?
    ensures d.DoMute? ==> !IsAdmin(t, d.user)
  {
    var parts := Parts(m);
    if m.reply.Some? && m.reply.value.fromId.Some? then
      var u := m.reply.value.fromId.value;
      if u == 0 then Reply(NoUserId)
      else if IsAdmin(t, u) then Reply(CannotMuteAdmin)
      else DoMute(u, MuteLength(cfg, parts, 1))
    else match Mentioned(t, parts)
      case Some(u) => if IsAdmin(t, u) then Reply(CannotMuteAdmin) else DoMute(u, MuteLength(cfg, parts, 2))
      case None => Reply(Usage(MuteCmd))
  }

  /** `/warn`: the mention (reason from `parts[2]`) or else the reply (reason from `parts[1]`). */
  function RouteWarn(t: Tables, m: Message): (d: Decision)
    ensures d.DoWarn? || d.Reply?
  {
    var parts := Parts(m);
    match Mentioned(t, parts)
    case Some(u) => DoWarn(u, Tail(parts, 2))
    case None =>
      match Replied(m)
      case Some(u) => DoWarn(u, Tail(parts, 1))
      case None => Reply(Usage(WarnCmd))
  }

  /**
   * `/nick`: a mention counts only with at least three words (nickname from `parts[2]`);
   * a reply needs at least two (nickname from `parts[1]`).
   */
  function RouteNick(t: Tables, m: Message): (d: Decision)
    ensures d.DoNick? || d.Reply?
  {
    var parts := Parts(m);
    var mention := if |parts| >= 3 then Mentioned(t, parts) else None;
    if mention.Some? then DoNick(mention.value, Text.Join(parts[2..], ' '))
    else if Replied(m).Some? && |parts| >= 2 then DoNick(Replied(m).value, Text.Join(parts[1..], ' '))
    else Reply(Usage(NickCmd))
  }

  /** The `/stats` card for `u` in `peer`. */
  function Report(cfg: Config, t: Tables, peer: int, u: int, now: int): StatsReport {
    var s := GetUserStats(t.stats, peer, u);
    var left := match Get(t.mutes, u)
      case Some(e) => if e > now then Some(FormatTimeString(e - now)) else None
      case None => None;
    StatsReport(NickOf(t.nicknames, peer, u), s.joinDate, s.messageCount, s.lastMessage,
                WarnCount(t.warns, peer, u), cfg.maxWarnings, left, u in t.bans)
  }

  /** `/stats`: about oneself by default; about someone else only for a moderator. */
  function RouteStats(cfg: Config, t: Tables, m: Message, now: int): (d: Decision)
    ensures d.Reply?
  {
    var u := match Mentioned(t, Parts(m))
      case Some(v) => v
      case None => Replied(m).GetOr(m.fromId);
    if u != m.fromId && !IsModerator(t, m.fromId) then Reply(Denied(StatsOfOthers))
    else Reply(StatsOf(u, Report(cfg, t, m.peerId, u, now)))
  }

  /** The roster commands. */
  predicate IsRosterCommand(c: Command) {
    c.AddAdminCmd? || c.RemoveAdminCmd? || c.AddModerCmd? || c.RemoveModerCmd?
  }

  function RouteRoster(cfg: Config, t: Tables, m: Message, c: Command): (d: Decision)
    requires IsRosterCommand(c)
    ensures d.Reply? || d.DoAddAdmin? || d.DoRemoveAdmin? || d.DoAddModer? || d.DoRemoveModer?
    ensures d.DoAddAdmin? ==> c.AddAdminCmd? && m.fromId in SuperAdmins(cfg, t) && d.user !in t.admins
    ensures d.DoRemoveAdmin? ==>
      c.RemoveAdminCmd? && m.fromId in SuperAdmins(cfg, t) && d.user in t.admins && d.user !in SuperAdmins(cfg, t)
    ensures d.DoAddModer? ==> c.AddModerCmd? && IsAdmin(t, m.fromId) && !IsModerator(t, d.user)
    ensures d.DoRemoveModer? ==> c.RemoveModerCmd? && IsAdmin(t, m.fromId) && d.user in t.moderators
  {
    var from := m.fromId;
    var target := Target(t, m);
    match c
    case AddAdminCmd =>
      if from !in SuperAdmins(cfg, t) then Reply(Denied(SuperAdminsOnlyAdd))
      else if target.None? then Reply(Usage(c))
      else if target.value in t.admins then Reply(AlreadyAdmin)
      else DoAddAdmin(target.value)
    case RemoveAdminCmd =>
      if from !in SuperAdmins(cfg, t) then Reply(Denied(SuperAdminsOnlyRemove))
      else if target.None? then Reply(Usage(c))
      else if target.value !in t.admins then Reply(NotAdmin)
      else if target.value in SuperAdmins(cfg, t) then Reply(CannotRemoveSuperAdmin)
      else DoRemoveAdmin(target.value)
    case AddModerCmd =>
      if !IsAdmin(t, from) then Reply(Denied(AddModerAdminsOnly))
      else if target.None? then Reply(Usage(c))
      else if IsAdmin(t, target.value) then Reply(AlreadyAdmin)
      else if target.value in t.moderators then Reply(AlreadyModerator)
      else DoAddModer(target.value)
    case RemoveModerCmd =>
      if !IsAdmin(t, from) then Reply(Denied(RemoveModerAdminsOnly))
      else if target.None? then Reply(Usage(c))
      else if target.value !in t.moderators then Reply(NotModerator)
      else DoRemoveModer(target.value)
  }

  /** The `switch ($command)` of `processMessage`. */
  function Route(cfg: Config, t: Tables, m: Message, now: int): Decision {
    var c := CommandWord(m);
    var from := m.fromId;
    if IsModerationCommand(c) && !IsModerator(t, from) then Reply(Denied(ModeratorsOnly))
    else
      match c
      case MuteCmd => RouteMute(cfg, t, m)
      case WarnCmd => RouteWarn(t, m)
      case NickCmd => RouteNick(t, m)
      case UnmuteCmd => (match Target(t, m) case Some(u) => DoUnmute(u) case None => Reply(Usage(c)))
      case BanCmd => (match Target(t, m) case Some(u) => DoBan(u) case None => Reply(Usage(c)))
      case UnbanCmd => (match Target(t, m) case Some(u) => DoUnban(u) case None => Reply(Usage(c)))
      case KickCmd => (match Target(t, m) case Some(u) => DoKick(u) case None => Reply(Usage(c)))
      case UnwarnCmd => (match Target(t, m) case Some(u) => DoUnwarn(u) case None => Reply(Usage(c)))
      case StatsCmd => RouteStats(cfg, t, m, now)
      case UniteCmd => if IsAdmin(t, from) then DoUnite else Reply(Denied(AdminsOnly))
      case SeparateCmd => if IsAdmin(t, from) then DoSeparate else Reply(Denied(AdminsOnly))
      case UnifiedCmd => if IsAdmin(t, from) then Reply(UnifiedList(t.unified)) else Reply(Denied(UnifiedListAdminsOnly))
      case AddAdminCmd => RouteRoster(cfg, t, m, c)
      case RemoveAdminCmd => RouteRoster(cfg, t, m, c)
      case AddModerCmd => RouteRoster(cfg, t, m, c)
      case RemoveModerCmd => RouteRoster(cfg, t, m, c)
      case AdminsCmd => Reply(AdminList(t.admins, SuperAdmins(cfg, t)))
      case ModersCmd => if t.moderators == [] then Reply(ModeratorListEmpty) else Reply(ModeratorList(t.moderators))
      case HelpCmd => Reply(Help(if IsAdmin(t, from) then AdminTier else if IsModerator(t, from) then ModeratorTier else MemberTier))
      case NoCommand => Ignore
  }

  // ---------------------------------------------------------------- carrying it out

  /** Carry out a decision in room `peer` on behalf of `from`. */
  function Execute(cfg: Config, t: Tables, peer: int, from: int, d: Decision, now: int): Tables {
    match d
    case Reply(n) => Emit(t, Send(peer, n))
    case DoMute(u, dur) => Mute(cfg, t, peer, u, dur, false, now)
    case DoUnmute(u) => Unmute(cfg, t, peer, u, false, now)
    case DoBan(u) => Ban(cfg, t, peer, u, false, now)
    case DoUnban(u) => Unban(cfg, t, peer, u, false, now)
    case DoKick(u) => Kick(cfg, t, peer, u, false, now)
    case DoWarn(u, reason) => Warn(cfg, t, peer, u, reason, false, now)
    case DoUnwarn(u) => Unwarn(cfg, t, peer, u, false, now)
    case DoNick(u, name) => SetNickname(cfg, t, peer, u, name, from, false, now)
    case DoUnite => EnableUnified(t, peer, from)
    case DoSeparate => DisableUnified(t, peer, from)
    case DoAddAdmin(u) => Emit(t.(admins := t.admins + [u]), Send(peer, AdminAdded(u)))
    case DoRemoveAdmin(u) => Emit(t.(admins := RemoveFirst(t.admins, u)), Send(peer, AdminRemoved(u)))
    case DoAddModer(u) => Emit(t.(moderators := t.moderators + [u]), Send(peer, ModeratorAdded(u)))
    case DoRemoveModer(u) => Emit(t.(moderators := RemoveFirst(t.moderators, u)), Send(peer, ModeratorRemoved(u)))
    case Ignore => t
  }

  /** Whether a service action is an invitation. */
  predicate IsInvite(m: Message) {
    m.action.Some? && (m.action.value.kind == "chat_invite_user" || m.action.value.kind == "chat_invite_user_by_link")
  }

  /**
   * What happens before routing: an invitation of the bot itself gets the greeting; any
   * other invitee is welcomed and gets a join date. Then the sender's message is counted.
   */
  function Intake(cfg: Config, t: Tables, m: Message, now: int): Tables {
    var t1 :=
      if IsInvite(m) then
        var invited := m.action.value.memberId.GetOr(m.fromId);
        if invited == -cfg.groupId then Emit(t, Send(m.peerId, BotGreeting))
        else Emit(t, Send(m.peerId, Welcome(invited))).(stats := UpdateStats(t.stats, m.peerId, invited, Join, now))
      else t;
    t1.(stats := UpdateStats(t1.stats, m.peerId, m.fromId, MessageSent, now))
  }

  /** `processMessage`. */
  function Process(cfg: Config, t: Tables, m: Message, now: int): Tables {
    var t1 := Intake(cfg, t, m, now);
    Execute(cfg, t1, m.peerId, m.fromId, Route(cfg, t1, m, now), now)
  }
}
