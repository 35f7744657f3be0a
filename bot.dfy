/**
 * `VKChatBot` as an object: one field per stored table, the long-poll session and the time
 * of the last expiry sweep. Each method updates the fields step by step, and its contract
 * ties the new state to the table functions of `Moderation` and `Router`.
 */
module Bot {
  import opened Common
  import opened Text
  import opened Assoc
  import opened Types
  import opened Moderation
  import opened TableFacts
  import opened Router
  import opened RouterFacts

  /** Whether an update is a new message, the only kind the bot acts on. */
  predicate IsMessageNew(u: Update) {
    u.kind == "message_new"
  }

  /** The tables after the `message_new` updates of one envelope, in order. */
  function Deliver(cfg: Config, t: Tables, updates: seq<Update>, now: int): Tables {
    if updates == [] then t
    else
      var before := Deliver(cfg, t, updates[..|updates| - 1], now);
      var u := updates[|updates| - 1];
      if IsMessageNew(u) then Process(cfg, before, u.message, now) else before
  }

  /** Handling one more update handles the earlier ones, then that one. */
  lemma DeliverStep(cfg: Config, t: Tables, updates: seq<Update>, i: nat, now: int)
    requires i < |updates|
    ensures Deliver(cfg, t, updates[..i + 1], now) ==
      var before := Deliver(cfg, t, updates[..i], now);
      if IsMessageNew(updates[i]) then Process(cfg, before, updates[i].message, now) else before
  {
    assert updates[..i + 1][..i] == updates[..i];
  }

  /** Handling any batch of updates keeps the tables well formed. */
  lemma {:induction false} DeliverWellFormed(cfg: Config, t: Tables, updates: seq<Update>, now: int)
    requires WellFormed(t)
    ensures WellFormed(Deliver(cfg, t, updates, now))
  {
    if updates != [] {
      DeliverWellFormed(cfg, t, updates[..|updates| - 1], now);
      ProcessSpec(cfg, Deliver(cfg, t, updates[..|updates| - 1], now), updates[|updates| - 1].message, now);
    }
  }

  /** Updates of any other type are skipped. */
  lemma {:induction false} DeliverSkips(cfg: Config, t: Tables, updates: seq<Update>, now: int)
    requires forall i :: 0 <= i < |updates| ==> !IsMessageNew(updates[i])
    ensures Deliver(cfg, t, updates, now) == t
  {
    if updates != [] {
      DeliverSkips(cfg, t, updates[..|updates| - 1], now);
    }
  }

  /** Whether the run loop sweeps expired mutes on this turn: ten seconds since the last sweep. */
  predicate SweepDue(lastCheck: int, now: int) {
    now - lastCheck >= 10
  }

  /** The long-poll session after one response: renewed on `failed`, the cursor moved when `ts` is present. */
  function NextSession(s: Session, resp: PollResponse, renewal: Session): Session {
    match resp
    case TransportFailure => s
    case Envelope(failed, ts, _) =>
      if failed then renewal
      else if ts.Some? then s.(ts := ts.value)
      else s
  }

  class ChatBot {
    const cfg: Config
    var mutes: Assoc<int, int>
    var kicks: map<int, int>
    var bans: seq<int>
    var warns: map<int, map<int, int>>
    var nicknames: Assoc<int, Assoc<int, string>>
    var unified: seq<int>
    var stats: map<int, map<int, UserStats>>
    var admins: seq<int>
    var moderators: seq<int>
    var outbox: seq<Effect>
    /** `longPollServer`, `longPollKey` and `longPollTs`. */
    var session: Session
    /** `$last_check_time` of the run loop. */
    var lastCheckTime: int

    /** The stored tables as one value. */
    function View(): Tables
      reads this
    {
      Tables(mutes, kicks, bans, warns, nicknames, unified, stats, admins, moderators, outbox)
    }

    /** The bot starts from the stored tables and a fresh session; the first turn of the loop sweeps. */
    constructor (cfg: Config, t: Tables, session: Session)
      ensures this.cfg == cfg && View() == t && this.session == session && lastCheckTime == 0
    {
      this.cfg := cfg;
      mutes, kicks, bans, warns, nicknames := t.mutes, t.kicks, t.bans, t.warns, t.nicknames;
      unified, stats, admins, moderators, outbox := t.unified, t.stats, t.admins, t.moderators, t.outbox;
      this.session := session;
      lastCheckTime := 0;
    }

    // ---------------------------------------------------------------- the verbs

    method MuteUser(peer: int, u: int, duration: int, isSync: bool, now: int)
      modifies this`mutes, this`kicks, this`bans, this`warns, this`nicknames, this`outbox
      decreases if isSync then 0 else 2, 0, 0
      ensures View() == Mute(cfg, old(View()), peer, u, duration, isSync, now)
    {
      mutes := Put(mutes, u, now + duration);
      if !isSync {
        outbox := outbox + [Send(peer, Muted(u, FormatTimeString(duration)))];
        if cfg.unifiedMode {
          SyncActionAcrossChats(u, MuteAction(duration), peer, now);
        }
      }
    }

    method UnmuteUser(peer: int, u: int, isSync: bool, now: int)
      modifies this`mutes, this`kicks, this`bans, this`warns, this`nicknames, this`outbox
      decreases if isSync then 0 else 2, 0, 0
      ensures View() == Unmute(cfg, old(View()), peer, u, isSync, now)
    {
      if Get(mutes, u).Some? {
        mutes := Remove(mutes, u);
        if !isSync {
          outbox := outbox + [Send(peer, Unmuted(u))];
          if cfg.unifiedMode {
            SyncActionAcrossChats(u, UnmuteAction, peer, now);
          }
        }
      } else if !isSync {
        outbox := outbox + [Send(peer, NotMuted(u))];
      }
    }

    method BanUser(peer: int, u: int, isSync: bool, now: int)
      modifies this`mutes, this`kicks, this`bans, this`warns, this`nicknames, this`outbox
      decreases if isSync then 0 else 2, 0, 0
      ensures View() == Ban(cfg, old(View()), peer, u, isSync, now)
    {
      if u !in bans {
        bans := bans + [u];
        outbox := outbox + [RemoveFromChat(peer, u)];
        if !isSync {
          outbox := outbox + [Send(peer, Banned(u))];
          if cfg.unifiedMode {
            SyncActionAcrossChats(u, BanAction, peer, now);
          }
        }
      } else if !isSync {
        outbox := outbox + [Send(peer, AlreadyBanned(u))];
      }
    }

    method UnbanUser(peer: int, u: int, isSync: bool, now: int)
      modifies this`mutes, this`kicks, this`bans, this`warns, this`nicknames, this`outbox
      decreases if isSync then 0 else 2, 0, 0
      ensures View() == Unban(cfg, old(View()), peer, u, isSync, now)
    {
      if u in bans {
        bans := RemoveFirst(bans, u);
        if !isSync {
          outbox := outbox + [Send(peer, Unbanned(u))];
          if cfg.unifiedMode {
            SyncActionAcrossChats(u, UnbanAction, peer, now);
          }
        }
      } else if !isSync {
        outbox := outbox + [Send(peer, NotBanned(u))];
      }
    }

    method KickUser(peer: int, u: int, isSync: bool, now: int)
      modifies this`mutes, this`kicks, this`bans, this`warns, this`nicknames, this`outbox
      decreases if isSync then 0 else 2, 0, 0
      ensures View() == Kick(cfg, old(View()), peer, u, isSync, now)
    {
      kicks := kicks[u := now + cfg.kickDuration];
      outbox := outbox + [RemoveFromChat(peer, u)];
      if !isSync {
        outbox := outbox + [Send(peer, Kicked(u, FormatTimeString(cfg.kickDuration)))];
        if cfg.unifiedMode {
          SyncActionAcrossChats(u, KickAction, peer, now);
        }
      }
    }

    method SetNicknameOf(peer: int, u: int, nickname: string, admin: int, isSync: bool, now: int)
      modifies this`mutes, this`kicks, this`bans, this`warns, this`nicknames, this`outbox
      decreases if isSync then 0 else 2, 0, 0
      ensures View() == SetNickname(cfg, old(View()), peer, u, nickname, admin, isSync, now)
    {
      if !isSync && !IsAdmin(View(), admin) {
        outbox := outbox + [Send(peer, Denied(NicknameAdminsOnly))];
        return;
      }
      nicknames := SetNick(nicknames, peer, u, nickname);
      if !isSync {
        outbox := outbox + [Send(peer, NicknameSet(u, nickname))];
        if cfg.unifiedMode {
          SyncActionAcrossChats(u, NicknameAction(nickname, admin), peer, now);
        }
      }
    }

    /**
     * `warnUser`. The auto-mute goes through the ordinary mute, and the counter is then
     * written back as 0 into the copy of the warn table read before the mute.
     */
    method WarnUser(peer: int, u: int, reason: string, isSync: bool, now: int)
      modifies this`mutes, this`kicks, this`bans, this`warns, this`nicknames, this`outbox
      decreases if isSync then 0 else 3, 0, 0
      ensures View() == Warn(cfg, old(View()), peer, u, reason, isSync, now)
    {
      var count := WarnCount(warns, peer, u) + 1;
      warns := SetWarn(warns, peer, u, count);
      if isSync {
        return;
      }
      var warnList := warns;
      outbox := outbox + [Send(peer, Warned(u, count, cfg.maxWarnings, reason))];
      ghost var warned := View();
      if count >= cfg.maxWarnings {
        MuteUser(peer, u, cfg.muteDuration, false, now);
        ghost var muted := View();
        assert muted == Mute(cfg, warned, peer, u, cfg.muteDuration, false, now);
        outbox := outbox + [Send(peer, AutoMuted(u))];
        warns := SetWarn(warnList, peer, u, 0);
        assert View() == Emit(muted, Send(peer, AutoMuted(u))).(warns := SetWarn(warnList, peer, u, 0));
      }
      if cfg.unifiedMode {
        SyncActionAcrossChats(u, WarnAction(reason), peer, now);
      }
    }

    method UnwarnUser(peer: int, u: int, isSync: bool, now: int)
      modifies this`mutes, this`kicks, this`bans, this`warns, this`nicknames, this`outbox
      decreases if isSync then 0 else 2, 0, 0
      ensures View() == Unwarn(cfg, old(View()), peer, u, isSync, now)
    {
      var count := WarnCount(warns, peer, u);
      if count > 0 {
        warns := SetWarn(warns, peer, u, count - 1);
        if !isSync {
          outbox := outbox + [Send(peer, Unwarned(u, count - 1, cfg.maxWarnings))];
          if cfg.unifiedMode {
            SyncActionAcrossChats(u, UnwarnAction, peer, now);
          }
        }
      } else if !isSync {
        outbox := outbox + [Send(peer, NoWarnings(u))];
      }
    }

    // ---------------------------------------------------------------- propagation

    /** One case of the `switch` in `syncActionAcrossChats`: the verb, replayed in `chat`. */
    method Replay(chat: int, u: int, a: Action, now: int)
      modifies this`mutes, this`kicks, this`bans, this`warns, this`nicknames, this`outbox
      decreases 0, 0, if a.WarnAction? then 2 else 1
      ensures View() == Apply(cfg, old(View()), chat, u, a, true, now)
    {
      match a
      case MuteAction(d) => MuteUser(chat, u, d, true, now);
      case UnmuteAction => UnmuteUser(chat, u, true, now);
      case BanAction => BanUser(chat, u, true, now);
      case UnbanAction => UnbanUser(chat, u, true, now);
      case KickAction => KickUser(chat, u, true, now);
      case NicknameAction(name, admin) => SetNicknameOf(chat, u, name, admin, true, now);
      case WarnAction(reason) => WarnUser(chat, u, reason, true, now);
      case UnwarnAction => UnwarnUser(chat, u, true, now);
    }

    /**
     * `syncActionAcrossChats`: replay the action in every unified room but the origin, in
     * list order, each followed by its sync notice.
     */
    method SyncActionAcrossChats(u: int, a: Action, origin: int, now: int)
      modifies this`mutes, this`kicks, this`bans, this`warns, this`nicknames, this`outbox
      decreases 1, 1, 0
      ensures View() == Sync(cfg, old(View()), u, a, origin, now)
    {
      outbox := outbox + [SyncCall(u, a, origin)];
      ghost var start := View();
      var chats := unified;
      var i := 0;
      while i < |chats|
        invariant 0 <= i <= |chats| && unified == chats
        invariant View() == ReplayAll(cfg, start, u, a, origin, chats[..i], now)
      {
        assert chats[..i + 1][..i] == chats[..i];
        if chats[i] != origin {
          Replay(chats[i], u, a, now);
          outbox := outbox + [Send(chats[i], SyncApplied(u, a))];
        }
        i := i + 1;
      }
      assert chats[..i] == chats;
    }

    // ---------------------------------------------------------------- unite / separate

    /** One notice to each room of `chats` but `skip`, in order. */
    method NotifyRooms(chats: seq<int>, skip: Option<int>, n: Notice)
      modifies this`outbox
      ensures outbox == old(outbox) + if skip.Some? then BroadcastExcept(chats, skip.value, n) else Broadcast(chats, n)
    {
      var i := 0;
      while i < |chats|
        invariant 0 <= i <= |chats|
        invariant outbox == old(outbox) + if skip.Some? then BroadcastExcept(chats[..i], skip.value, n) else Broadcast(chats[..i], n)
      {
        assert chats[..i + 1][..i] == chats[..i];
        if skip != Some(chats[i]) {
          outbox := outbox + [Send(chats[i], n)];
        }
        i := i + 1;
      }
      assert chats[..i] == chats;
    }

    /** `enableUnifiedMode`. */
    method EnableUnifiedMode(peer: int, admin: int)
      modifies this`unified, this`outbox
      ensures View() == EnableUnified(old(View()), peer, admin)
    {
      if !IsAdmin(View(), admin) {
        outbox := outbox + [Send(peer, Denied(UniteAdminsOnly))];
        return;
      }
      if peer !in unified {
        unified := unified + [peer];
        NotifyRooms(unified, Some(peer), ChatJoinedNetwork(peer));
        outbox := outbox + [Send(peer, ChatUnited)];
      } else {
        outbox := outbox + [Send(peer, ChatAlreadyUnited)];
      }
    }

    /** `disableUnifiedMode`. */
    method DisableUnifiedMode(peer: int, admin: int)
      modifies this`unified, this`outbox
      ensures View() == DisableUnified(old(View()), peer, admin)
    {
      if !IsAdmin(View(), admin) {
        outbox := outbox + [Send(peer, Denied(SeparateAdminsOnly))];
        return;
      }
      if peer in unified {
        unified := RemoveFirst(unified, peer);
        NotifyRooms(unified, None, ChatLeftNetwork(peer));
        outbox := outbox + [Send(peer, ChatSeparated)];
      } else {
        outbox := outbox + [Send(peer, ChatNotUnited)];
      }
    }

    // ---------------------------------------------------------------- expiry sweep

    /**
     * The `foreach` of `checkExpiredMutes`: the entries still running, and the users whose
     * mute has ended, both in table order.
     */
    method ScanMutes(muteList: Assoc<int, int>, now: int) returns (kept: Assoc<int, int>, expired: seq<int>)
      ensures kept == Unexpired(muteList, now) && expired == ExpiredUsers(muteList, now)
    {
      kept, expired := [], [];
      var i := 0;
      while i < |muteList|
        invariant 0 <= i <= |muteList|
        invariant kept == Unexpired(muteList[..i], now)
        invariant expired == ExpiredUsers(muteList[..i], now)
      {
        assert muteList[..i + 1][..i] == muteList[..i];
        if muteList[i].1 <= now {
          expired := expired + [muteList[i].0];
        } else {
          kept := kept + [muteList[i]];
        }
        i := i + 1;
      }
      assert muteList[..i] == muteList;
    }

    /** For each expired user in turn, one notice to every unified room. */
    method AnnounceExpired(users: seq<int>)
      modifies this`outbox
      ensures outbox == old(outbox) + ExpiryNotices(users, unified)
    {
      var j := 0;
      while j < |users|
        invariant 0 <= j <= |users|
        invariant outbox == old(outbox) + ExpiryNotices(users[..j], unified)
      {
        assert users[..j + 1][..j] == users[..j];
        NotifyRooms(unified, None, MuteExpired(users[j]));
        assert outbox == old(outbox) + (ExpiryNotices(users[..j], unified) + Broadcast(unified, MuteExpired(users[j])));
        j := j + 1;
      }
      assert users[..j] == users;
    }

    /**
     * `checkExpiredMutes`: drop every mute whose end has come, then tell every unified room
     * about each expired user in turn.
     */
    method CheckExpiredMutes(now: int)
      modifies this`mutes, this`outbox
      ensures View() == Sweep(old(View()), now)
    {
      var kept, expired := ScanMutes(mutes, now);
      if expired != [] {
        mutes := kept;
        AnnounceExpired(expired);
      }
    }

    // ---------------------------------------------------------------- one message

    /** `updateUserStats`. */
    method UpdateUserStats(peer: int, u: int, ev: StatsEvent, now: int)
      modifies this`stats
      ensures stats == UpdateStats(old(stats), peer, u, ev, now)
    {
      var inner := if peer in stats then stats[peer] else map[];
      var s := GetUserStats(stats, peer, u);
      match ev {
        case Join =>
          if s.joinDate.None? {
            s := s.(joinDate := Some(now));
          }
        case MessageSent =>
          s := s.(messageCount := s.messageCount + 1, lastMessage := Some(now));
          if s.joinDate.None? {
            s := s.(joinDate := Some(now));
          }
      }
      stats := stats[peer := inner[u := s]];
    }

    /** The part of `processMessage` before the commands: greet or welcome on an invitation, then count the message. */
    method Admit(m: Message, now: int)
      modifies this`stats, this`outbox
      ensures View() == Intake(cfg, old(View()), m, now)
    {
      if IsInvite(m) {
        var invited := m.action.value.memberId.GetOr(m.fromId);
        if invited == -cfg.groupId {
          outbox := outbox + [Send(m.peerId, BotGreeting)];
        } else {
          outbox := outbox + [Send(m.peerId, Welcome(invited))];
          UpdateUserStats(m.peerId, invited, Join, now);
        }
      }
      UpdateUserStats(m.peerId, m.fromId, MessageSent, now);
    }

    /** Carry out one routing decision in `peer` on behalf of `from`. */
    method Perform(peer: int, from: int, d: Decision, now: int)
      modifies this`mutes, this`kicks, this`bans, this`warns, this`nicknames, this`unified
      modifies this`admins, this`moderators, this`outbox
      ensures View() == Execute(cfg, old(View()), peer, from, d, now)
    {
      match d
      case Reply(n) => outbox := outbox + [Send(peer, n)];
      case DoMute(_, _) => PerformVerb(peer, from, d, now);
      case DoUnmute(_) => PerformVerb(peer, from, d, now);
      case DoBan(_) => PerformVerb(peer, from, d, now);
      case DoUnban(_) => PerformVerb(peer, from, d, now);
      case DoKick(_) => PerformVerb(peer, from, d, now);
      case DoWarn(_, _) => PerformVerb(peer, from, d, now);
      case DoUnwarn(_) => PerformVerb(peer, from, d, now);
      case DoNick(_, _) => PerformVerb(peer, from, d, now);
      case DoUnite => EnableUnifiedMode(peer, from);
      case DoSeparate => DisableUnifiedMode(peer, from);
      case DoAddAdmin(u) =>
        admins := admins + [u];
        outbox := outbox + [Send(peer, AdminAdded(u))];
      case DoRemoveAdmin(u) =>
        admins := RemoveFirst(admins, u);
        outbox := outbox + [Send(peer, AdminRemoved(u))];
      case DoAddModer(u) =>
        moderators := moderators + [u];
        outbox := outbox + [Send(peer, ModeratorAdded(u))];
      case DoRemoveModer(u) =>
        moderators := RemoveFirst(moderators, u);
        outbox := outbox + [Send(peer, ModeratorRemoved(u))];
      case Ignore =>
    }

    /** Carry out a moderation verb chosen by the router, always as a direct command. */
    method PerformVerb(peer: int, from: int, d: Decision, now: int)
      requires IsVerb(d)
      modifies this`mutes, this`kicks, this`bans, this`warns, this`nicknames, this`outbox
      ensures View() == Execute(cfg, old(View()), peer, from, d, now)
    {
      match d
      case DoMute(u, dur) => MuteUser(peer, u, dur, false, now);
      case DoUnmute(u) => UnmuteUser(peer, u, false, now);
      case DoBan(u) => BanUser(peer, u, false, now);
      case DoUnban(u) => UnbanUser(peer, u, false, now);
      case DoKick(u) => KickUser(peer, u, false, now);
      case DoWarn(u, reason) => WarnUser(peer, u, reason, false, now);
      case DoUnwarn(u) => UnwarnUser(peer, u, false, now);
      case DoNick(u, name) => SetNicknameOf(peer, u, name, from, false, now);
    }

    /** `processMessage`: admit the message, then carry out what the router decides for it. */
    method ProcessMessage(m: Message, now: int)
      modifies this`mutes, this`kicks, this`bans, this`warns, this`nicknames, this`unified
      modifies this`stats, this`admins, this`moderators, this`outbox
      ensures View() == Process(cfg, old(View()), m, now)
    {
      Admit(m, now);
      var d := Route(cfg, View(), m, now);
      Perform(m.peerId, m.fromId, d, now);
    }

    // ---------------------------------------------------------------- the run loop

    /**
     * One turn of `run`: sweep expired mutes when ten seconds have passed since the last
     * sweep, then act on the long-poll response. A `failed` envelope renews the session and
     * handles nothing; otherwise the cursor moves when `ts` is present and every
     * `message_new` update is handled in order. A transport failure changes nothing more.
     * The clock reading and the response are parameters; `renewal` is what re-initialising
     * the long poll yields.
     */
    method RunIteration(now: int, resp: PollResponse, renewal: Session)
      modifies this
      ensures lastCheckTime == if SweepDue(old(lastCheckTime), now) then now else old(lastCheckTime)
      ensures session == NextSession(old(session), resp, renewal)
      ensures var swept := if SweepDue(old(lastCheckTime), now) then Sweep(old(View()), now) else old(View());
        View() == if resp.Envelope? && !resp.failed then Deliver(cfg, swept, resp.updates.GetOr([]), now) else swept
    {
      if now - lastCheckTime >= 10 {
        CheckExpiredMutes(now);
        lastCheckTime := now;
      }
      match resp
      case TransportFailure =>
      case Envelope(failed, ts, updates) =>
        if failed {
          session := renewal;
          return;
        }
        if ts.Some? {
          session := session.(ts := ts.value);
        }
        HandleUpdates(updates.GetOr([]), now);
    }

    /** Handle one update: a new message is processed, any other kind is skipped. */
    method HandleUpdate(u: Update, now: int)
      modifies this`mutes, this`kicks, this`bans, this`warns, this`nicknames, this`unified
      modifies this`stats, this`admins, this`moderators, this`outbox
      ensures View() == if IsMessageNew(u) then Process(cfg, old(View()), u.message, now) else old(View())
    {
      if IsMessageNew(u) {
        ProcessMessage(u.message, now);
      }
    }

    /** Handle the `message_new` updates of one response in order, skipping every other kind. */
    method HandleUpdates(batch: seq<Update>, now: int)
      modifies this`mutes, this`kicks, this`bans, this`warns, this`nicknames, this`unified
      modifies this`stats, this`admins, this`moderators, this`outbox
      ensures View() == Deliver(cfg, old(View()), batch, now)
    {
      var i := 0;
      while i < |batch|
        invariant 0 <= i <= |batch|
        invariant View() == Deliver(cfg, old(View()), batch[..i], now)
      {
        DeliverStep(cfg, old(View()), batch, i, now);
        HandleUpdate(batch[i], now);
        i := i + 1;
      }
      assert batch[..i] == batch;
    }
  }

  /** A turn of the loop keeps the stored tables well formed. */
  lemma RunKeepsWellFormed(cfg: Config, t: Tables, lastCheck: int, now: int, resp: PollResponse)
    requires WellFormed(t)
    ensures var swept := if SweepDue(lastCheck, now) then Sweep(t, now) else t;
      WellFormed(swept) && WellFormed(Deliver(cfg, swept, if resp.Envelope? then resp.updates.GetOr([]) else [], now))
  {
    SweepSpec(t, now);
    var swept := if SweepDue(lastCheck, now) then Sweep(t, now) else t;
    DeliverWellFormed(cfg, swept, if resp.Envelope? then resp.updates.GetOr([]) else [], now);
  }
}
