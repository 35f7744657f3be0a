/**
 * Properties of the moderation tables: every verb keeps them well formed, the nickname and
 * warning tables change only at the entry written, unite/separate keep the network a list
 * without duplicates, the stats update never loses a join date, and the expiry sweep removes
 * exactly the mutes that have run out.
 */
module TableFacts {
  import opened Common
  import opened Text
  import opened Assoc
  import opened Types
  import opened Moderation

  /** The lists no verb touches: the unified network and the two rosters. */
  predicate SameRosters(t: Tables, r: Tables) {
    r.unified == t.unified && r.admins == t.admins && r.moderators == t.moderators
  }

  // ---------------------------------------------------------------- single entries

  /** Writing a nickname changes that one room-user entry and keeps the nested keys distinct. */
  lemma SetNickSpec(nicks: Assoc<int, Assoc<int, string>>, room: int, u: int, name: string)
    ensures forall r, v :: NickOf(SetNick(nicks, room, u, name), r, v) == if r == room && v == u then Some(name) else NickOf(nicks, r, v)
    ensures NicknamesWellFormed(nicks) ==> NicknamesWellFormed(SetNick(nicks, room, u, name))
  {
    var inner := Get(nicks, room).GetOr([]);
    forall r, v ensures NickOf(SetNick(nicks, room, u, name), r, v) == if r == room && v == u then Some(name) else NickOf(nicks, r, v) {
      GetPut(nicks, room, Put(inner, u, name), r);
      GetPut(inner, u, name, v);
    }
    if NicknamesWellFormed(nicks) {
      PutDistinct(nicks, room, Put(inner, u, name));
      if Get(nicks, room).Some? {
        GetIn(nicks, room, inner);
      }
      PutDistinct(inner, u, name);
      PutEntries(nicks, room, Put(inner, u, name));
    }
  }

  /** Writing a warning count changes that one room-user count. */
  lemma SetWarnSpec(w: map<int, map<int, int>>, room: int, u: int, n: int)
    ensures forall r, v :: WarnCount(SetWarn(w, room, u, n), r, v) == if r == room && v == u then n else WarnCount(w, r, v)
    ensures WarnsNonNegative(w) && n >= 0 ==> WarnsNonNegative(SetWarn(w, room, u, n))
  {
  }

  // ---------------------------------------------------------------- well-formedness

  /**
   * Every verb, direct or replayed, keeps the tables well formed and never changes the
   * unified network or the rosters.
   */
  lemma {:induction false} ApplyWellFormed(cfg: Config, t: Tables, peer: int, u: int, a: Action, isSync: bool, now: int)
    requires WellFormed(t)
    ensures WellFormed(Apply(cfg, t, peer, u, a, isSync, now))
    ensures SameRosters(t, Apply(cfg, t, peer, u, a, isSync, now))
    decreases if isSync then 0 else 3, 0, if a.WarnAction? then 2 else 1
  {
    match a
    case MuteAction(d) => MuteWellFormed(cfg, t, peer, u, d, isSync, now, now + d);
    case UnmuteAction => UnmuteWellFormed(cfg, t, peer, u, isSync, now);
    case BanAction => BanWellFormed(cfg, t, peer, u, isSync, now);
    case UnbanAction => UnbanWellFormed(cfg, t, peer, u, isSync, now);
    case KickAction => KickWellFormed(cfg, t, peer, u, isSync, now);
    case NicknameAction(name, admin) => NicknameWellFormed(cfg, t, peer, u, name, admin, isSync, now);
    case WarnAction(reason) => WarnWellFormed(cfg, t, peer, u, reason, isSync, now);
    case UnwarnAction => UnwarnWellFormed(cfg, t, peer, u, isSync, now);
  }

  lemma {:induction false} MuteWellFormed(cfg: Config, t: Tables, peer: int, u: int, d: int, isSync: bool, now: int, until: int)
    requires WellFormed(t) && until == now + d
    ensures WellFormed(Mute(cfg, t, peer, u, d, isSync, now)) && SameRosters(t, Mute(cfg, t, peer, u, d, isSync, now))
    decreases if isSync then 0 else 3, 0, 0
  {
    PutDistinct(t.mutes, u, until);
    var t1 := t.(mutes := Put(t.mutes, u, until));
    assert WellFormed(t1);
    if !isSync && cfg.unifiedMode {
      SyncWellFormed(cfg, Emit(t1, Send(peer, Muted(u, FormatTimeString(d)))), u, MuteAction(d), peer, now);
    }
  }

  lemma {:induction false} UnmuteWellFormed(cfg: Config, t: Tables, peer: int, u: int, isSync: bool, now: int)
    requires WellFormed(t)
    ensures WellFormed(Unmute(cfg, t, peer, u, isSync, now)) && SameRosters(t, Unmute(cfg, t, peer, u, isSync, now))
    decreases if isSync then 0 else 3, 0, 0
  {
    RemoveDistinct(t.mutes, u);
    if !isSync && cfg.unifiedMode && Get(t.mutes, u).Some? {
      SyncWellFormed(cfg, Emit(t.(mutes := Remove(t.mutes, u)), Send(peer, Unmuted(u))), u, UnmuteAction, peer, now);
    }
  }

  lemma {:induction false} BanWellFormed(cfg: Config, t: Tables, peer: int, u: int, isSync: bool, now: int)
    requires WellFormed(t)
    ensures WellFormed(Ban(cfg, t, peer, u, isSync, now)) && SameRosters(t, Ban(cfg, t, peer, u, isSync, now))
    decreases if isSync then 0 else 3, 0, 0
  {
    if u !in t.bans {
      SnocNoDup(t.bans, u);
      if !isSync && cfg.unifiedMode {
        SyncWellFormed(cfg, Emit(t.(bans := t.bans + [u], outbox := t.outbox + [RemoveFromChat(peer, u)]), Send(peer, Banned(u))), u, BanAction, peer, now);
      }
    }
  }

  lemma {:induction false} UnbanWellFormed(cfg: Config, t: Tables, peer: int, u: int, isSync: bool, now: int)
    requires WellFormed(t)
    ensures WellFormed(Unban(cfg, t, peer, u, isSync, now)) && SameRosters(t, Unban(cfg, t, peer, u, isSync, now))
    decreases if isSync then 0 else 3, 0, 0
  {
    RemoveFirstNoDup(t.bans, u);
    if !isSync && cfg.unifiedMode && u in t.bans {
      SyncWellFormed(cfg, Emit(t.(bans := RemoveFirst(t.bans, u)), Send(peer, Unbanned(u))), u, UnbanAction, peer, now);
    }
  }

  lemma {:induction false} KickWellFormed(cfg: Config, t: Tables, peer: int, u: int, isSync: bool, now: int)
    requires WellFormed(t)
    ensures WellFormed(Kick(cfg, t, peer, u, isSync, now)) && SameRosters(t, Kick(cfg, t, peer, u, isSync, now))
    decreases if isSync then 0 else 3, 0, 0
  {
    if !isSync && cfg.unifiedMode {
      var t1 := t.(kicks := t.kicks[u := now + cfg.kickDuration], outbox := t.outbox + [RemoveFromChat(peer, u)]);
      SyncWellFormed(cfg, Emit(t1, Send(peer, Kicked(u, FormatTimeString(cfg.kickDuration)))), u, KickAction, peer, now);
    }
  }

  lemma {:induction false} NicknameWellFormed(cfg: Config, t: Tables, peer: int, u: int, name: string, admin: int, isSync: bool, now: int)
    requires WellFormed(t)
    ensures WellFormed(SetNickname(cfg, t, peer, u, name, admin, isSync, now)) && SameRosters(t, SetNickname(cfg, t, peer, u, name, admin, isSync, now))
    decreases if isSync then 0 else 3, 0, 0
  {
    SetNickSpec(t.nicknames, peer, u, name);
    if !isSync && cfg.unifiedMode && IsAdmin(t, admin) {
      SyncWellFormed(cfg, Emit(t.(nicknames := SetNick(t.nicknames, peer, u, name)), Send(peer, NicknameSet(u, name))), u, NicknameAction(name, admin), peer, now);
    }
  }

  lemma {:induction false} WarnWellFormed(cfg: Config, t: Tables, peer: int, u: int, reason: string, isSync: bool, now: int)
    requires WellFormed(t)
    ensures WellFormed(Warn(cfg, t, peer, u, reason, isSync, now)) && SameRosters(t, Warn(cfg, t, peer, u, reason, isSync, now))
    decreases if isSync then 0 else 3, 0, 1
  {
    var count := WarnCount(t.warns, peer, u) + 1;
    SetWarnSpec(t.warns, peer, u, count);
    var t1 := t.(warns := SetWarn(t.warns, peer, u, count));
    if !isSync {
      var t2 := Emit(t1, Send(peer, Warned(u, count, cfg.maxWarnings, reason)));
      var t3 := t2;
      if count >= cfg.maxWarnings {
        SetWarnSpec(t1.warns, peer, u, 0);
        MuteWellFormed(cfg, t2, peer, u, cfg.muteDuration, false, now, now + cfg.muteDuration);
        var muted := Mute(cfg, t2, peer, u, cfg.muteDuration, false, now);
        t3 := Emit(muted, Send(peer, AutoMuted(u))).(warns := SetWarn(t1.warns, peer, u, 0));
      }
      if cfg.unifiedMode {
        SyncWellFormed(cfg, t3, u, WarnAction(reason), peer, now);
      }
    }
  }

  lemma {:induction false} UnwarnWellFormed(cfg: Config, t: Tables, peer: int, u: int, isSync: bool, now: int)
    requires WellFormed(t)
    ensures WellFormed(Unwarn(cfg, t, peer, u, isSync, now)) && SameRosters(t, Unwarn(cfg, t, peer, u, isSync, now))
    decreases if isSync then 0 else 3, 0, 0
  {
    var count := WarnCount(t.warns, peer, u);
    SetWarnSpec(t.warns, peer, u, count - 1);
    if !isSync && cfg.unifiedMode && count > 0 {
      SyncWellFormed(cfg, Emit(t.(warns := SetWarn(t.warns, peer, u, count - 1)), Send(peer, Unwarned(u, count - 1, cfg.maxWarnings))), u, UnwarnAction, peer, now);
    }
  }

  /** `syncActionAcrossChats` keeps the tables well formed. */
  lemma {:induction false} SyncWellFormed(cfg: Config, t: Tables, u: int, a: Action, origin: int, now: int)
    requires WellFormed(t)
    ensures WellFormed(Sync(cfg, t, u, a, origin, now)) && SameRosters(t, Sync(cfg, t, u, a, origin, now))
    decreases 1, 1, 0
  {
    ReplayAllWellFormed(cfg, Emit(t, SyncCall(u, a, origin)), u, a, origin, t.unified, now);
  }

  lemma {:induction false} ReplayAllWellFormed(cfg: Config, t: Tables, u: int, a: Action, origin: int, chats: seq<int>, now: int)
    requires WellFormed(t)
    ensures WellFormed(ReplayAll(cfg, t, u, a, origin, chats, now)) && SameRosters(t, ReplayAll(cfg, t, u, a, origin, chats, now))
    decreases 1, 0, |chats|
  {
    if chats != [] {
      ReplayAllWellFormed(cfg, t, u, a, origin, chats[..|chats| - 1], now);
      var before := ReplayAll(cfg, t, u, a, origin, chats[..|chats| - 1], now);
      ApplyWellFormed(cfg, before, chats[|chats| - 1], u, a, true, now);
    }
  }

  // ---------------------------------------------------------------- unite / separate

  /** A broadcast sends `n` once per occurrence of a room in the list, and nothing else. */
  lemma {:induction false} BroadcastCount(chats: seq<int>, n: Notice, c: int, n': Notice)
    ensures |Broadcast(chats, n)| == |chats|
    ensures multiset(Broadcast(chats, n))[Send(c, n')] == if n' == n then multiset(chats)[c] else 0
  {
    if chats != [] {
      var init := chats[..|chats| - 1];
      assert chats == init + [chats[|chats| - 1]];
      BroadcastCount(init, n, c, n');
    }
  }

  /** Skipping a room that is not in the list skips nothing. */
  lemma {:induction false} BroadcastExceptAbsent(chats: seq<int>, skip: int, n: Notice)
    requires skip !in chats
    ensures BroadcastExcept(chats, skip, n) == Broadcast(chats, n)
  {
    if chats != [] {
      BroadcastExceptAbsent(chats[..|chats| - 1], skip, n);
    }
  }

  /**
   * `enableUnifiedMode`: an admin's room joins the network once (a second call only answers),
   * every room already in the network hears of it, and no other table changes.
   */
  lemma EnableUnifiedSpec(t: Tables, peer: int, admin: int)
    requires NoDup(t.unified)
    ensures NoDup(EnableUnified(t, peer, admin).unified)
    ensures EnableUnified(t, peer, admin).unified == if IsAdmin(t, admin) && peer !in t.unified then t.unified + [peer] else t.unified
    ensures EnableUnified(t, peer, admin).(unified := t.unified, outbox := t.outbox) == t
    ensures EnableUnified(t, peer, admin).outbox == t.outbox +
      if !IsAdmin(t, admin) then [Send(peer, Denied(UniteAdminsOnly))]
      else if peer in t.unified then [Send(peer, ChatAlreadyUnited)]
      else Broadcast(t.unified, ChatJoinedNetwork(peer)) + [Send(peer, ChatUnited)]
  {
    if IsAdmin(t, admin) && peer !in t.unified {
      SnocNoDup(t.unified, peer);
      var chats := t.unified + [peer];
      assert chats[..|chats| - 1] == t.unified;
      BroadcastExceptAbsent(t.unified, peer, ChatJoinedNetwork(peer));
    }
  }

  /**
   * `disableUnifiedMode`: an admin's room leaves the network and nothing else does; the rooms
   * that remain hear of it; no other table changes.
   */
  lemma DisableUnifiedSpec(t: Tables, peer: int, admin: int)
    requires NoDup(t.unified)
    ensures NoDup(DisableUnified(t, peer, admin).unified)
    ensures forall c :: c in DisableUnified(t, peer, admin).unified <==> c in t.unified && !(c == peer && IsAdmin(t, admin))
    ensures DisableUnified(t, peer, admin).(unified := t.unified, outbox := t.outbox) == t
    ensures DisableUnified(t, peer, admin).outbox == t.outbox +
      if !IsAdmin(t, admin) then [Send(peer, Denied(SeparateAdminsOnly))]
      else if peer !in t.unified then [Send(peer, ChatNotUnited)]
      else Broadcast(DisableUnified(t, peer, admin).unified, ChatLeftNetwork(peer)) + [Send(peer, ChatSeparated)]
  {
    RemoveFirstNoDup(t.unified, peer);
  }

  // ---------------------------------------------------------------- user stats

  /**
   * `updateUserStats` changes one record: a message adds one to the count and stamps the
   * time, and either event sets the join date only when there was none.
   */
  lemma StatsUpdateSpec(stats: map<int, map<int, UserStats>>, room: int, u: int, ev: StatsEvent, now: int)
    ensures GetUserStats(UpdateStats(stats, room, u, ev, now), room, u).joinDate ==
      if GetUserStats(stats, room, u).joinDate.Some? then GetUserStats(stats, room, u).joinDate else Some(now)
    ensures GetUserStats(UpdateStats(stats, room, u, ev, now), room, u).messageCount == GetUserStats(stats, room, u).messageCount + if ev == MessageSent then 1 else 0
    ensures GetUserStats(UpdateStats(stats, room, u, ev, now), room, u).lastMessage == if ev == MessageSent then Some(now) else GetUserStats(stats, room, u).lastMessage
    ensures forall r, v :: r != room || v != u ==> GetUserStats(UpdateStats(stats, room, u, ev, now), r, v) == GetUserStats(stats, r, v)
  {
  }

  // ---------------------------------------------------------------- expiry sweep

  lemma SplitLast<K, V>(m: Assoc<K, V>)
    requires DistinctKeys(m) && m != []
    ensures m == m[..|m| - 1] + [m[|m| - 1]]
    ensures DistinctKeys(m[..|m| - 1]) && m[|m| - 1].0 !in Keys(m[..|m| - 1])
  {
    KeysAppend(m[..|m| - 1], m[|m| - 1]);
    assert m == m[..|m| - 1] + [m[|m| - 1]];
    InitNoDup(Keys(m));
    assert Keys(m)[..|m| - 1] == Keys(m[..|m| - 1]);
  }

  /** The sweep keeps exactly the entries whose expiry is still ahead, with their values. */
  lemma {:induction false} UnexpiredSpec(m: Assoc<int, int>, now: int)
    requires DistinctKeys(m)
    ensures DistinctKeys(Unexpired(m, now))
    ensures forall k :: Get(Unexpired(m, now), k) == if Get(m, k).Some? && Get(m, k).value > now then Get(m, k) else None
  {
    if m != [] {
      var init, p := m[..|m| - 1], m[|m| - 1];
      SplitLast(m);
      UnexpiredSpec(init, now);
      var kept := Unexpired(init, now);
      assert Unexpired(m, now) == kept + if p.1 <= now then [] else [p];
      assert Get(kept, p.0) == None by {
        GetAppend(init, p, p.0);
      }
      forall k ensures Get(Unexpired(m, now), k) == if Get(m, k).Some? && Get(m, k).value > now then Get(m, k) else None {
        GetAppend(init, p, k);
        assert Get(m, k) == if k in Keys(init) then Get(init, k) else if p.0 == k then Some(p.1) else None;
        if p.1 > now {
          GetAppend(kept, p, k);
          if k in Keys(init) {
            assert k != p.0;
            assert Get(kept, k).Some? ==> k in Keys(kept);
          }
        } else {
          assert Unexpired(m, now) == kept + [] == kept;
        }
      }
      if p.1 > now {
        AppendDistinct(Unexpired(init, now), p);
      }
    }
  }

  /** The users the sweep announces are exactly those whose expiry has passed, each once. */
  lemma {:induction false} ExpiredUsersSpec(m: Assoc<int, int>, now: int)
    requires DistinctKeys(m)
    ensures NoDup(ExpiredUsers(m, now))
    ensures forall v :: v in ExpiredUsers(m, now) <==> Get(m, v).Some? && Get(m, v).value <= now
  {
    if m != [] {
      var init, p := m[..|m| - 1], m[|m| - 1];
      SplitLast(m);
      ExpiredUsersSpec(init, now);
      forall v ensures v in ExpiredUsers(m, now) <==> Get(m, v).Some? && Get(m, v).value <= now {
        GetAppend(init, p, v);
      }
      if p.1 <= now {
        SnocNoDup(ExpiredUsers(init, now), p.0);
      }
    }
  }

  /** Each expired user is announced once in a room that occurs once. */
  lemma {:induction false} ExpiryNoticesCount(users: seq<int>, chats: seq<int>, v: int, c: int)
    requires multiset(chats)[c] <= 1
    ensures multiset(ExpiryNotices(users, chats))[Send(c, MuteExpired(v))] == if c in chats then multiset(users)[v] else 0
  {
    if users != [] {
      var init, last := users[..|users| - 1], users[|users| - 1];
      var b := Broadcast(chats, MuteExpired(last));
      ExpiryNoticesCount(init, chats, v, c);
      BroadcastCount(chats, MuteExpired(last), c, MuteExpired(v));
      ConcatCount(ExpiryNotices(init, chats), b, Send(c, MuteExpired(v)));
      LastSplit(users);
      ConcatCount(init, [last], v);
    }
  }

  lemma ConcatCount<T>(a: seq<T>, b: seq<T>, x: T)
    ensures multiset(a + b)[x] == multiset(a)[x] + multiset(b)[x]
  {
  }

  lemma MulSucc(a: int, b: int)
    ensures (a + 1) * b == a * b + b
  {
  }

  /** The sweep sends as many notices as expired users times unified rooms. */
  lemma {:induction false} ExpiryNoticesLength(users: seq<int>, chats: seq<int>)
    ensures |ExpiryNotices(users, chats)| == |users| * |chats|
  {
    if users != [] {
      var init := users[..|users| - 1];
      ExpiryNoticesLength(init, chats);
      BroadcastCount(chats, MuteExpired(users[|users| - 1]), 0, MuteExpired(0));
      MulSucc(|init|, |chats|);
    }
  }

  /** Over duplicate-free lists, each user is announced exactly once in each room. */
  lemma NoticeOnce(users: seq<int>, chats: seq<int>, v: int, c: int)
    requires NoDup(users) && NoDup(chats)
    ensures multiset(ExpiryNotices(users, chats))[Send(c, MuteExpired(v))] == if c in chats && v in users then 1 else 0
  {
    NoDupCount(chats, c);
    NoDupCount(users, v);
    ExpiryNoticesCount(users, chats, v, c);
  }

  /**
   * `checkExpiredMutes`: the mutes whose expiry is at or before `now` are removed and every
   * other entry is kept; no other table changes, and the tables stay well formed.
   */
  lemma SweepSpec(t: Tables, now: int)
    requires WellFormed(t)
    ensures WellFormed(Sweep(t, now))
    ensures forall k :: Get(Sweep(t, now).mutes, k) == if Get(t.mutes, k).Some? && Get(t.mutes, k).value > now then Get(t.mutes, k) else None
    ensures Sweep(t, now).(mutes := t.mutes, outbox := t.outbox) == t
  {
    UnexpiredSpec(t.mutes, now);
    if ExpiredUsers(t.mutes, now) == [] {
      ExpiredUsersSpec(t.mutes, now);
      forall k | Get(t.mutes, k).Some? ensures Get(t.mutes, k).value > now {
        assert k !in ExpiredUsers(t.mutes, now);
      }
    }
  }

  /** Each user whose mute has ended is announced exactly once in each room. */
  lemma NoticesFor(m: Assoc<int, int>, chats: seq<int>, now: int, v: int, c: int)
    requires DistinctKeys(m) && NoDup(chats)
    ensures multiset(ExpiryNotices(ExpiredUsers(m, now), chats))[Send(c, MuteExpired(v))] ==
              if c in chats && Get(m, v).Some? && Get(m, v).value <= now then 1 else 0
  {
    ExpiredUsersSpec(m, now);
    NoticeOnce(ExpiredUsers(m, now), chats, v, c);
  }

  /**
   * The sweep appends exactly its notices to the outbox: for each expired user in table
   * order, one to each unified room, so nothing when there are no unified rooms.
   */
  lemma SweepSends(t: Tables, now: int)
    ensures Sweep(t, now).outbox == t.outbox + ExpiryNotices(ExpiredUsers(t.mutes, now), t.unified)
  {
    if ExpiredUsers(t.mutes, now) == [] {
      assert t.outbox + [] == t.outbox;
    }
  }

  /** The sweep sends as many notices as expired users times unified rooms. */
  lemma SweepLength(t: Tables, now: int)
    ensures |Sweep(t, now).outbox| == |t.outbox| + |ExpiredUsers(t.mutes, now)| * |t.unified|
  {
    SweepSends(t, now);
    ExpiryNoticesLength(ExpiredUsers(t.mutes, now), t.unified);
  }
}
