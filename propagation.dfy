/**
 * What propagation does. `syncActionAcrossChats` makes one replay in every unified room
 * except the one the action came from. A replayed verb makes no further call and sends
 * nothing of its own, so the calls a propagation makes are exactly `ReplayLog`. For each
 * direct verb, the tables and outbox that result are stated in closed form.
 */
module Propagation {
  import opened Common
  import opened Text
  import opened Assoc
  import opened Types
  import opened Moderation
  import opened TableFacts

  /**
   * The calls one replay loop makes over `chats`. In every room but the origin, in list
   * order: the removal a replayed kick makes, then the sync notice.
   */
  function ReplayLog(u: int, a: Action, origin: int, chats: seq<int>): seq<Effect> {
    if chats == [] then []
    else ReplayLog(u, a, origin, chats[..|chats| - 1]) + ReplayStep(u, a, origin, chats[|chats| - 1])
  }

  /** The calls of one turn of the loop, in room `c`. */
  function ReplayStep(u: int, a: Action, origin: int, c: int): seq<Effect> {
    if c == origin then [] else (if a.KickAction? then [RemoveFromChat(c, u)] else []) + [Send(c, SyncApplied(u, a))]
  }

  /** What a direct verb appends for propagation: nothing with `unified_mode` off, else the sync call and its replays. */
  function PropagationLog(cfg: Config, u: int, a: Action, origin: int, chats: seq<int>): seq<Effect> {
    if cfg.unifiedMode then [SyncCall(u, a, origin)] + ReplayLog(u, a, origin, chats) else []
  }

  /**
   * Tables on which a replay of `a` changes nothing but the outbox, because the direct call
   * has already made the change. Nickname and warning replays write per-room entries, so
   * they are never settled.
   */
  predicate Settled(cfg: Config, t: Tables, u: int, a: Action, now: int) {
    match a
    case MuteAction(d) => DistinctKeys(t.mutes) && Get(t.mutes, u) == Some(now + d)
    case UnmuteAction => Get(t.mutes, u).None?
    case BanAction => u in t.bans
    case UnbanAction => u !in t.bans
    case KickAction => u in t.kicks && t.kicks[u] == now + cfg.kickDuration
    case _ => false
  }

  // ---------------------------------------------------------------- one replay

  /**
   * A replayed verb (`is_sync = true`) never calls `syncActionAcrossChats` and sends no
   * message. Its only outbound call is the removal that a kick makes, or a ban of a user
   * not yet banned. It writes the ban list only as a ban or an unban would.
   */
  lemma ReplayedOutbox(cfg: Config, t: Tables, peer: int, u: int, a: Action, now: int)
    ensures Apply(cfg, t, peer, u, a, true, now).outbox ==
      t.outbox + if a.KickAction? || (a.BanAction? && u !in t.bans) then [RemoveFromChat(peer, u)] else []
    ensures Apply(cfg, t, peer, u, a, true, now).bans ==
      if a.BanAction? && u !in t.bans then t.bans + [u] else if a.UnbanAction? then RemoveFirst(t.bans, u) else t.bans
    ensures SameRosters(t, Apply(cfg, t, peer, u, a, true, now))
  {
    match a
    case MuteAction(d) =>
    case UnmuteAction =>
    case BanAction =>
    case UnbanAction =>
    case KickAction =>
    case NicknameAction(name, admin) =>
    case WarnAction(reason) =>
    case UnwarnAction =>
  }

  /** On settled tables a replay only adds to the outbox. */
  lemma ReplayedSettled(cfg: Config, t: Tables, peer: int, u: int, a: Action, now: int)
    requires Settled(cfg, t, u, a, now)
    ensures Apply(cfg, t, peer, u, a, true, now) == t.(outbox := Apply(cfg, t, peer, u, a, true, now).outbox)
  {
    match a
    case MuteAction(d) =>
      ReplayedMuteSettled(cfg, t, peer, u, d, now, now + d);
    case UnmuteAction =>
    case BanAction =>
    case UnbanAction =>
    case KickAction =>
      assert t.kicks[u := now + cfg.kickDuration] == t.kicks;
  }

  /** A replayed mute that finds the same expiry already stored changes nothing. */
  lemma ReplayedMuteSettled(cfg: Config, t: Tables, peer: int, u: int, d: int, now: int, until: int)
    requires until == now + d && DistinctKeys(t.mutes) && Get(t.mutes, u) == Some(until)
    ensures Mute(cfg, t, peer, u, d, true, now) == t
  {
    ReplayedMute(cfg, t, peer, u, d, now, until);
    PutPresent(t.mutes, u, until);
  }

  /** A replayed mute only writes the expiry. */
  lemma ReplayedMute(cfg: Config, t: Tables, peer: int, u: int, d: int, now: int, until: int)
    requires until == now + d
    ensures Mute(cfg, t, peer, u, d, true, now) == t.(mutes := Put(t.mutes, u, until))
  {
  }

  // ---------------------------------------------------------------- the replay loop

  /** The calls a replay loop makes are `ReplayLog`, once a replayed ban finds its user banned. */
  lemma {:induction false} ReplayAllOutbox(cfg: Config, t: Tables, u: int, a: Action, origin: int, chats: seq<int>, now: int)
    requires a.BanAction? ==> u in t.bans
    ensures ReplayAll(cfg, t, u, a, origin, chats, now).outbox == t.outbox + ReplayLog(u, a, origin, chats)
    ensures a.BanAction? ==> u in ReplayAll(cfg, t, u, a, origin, chats, now).bans
  {
    if chats != [] {
      var init, c := chats[..|chats| - 1], chats[|chats| - 1];
      ReplayAllOutbox(cfg, t, u, a, origin, init, now);
      var before := ReplayAll(cfg, t, u, a, origin, init, now);
      if c != origin {
        ReplayedOutbox(cfg, before, c, u, a, now);
      }
    }
  }

  /** On settled tables the whole loop only adds `ReplayLog` to the outbox. */
  lemma {:induction false} ReplayAllSettled(cfg: Config, t: Tables, u: int, a: Action, origin: int, chats: seq<int>, now: int)
    requires Settled(cfg, t, u, a, now)
    ensures ReplayAll(cfg, t, u, a, origin, chats, now) == t.(outbox := t.outbox + ReplayLog(u, a, origin, chats))
  {
    if chats != [] {
      var init, c := chats[..|chats| - 1], chats[|chats| - 1];
      ReplayAllSettled(cfg, t, u, a, origin, init, now);
      var before := t.(outbox := t.outbox + ReplayLog(u, a, origin, init));
      assert ReplayAll(cfg, t, u, a, origin, chats, now) ==
        if c == origin then before else ReplayIn(cfg, before, u, a, c, now);
      if c != origin {
        SettledStep(cfg, t, before, u, a, c, now);
      }
    }
  }

  /** Propagation from settled tables logs the sync call and the replays, and changes nothing else. */
  lemma SyncSettled(cfg: Config, t: Tables, u: int, a: Action, origin: int, now: int)
    requires Settled(cfg, t, u, a, now)
    ensures Sync(cfg, t, u, a, origin, now) == t.(outbox := t.outbox + ([SyncCall(u, a, origin)] + ReplayLog(u, a, origin, t.unified)))
  {
    var t1 := Emit(t, SyncCall(u, a, origin));
    assert Settled(cfg, t1, u, a, now);
    ReplayAllSettled(cfg, t1, u, a, origin, t1.unified, now);
    AppendAssoc(t.outbox, [SyncCall(u, a, origin)], ReplayLog(u, a, origin, t.unified));
  }

  /** One turn of the loop on settled tables: the turn's calls are added, nothing else changes. */
  lemma SettledStep(cfg: Config, t: Tables, before: Tables, u: int, a: Action, c: int, now: int)
    requires Settled(cfg, t, u, a, now) && before == t.(outbox := before.outbox)
    ensures ReplayIn(cfg, before, u, a, c, now) ==
      before.(outbox := before.outbox + (if a.KickAction? then [RemoveFromChat(c, u)] else []) + [Send(c, SyncApplied(u, a))])
  {
    assert Settled(cfg, before, u, a, now);
    ReplayedSettled(cfg, before, c, u, a, now);
    ReplayedOutbox(cfg, before, c, u, a, now);
  }

  /**
   * Fan-out: the log holds exactly one sync notice for each occurrence of a room other
   * than the origin.
   */
  lemma {:induction false} ReplayLogFanOut(u: int, a: Action, origin: int, chats: seq<int>, c: int)
    ensures multiset(ReplayLog(u, a, origin, chats))[Send(c, SyncApplied(u, a))] == if c == origin then 0 else multiset(chats)[c]
  {
    if chats != [] {
      var init, last := chats[..|chats| - 1], chats[|chats| - 1];
      var e := Send(c, SyncApplied(u, a));
      ReplayLogFanOut(u, a, origin, init, c);
      ConcatCount(ReplayLog(u, a, origin, init), ReplayStep(u, a, origin, last), e);
      assert multiset(ReplayStep(u, a, origin, last))[e] == if last == c && c != origin then 1 else 0;
      LastSplit(chats);
      ConcatCount(init, [last], c);
    }
  }

  /** Removals in other rooms: one per occurrence for a kick, none for any other action. */
  lemma {:induction false} ReplayLogRemovals(u: int, a: Action, origin: int, chats: seq<int>, c: int)
    ensures multiset(ReplayLog(u, a, origin, chats))[RemoveFromChat(c, u)] == if c == origin || !a.KickAction? then 0 else multiset(chats)[c]
  {
    if chats != [] {
      var init, last := chats[..|chats| - 1], chats[|chats| - 1];
      var e := RemoveFromChat(c, u);
      ReplayLogRemovals(u, a, origin, init, c);
      ConcatCount(ReplayLog(u, a, origin, init), ReplayStep(u, a, origin, last), e);
      assert multiset(ReplayStep(u, a, origin, last))[e] == if last == c && c != origin && a.KickAction? then 1 else 0;
      LastSplit(chats);
      ConcatCount(init, [last], c);
    }
  }

  /** The log holds nothing but those notices and removals; in particular no further sync call. */
  lemma {:induction false} ReplayLogOnly(u: int, a: Action, origin: int, chats: seq<int>)
    ensures forall e :: e in ReplayLog(u, a, origin, chats) ==>
              || (e.Send? && e.notice == SyncApplied(u, a) && e.peer != origin)
              || (e.RemoveFromChat? && a.KickAction? && e.user == u && e.chat != origin)
  {
    if chats != [] {
      ReplayLogOnly(u, a, origin, chats[..|chats| - 1]);
    }
  }

  /**
   * `syncActionAcrossChats` over a network without duplicates: one logged call, then exactly
   * one sync notice in each unified room other than the origin, and none elsewhere.
   */
  lemma SyncFanOut(cfg: Config, t: Tables, u: int, a: Action, origin: int, now: int)
    requires NoDup(t.unified)
    requires a.BanAction? ==> u in t.bans
    ensures Sync(cfg, t, u, a, origin, now).outbox == t.outbox + [SyncCall(u, a, origin)] + ReplayLog(u, a, origin, t.unified)
    ensures forall c :: multiset(ReplayLog(u, a, origin, t.unified))[Send(c, SyncApplied(u, a))] == if c in t.unified && c != origin then 1 else 0
  {
    ReplayAllOutbox(cfg, Emit(t, SyncCall(u, a, origin)), u, a, origin, t.unified, now);
    forall c ensures multiset(ReplayLog(u, a, origin, t.unified))[Send(c, SyncApplied(u, a))] == if c in t.unified && c != origin then 1 else 0 {
      ReplayLogFanOut(u, a, origin, t.unified, c);
      NoDupCount(t.unified, c);
    }
  }

  // ---------------------------------------------------------------- per-room replays

  /** Replayed nicknames are written in every room of the loop but the origin, and nowhere else. */
  lemma {:induction false} ReplayAllNicknames(cfg: Config, t: Tables, u: int, name: string, admin: int, origin: int, chats: seq<int>, now: int)
    ensures forall r, v ::
              NickOf(ReplayAll(cfg, t, u, NicknameAction(name, admin), origin, chats, now).nicknames, r, v) ==
              if v == u && r in chats && r != origin then Some(name) else NickOf(t.nicknames, r, v)
    ensures ReplayAll(cfg, t, u, NicknameAction(name, admin), origin, chats, now).(nicknames := t.nicknames, outbox := t.outbox) == t
  {
    if chats != [] {
      var init, c := chats[..|chats| - 1], chats[|chats| - 1];
      ReplayAllNicknames(cfg, t, u, name, admin, origin, init, now);
      var before := ReplayAll(cfg, t, u, NicknameAction(name, admin), origin, init, now);
      SetNickSpec(before.nicknames, c, u, name);
      if c != origin {
        var a := NicknameAction(name, admin);
        assert ReplayAll(cfg, t, u, a, origin, chats, now) == ReplayIn(cfg, before, u, a, c, now);
        assert Apply(cfg, before, c, u, a, true, now) == SetNickname(cfg, before, c, u, name, admin, true, now);
        assert ReplayAll(cfg, t, u, a, origin, chats, now) ==
          Emit(before.(nicknames := SetNick(before.nicknames, c, u, name)), Send(c, SyncApplied(u, a)));
      }
      LastSplit(chats);
      assert forall r :: r in chats <==> r in init || r == c;
    }
  }

  /** A replayed warning adds one in every room of the loop but the origin, and nowhere else. */
  lemma {:induction false} ReplayAllWarns(cfg: Config, t: Tables, u: int, reason: string, origin: int, chats: seq<int>, now: int)
    requires NoDup(chats)
    ensures forall r, v ::
              WarnCount(ReplayAll(cfg, t, u, WarnAction(reason), origin, chats, now).warns, r, v) ==
              WarnCount(t.warns, r, v) + if v == u && r in chats && r != origin then 1 else 0
    ensures ReplayAll(cfg, t, u, WarnAction(reason), origin, chats, now).(warns := t.warns, outbox := t.outbox) == t
  {
    if chats != [] {
      var init, c := chats[..|chats| - 1], chats[|chats| - 1];
      InitNoDup(chats);
      ReplayAllWarns(cfg, t, u, reason, origin, init, now);
      var before := ReplayAll(cfg, t, u, WarnAction(reason), origin, init, now);
      SetWarnSpec(before.warns, c, u, WarnCount(before.warns, c, u) + 1);
      if c != origin {
        var a := WarnAction(reason);
        assert ReplayAll(cfg, t, u, a, origin, chats, now) == ReplayIn(cfg, before, u, a, c, now);
        assert Apply(cfg, before, c, u, a, true, now) == Warn(cfg, before, c, u, reason, true, now);
        assert ReplayAll(cfg, t, u, a, origin, chats, now) ==
          Emit(before.(warns := SetWarn(before.warns, c, u, WarnCount(before.warns, c, u) + 1)), Send(c, SyncApplied(u, a)));
      }
      LastSplit(chats);
      assert forall r :: r in chats <==> r in init || r == c;
    }
  }

  /** A replayed unwarn takes one back in every room of the loop but the origin where there is one. */
  lemma {:induction false} ReplayAllUnwarns(cfg: Config, t: Tables, u: int, origin: int, chats: seq<int>, now: int)
    requires NoDup(chats)
    ensures forall r, v ::
              WarnCount(ReplayAll(cfg, t, u, UnwarnAction, origin, chats, now).warns, r, v) ==
              WarnCount(t.warns, r, v) - if v == u && r in chats && r != origin && WarnCount(t.warns, r, v) > 0 then 1 else 0
    ensures ReplayAll(cfg, t, u, UnwarnAction, origin, chats, now).(warns := t.warns, outbox := t.outbox) == t
  {
    if chats != [] {
      var init, c := chats[..|chats| - 1], chats[|chats| - 1];
      InitNoDup(chats);
      ReplayAllUnwarns(cfg, t, u, origin, init, now);
      var before := ReplayAll(cfg, t, u, UnwarnAction, origin, init, now);
      SetWarnSpec(before.warns, c, u, WarnCount(before.warns, c, u) - 1);
      if c != origin {
        var a := UnwarnAction;
        var count := WarnCount(before.warns, c, u);
        assert ReplayAll(cfg, t, u, a, origin, chats, now) == ReplayIn(cfg, before, u, a, c, now);
        assert Apply(cfg, before, c, u, a, true, now) == Unwarn(cfg, before, c, u, true, now);
        assert ReplayAll(cfg, t, u, a, origin, chats, now) ==
          Emit(if count > 0 then before.(warns := SetWarn(before.warns, c, u, count - 1)) else before, Send(c, SyncApplied(u, a)));
      }
      LastSplit(chats);
      assert forall r :: r in chats <==> r in init || r == c;
    }
  }

  // ---------------------------------------------------------------- the direct verbs

  /**
   * A direct mute sets one expiry, `now + duration`, overwriting any earlier one, and answers
   * in its room. Its replays find the same expiry already stored, so they only add the
   * propagation calls.
   */
  lemma DirectMute(cfg: Config, t: Tables, peer: int, u: int, d: int, now: int)
    requires DistinctKeys(t.mutes)
    ensures Mute(cfg, t, peer, u, d, false, now) ==
      t.(mutes := Put(t.mutes, u, now + d),
         outbox := t.outbox + [Send(peer, Muted(u, FormatTimeString(d)))] + PropagationLog(cfg, u, MuteAction(d), peer, t.unified))
  {
    if cfg.unifiedMode {
      var t2 := Emit(t.(mutes := Put(t.mutes, u, now + d)), Send(peer, Muted(u, FormatTimeString(d))));
      MuteSettles(cfg, t2, t.mutes, u, d, now, now + d);
      SyncSettled(cfg, t2, u, MuteAction(d), peer, now);
    }
  }

  /** Once the expiry `until = now + d` is stored, a replayed mute of `d` finds it in place. */
  lemma MuteSettles(cfg: Config, r: Tables, m: Assoc<int, int>, u: int, d: int, now: int, until: int)
    requires until == now + d && DistinctKeys(m) && r.mutes == Put(m, u, until)
    ensures Settled(cfg, r, u, MuteAction(d), now)
  {
    PutHolds(m, u, until);
  }

  /**
   * After a mute, direct or replayed, `isMuted` holds exactly until `now + duration`. It is
   * unchanged for every other user.
   */
  lemma MuteWindow(cfg: Config, t: Tables, peer: int, u: int, d: int, isSync: bool, now: int)
    requires DistinctKeys(t.mutes)
    ensures forall n :: IsMuted(Mute(cfg, t, peer, u, d, isSync, now), u, n) <==> n < now + d
    ensures forall v, n :: v != u ==> IsMuted(Mute(cfg, t, peer, u, d, isSync, now), v, n) == IsMuted(t, v, n)
  {
    if !isSync {
      DirectMute(cfg, t, peer, u, d, now);
    }
    forall v {
      GetPut(t.mutes, u, now + d, v);
    }
  }

  /**
   * A direct unmute of a muted user drops the entry and propagates. An unmute of a user
   * without an entry only answers.
   */
  lemma DirectUnmute(cfg: Config, t: Tables, peer: int, u: int, now: int)
    ensures Unmute(cfg, t, peer, u, false, now) ==
      if Get(t.mutes, u).Some? then
        t.(mutes := Remove(t.mutes, u), outbox := t.outbox + [Send(peer, Unmuted(u))] + PropagationLog(cfg, u, UnmuteAction, peer, t.unified))
      else Emit(t, Send(peer, NotMuted(u)))
  {
    if Get(t.mutes, u).Some? && cfg.unifiedMode {
      var t2 := Emit(t.(mutes := Remove(t.mutes, u)), Send(peer, Unmuted(u)));
      GetRemove(t.mutes, u, u);
      SyncSettled(cfg, t2, u, UnmuteAction, peer, now);
    }
  }

  /** After a direct unmute the user is not muted at any time, and every other user's entry is unchanged. */
  lemma UnmuteWindow(cfg: Config, t: Tables, peer: int, u: int, now: int)
    ensures forall n :: !IsMuted(Unmute(cfg, t, peer, u, false, now), u, n)
    ensures forall v :: v != u ==> Get(Unmute(cfg, t, peer, u, false, now).mutes, v) == Get(t.mutes, v)
  {
    DirectUnmute(cfg, t, peer, u, now);
    GetRemove(t.mutes, u, u);
    forall v {
      GetRemove(t.mutes, u, v);
    }
  }

  /**
   * A direct ban of a user not yet banned appends them once, removes them from this room
   * and propagates. Every replay finds them already banned, so no other room gets a
   * removal. A ban of a banned user only answers.
   */
  lemma DirectBan(cfg: Config, t: Tables, peer: int, u: int, now: int)
    ensures Ban(cfg, t, peer, u, false, now) ==
      if u in t.bans then Emit(t, Send(peer, AlreadyBanned(u)))
      else t.(bans := t.bans + [u],
              outbox := t.outbox + [RemoveFromChat(peer, u), Send(peer, Banned(u))] + PropagationLog(cfg, u, BanAction, peer, t.unified))
  {
    if u !in t.bans && cfg.unifiedMode {
      var t2 := Emit(t.(bans := t.bans + [u], outbox := t.outbox + [RemoveFromChat(peer, u)]), Send(peer, Banned(u)));
      SyncSettled(cfg, t2, u, BanAction, peer, now);
      assert t2.outbox == t.outbox + [RemoveFromChat(peer, u), Send(peer, Banned(u))];
    }
  }

  /**
   * A direct unban deletes the user's single entry and propagates. Every replay finds the
   * user already gone. An unban of a user who is not banned only answers.
   */
  lemma DirectUnban(cfg: Config, t: Tables, peer: int, u: int, now: int)
    requires NoDup(t.bans)
    ensures Unban(cfg, t, peer, u, false, now) ==
      if u in t.bans then
        t.(bans := RemoveFirst(t.bans, u), outbox := t.outbox + [Send(peer, Unbanned(u))] + PropagationLog(cfg, u, UnbanAction, peer, t.unified))
      else Emit(t, Send(peer, NotBanned(u)))
  {
    if u in t.bans && cfg.unifiedMode {
      RemoveFirstNoDup(t.bans, u);
      var t2 := Emit(t.(bans := RemoveFirst(t.bans, u)), Send(peer, Unbanned(u)));
      SyncSettled(cfg, t2, u, UnbanAction, peer, now);
    }
  }

  /**
   * A direct kick sets the kick's end to `now + kick_duration` and removes the user from
   * this room. It answers and propagates, and every replay removes the user from its own
   * room as well.
   */
  lemma DirectKick(cfg: Config, t: Tables, peer: int, u: int, now: int)
    ensures Kick(cfg, t, peer, u, false, now) ==
      t.(kicks := t.kicks[u := now + cfg.kickDuration],
         outbox := t.outbox + [RemoveFromChat(peer, u), Send(peer, Kicked(u, FormatTimeString(cfg.kickDuration)))]
                   + PropagationLog(cfg, u, KickAction, peer, t.unified))
  {
    if cfg.unifiedMode {
      var t1 := t.(kicks := t.kicks[u := now + cfg.kickDuration], outbox := t.outbox + [RemoveFromChat(peer, u)]);
      var t2 := Emit(t1, Send(peer, Kicked(u, FormatTimeString(cfg.kickDuration))));
      SyncSettled(cfg, t2, u, KickAction, peer, now);
      assert t2.outbox == t.outbox + [RemoveFromChat(peer, u), Send(peer, Kicked(u, FormatTimeString(cfg.kickDuration)))];
    }
  }

  /** After a kick, direct or replayed, `isKicked` holds exactly until `now + kick_duration`; others are unaffected. */
  lemma KickWindow(cfg: Config, t: Tables, peer: int, u: int, isSync: bool, now: int)
    ensures forall n :: IsKicked(Kick(cfg, t, peer, u, isSync, now), u, n) <==> n < now + cfg.kickDuration
    ensures forall v, n :: v != u ==> IsKicked(Kick(cfg, t, peer, u, isSync, now), v, n) == IsKicked(t, v, n)
  {
    if !isSync {
      DirectKick(cfg, t, peer, u, now);
    }
  }

  /**
   * A direct `setNickname` by a non-admin only answers with a refusal. By an admin, it
   * writes the nickname in its own room and, with `unified_mode` on, in every unified room.
   * No other nickname and no other table changes.
   */
  lemma DirectNickname(cfg: Config, t: Tables, peer: int, u: int, name: string, admin: int, now: int)
    ensures !IsAdmin(t, admin) ==> SetNickname(cfg, t, peer, u, name, admin, false, now) == Emit(t, Send(peer, Denied(NicknameAdminsOnly)))
    ensures IsAdmin(t, admin) ==>
              SetNickname(cfg, t, peer, u, name, admin, false, now).outbox ==
              t.outbox + [Send(peer, NicknameSet(u, name))] + PropagationLog(cfg, u, NicknameAction(name, admin), peer, t.unified)
    ensures IsAdmin(t, admin) ==> forall r, v ::
              NickOf(SetNickname(cfg, t, peer, u, name, admin, false, now).nicknames, r, v) ==
              if v == u && (r == peer || (cfg.unifiedMode && r in t.unified)) then Some(name) else NickOf(t.nicknames, r, v)
    ensures SetNickname(cfg, t, peer, u, name, admin, false, now).(nicknames := t.nicknames, outbox := t.outbox) == t
  {
    SetNickSpec(t.nicknames, peer, u, name);
    if IsAdmin(t, admin) && cfg.unifiedMode {
      var a := NicknameAction(name, admin);
      var t2 := Emit(t.(nicknames := SetNick(t.nicknames, peer, u, name)), Send(peer, NicknameSet(u, name)));
      var t3 := Emit(t2, SyncCall(u, a, peer));
      ReplayAllNicknames(cfg, t3, u, name, admin, peer, t.unified, now);
      ReplayAllOutbox(cfg, t3, u, a, peer, t.unified, now);
      assert t3.outbox + ReplayLog(u, a, peer, t.unified) == t2.outbox + PropagationLog(cfg, u, a, peer, t.unified);
    }
  }

  /**
   * The tables a direct warning leaves before its propagation: the count goes up by one in
   * this room, and at `max_warnings` the user is muted (that mute propagates) and the count
   * goes back to 0.
   */
  function WarnLocal(cfg: Config, t: Tables, peer: int, u: int, reason: string, now: int): Tables {
    var count := WarnCount(t.warns, peer, u) + 1;
    var warned := [Send(peer, Warned(u, count, cfg.maxWarnings, reason))];
    if count >= cfg.maxWarnings then
      t.(warns := SetWarn(t.warns, peer, u, 0),
         mutes := Put(t.mutes, u, now + cfg.muteDuration),
         outbox := t.outbox + warned + [Send(peer, Muted(u, FormatTimeString(cfg.muteDuration)))]
                   + PropagationLog(cfg, u, MuteAction(cfg.muteDuration), peer, t.unified)
                   + [Send(peer, AutoMuted(u))])
    else t.(warns := SetWarn(t.warns, peer, u, count), outbox := t.outbox + warned)
  }

  /** A direct warning is its local part followed, with `unified_mode` on, by its propagation. */
  lemma WarnHere(cfg: Config, t: Tables, peer: int, u: int, reason: string, now: int)
    requires DistinctKeys(t.mutes)
    ensures Warn(cfg, t, peer, u, reason, false, now) ==
      if cfg.unifiedMode then Sync(cfg, WarnLocal(cfg, t, peer, u, reason, now), u, WarnAction(reason), peer, now)
      else WarnLocal(cfg, t, peer, u, reason, now)
  {
    var count := WarnCount(t.warns, peer, u) + 1;
    var t1 := t.(warns := SetWarn(t.warns, peer, u, count));
    var t2 := Emit(t1, Send(peer, Warned(u, count, cfg.maxWarnings, reason)));
    if count >= cfg.maxWarnings {
      DirectMute(cfg, t2, peer, u, cfg.muteDuration, now);
      SetWarnTwice(t.warns, peer, u, count, 0);
    }
  }

  /** A second write to the same warning entry replaces the first. */
  lemma SetWarnTwice(w: map<int, map<int, int>>, room: int, u: int, m: int, n: int)
    ensures SetWarn(SetWarn(w, room, u, m), room, u, n) == SetWarn(w, room, u, n)
  {
    var inner := if room in w then w[room] else map[];
    assert inner[u := m][u := n] == inner[u := n];
  }

  /** The propagation of a warning adds one in every unified room but the origin, and nowhere else. */
  lemma SyncWarns(cfg: Config, t: Tables, u: int, reason: string, origin: int, now: int)
    requires NoDup(t.unified)
    ensures forall r, v ::
              WarnCount(Sync(cfg, t, u, WarnAction(reason), origin, now).warns, r, v) ==
              WarnCount(t.warns, r, v) + if v == u && r in t.unified && r != origin then 1 else 0
    ensures Sync(cfg, t, u, WarnAction(reason), origin, now).outbox == t.outbox + [SyncCall(u, WarnAction(reason), origin)] + ReplayLog(u, WarnAction(reason), origin, t.unified)
    ensures Sync(cfg, t, u, WarnAction(reason), origin, now).(warns := t.warns, outbox := t.outbox) == t
  {
    var t1 := Emit(t, SyncCall(u, WarnAction(reason), origin));
    ReplayAllWarns(cfg, t1, u, reason, origin, t.unified, now);
    ReplayAllOutbox(cfg, t1, u, WarnAction(reason), origin, t.unified, now);
  }

  /**
   * Warning counts after a direct warning: this room's count goes up by one, or back to 0
   * when it reaches `max_warnings`. With `unified_mode` on, every other unified room's count
   * goes up by one, and none of those resets. No other count changes.
   */
  lemma DirectWarnCounts(cfg: Config, t: Tables, peer: int, u: int, reason: string, now: int)
    requires DistinctKeys(t.mutes) && NoDup(t.unified)
    ensures forall r, v ::
              WarnCount(Warn(cfg, t, peer, u, reason, false, now).warns, r, v) ==
              if r == peer && v == u then
                (if WarnCount(t.warns, peer, u) + 1 >= cfg.maxWarnings then 0 else WarnCount(t.warns, peer, u) + 1)
              else WarnCount(t.warns, r, v) + if cfg.unifiedMode && v == u && r in t.unified then 1 else 0
  {
    WarnHere(cfg, t, peer, u, reason, now);
    var local := WarnLocal(cfg, t, peer, u, reason, now);
    var count := WarnCount(t.warns, peer, u) + 1;
    SetWarnSpec(t.warns, peer, u, if count >= cfg.maxWarnings then 0 else count);
    if cfg.unifiedMode {
      SyncWarns(cfg, local, u, reason, peer, now);
    }
  }

  /**
   * A direct warning mutes the user for the flood-control duration exactly when this room's
   * count reaches `max_warnings`, and otherwise leaves the mutes alone. Nothing but the
   * counts, the mutes and the outbox changes.
   */
  lemma DirectWarnMutes(cfg: Config, t: Tables, peer: int, u: int, reason: string, now: int)
    requires DistinctKeys(t.mutes) && NoDup(t.unified)
    ensures Warn(cfg, t, peer, u, reason, false, now).mutes ==
      if WarnCount(t.warns, peer, u) + 1 >= cfg.maxWarnings then Put(t.mutes, u, now + cfg.muteDuration) else t.mutes
    ensures Warn(cfg, t, peer, u, reason, false, now).(warns := t.warns, mutes := t.mutes, outbox := t.outbox) == t
  {
    WarnHere(cfg, t, peer, u, reason, now);
    if cfg.unifiedMode {
      SyncWarns(cfg, WarnLocal(cfg, t, peer, u, reason, now), u, reason, peer, now);
    }
  }

  /**
   * The calls a direct warning makes: the warning notice; when it mutes, the mute's notice,
   * the mute's propagation and the automatic-mute notice; then the warning's own propagation.
   */
  lemma DirectWarnOutbox(cfg: Config, t: Tables, peer: int, u: int, reason: string, now: int)
    requires DistinctKeys(t.mutes) && NoDup(t.unified)
    ensures Warn(cfg, t, peer, u, reason, false, now).outbox ==
      t.outbox + [Send(peer, Warned(u, WarnCount(t.warns, peer, u) + 1, cfg.maxWarnings, reason))]
      + (if WarnCount(t.warns, peer, u) + 1 >= cfg.maxWarnings then
           [Send(peer, Muted(u, FormatTimeString(cfg.muteDuration)))]
           + PropagationLog(cfg, u, MuteAction(cfg.muteDuration), peer, t.unified)
           + [Send(peer, AutoMuted(u))]
         else [])
      + PropagationLog(cfg, u, WarnAction(reason), peer, t.unified)
  {
    WarnHere(cfg, t, peer, u, reason, now);
    var local := WarnLocal(cfg, t, peer, u, reason, now);
    var head := t.outbox + [Send(peer, Warned(u, WarnCount(t.warns, peer, u) + 1, cfg.maxWarnings, reason))]
      + (if WarnCount(t.warns, peer, u) + 1 >= cfg.maxWarnings then
           [Send(peer, Muted(u, FormatTimeString(cfg.muteDuration)))]
           + PropagationLog(cfg, u, MuteAction(cfg.muteDuration), peer, t.unified)
           + [Send(peer, AutoMuted(u))]
         else []);
    WarnLocalOutbox(cfg, t, peer, u, reason, now);
    assert local.outbox == head;
    if cfg.unifiedMode {
      SyncWarns(cfg, local, u, reason, peer, now);
      AppendAssoc(head, [SyncCall(u, WarnAction(reason), peer)], ReplayLog(u, WarnAction(reason), peer, t.unified));
    }
  }

  /** The local part of a warning appends the warning notice and, when it mutes, the mute's calls; it keeps the unified list. */
  lemma WarnLocalOutbox(cfg: Config, t: Tables, peer: int, u: int, reason: string, now: int)
    ensures WarnLocal(cfg, t, peer, u, reason, now).unified == t.unified
    ensures WarnLocal(cfg, t, peer, u, reason, now).outbox ==
      t.outbox + [Send(peer, Warned(u, WarnCount(t.warns, peer, u) + 1, cfg.maxWarnings, reason))]
      + (if WarnCount(t.warns, peer, u) + 1 >= cfg.maxWarnings then
           [Send(peer, Muted(u, FormatTimeString(cfg.muteDuration)))]
           + PropagationLog(cfg, u, MuteAction(cfg.muteDuration), peer, t.unified)
           + [Send(peer, AutoMuted(u))]
         else [])
  {
    var count := WarnCount(t.warns, peer, u) + 1;
    var warned := [Send(peer, Warned(u, count, cfg.maxWarnings, reason))];
    if count >= cfg.maxWarnings {
      var muted := [Send(peer, Muted(u, FormatTimeString(cfg.muteDuration)))]
        + PropagationLog(cfg, u, MuteAction(cfg.muteDuration), peer, t.unified)
        + [Send(peer, AutoMuted(u))];
      AppendAssoc(t.outbox + warned, [Send(peer, Muted(u, FormatTimeString(cfg.muteDuration)))], PropagationLog(cfg, u, MuteAction(cfg.muteDuration), peer, t.unified));
      AppendAssoc(t.outbox + warned, [Send(peer, Muted(u, FormatTimeString(cfg.muteDuration)))] + PropagationLog(cfg, u, MuteAction(cfg.muteDuration), peer, t.unified), [Send(peer, AutoMuted(u))]);
    } else {
      assert t.outbox + warned + [] == t.outbox + warned;
    }
  }

  /**
   * A direct unwarn with a positive count takes one warning back in this room and, with
   * `unified_mode` on, one in every unified room where there is one. With no warning it
   * only answers. No count goes below zero.
   */
  lemma DirectUnwarn(cfg: Config, t: Tables, peer: int, u: int, now: int)
    requires NoDup(t.unified)
    ensures WarnCount(t.warns, peer, u) <= 0 ==> Unwarn(cfg, t, peer, u, false, now) == Emit(t, Send(peer, NoWarnings(u)))
    ensures WarnCount(t.warns, peer, u) > 0 ==> forall r, v ::
              WarnCount(Unwarn(cfg, t, peer, u, false, now).warns, r, v) ==
              if r == peer && v == u then WarnCount(t.warns, r, v) - 1
              else WarnCount(t.warns, r, v) - if cfg.unifiedMode && v == u && r in t.unified && WarnCount(t.warns, r, v) > 0 then 1 else 0
    ensures WarnCount(t.warns, peer, u) > 0 ==>
              Unwarn(cfg, t, peer, u, false, now).outbox ==
              t.outbox + [Send(peer, Unwarned(u, WarnCount(t.warns, peer, u) - 1, cfg.maxWarnings))] + PropagationLog(cfg, u, UnwarnAction, peer, t.unified)
    ensures Unwarn(cfg, t, peer, u, false, now).(warns := t.warns, outbox := t.outbox) == t
  {
    var count := WarnCount(t.warns, peer, u);
    SetWarnSpec(t.warns, peer, u, count - 1);
    if count > 0 && cfg.unifiedMode {
      var t2 := Emit(t.(warns := SetWarn(t.warns, peer, u, count - 1)), Send(peer, Unwarned(u, count - 1, cfg.maxWarnings)));
      var t3 := Emit(t2, SyncCall(u, UnwarnAction, peer));
      ReplayAllUnwarns(cfg, t3, u, peer, t.unified, now);
      ReplayAllOutbox(cfg, t3, u, UnwarnAction, peer, t.unified, now);
      assert t3.outbox + ReplayLog(u, UnwarnAction, peer, t.unified) == t2.outbox + PropagationLog(cfg, u, UnwarnAction, peer, t.unified);
    }
  }

  /**
   * The automatic mute of `warnUser` does not go through the router's admin check, so a
   * warning that reaches `max_warnings` mutes an admin like anyone else.
   */
  lemma WarnMutesAdmins(cfg: Config, t: Tables, peer: int, u: int, reason: string, now: int)
    requires DistinctKeys(t.mutes) && NoDup(t.unified)
    requires IsAdmin(t, u) && WarnCount(t.warns, peer, u) + 1 >= cfg.maxWarnings && cfg.muteDuration > 0
    ensures IsMuted(Warn(cfg, t, peer, u, reason, false, now), u, now)
  {
    DirectWarnMutes(cfg, t, peer, u, reason, now);
    MutedUntil(Warn(cfg, t, peer, u, reason, false, now), t.mutes, u, now + cfg.muteDuration, now);
  }

  /** Tables whose mute entry for `u` was just set to a later time have `u` muted. */
  lemma MutedUntil(r: Tables, m: Assoc<int, int>, u: int, until: int, now: int)
    requires r.mutes == Put(m, u, until) && now < until
    ensures IsMuted(r, u, now)
  {
    GetPut(m, u, until, u);
  }
}
