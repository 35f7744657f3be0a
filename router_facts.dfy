/**
 * What the command router guarantees: every gate refuses before anything changes, every
 * action it takes was authorised, targets are chosen in the documented order, free-text
 * arguments are the rest of the message verbatim, and a whole message keeps the tables
 * well formed and never takes a super admin off the admin roster.
 */
module RouterFacts {
  import opened Common
  import opened Text
  import opened Assoc
  import opened Types
  import opened Moderation
  import opened TableFacts
  import opened Router

  // ---------------------------------------------------------------- before routing

  /**
   * Before routing, only the stats and the outbox change. The sender's message count goes
   * up by one, and their last-message time becomes `now`.
   */
  lemma IntakeSpec(cfg: Config, t: Tables, m: Message, now: int)
    ensures Intake(cfg, t, m, now).(stats := t.stats, outbox := t.outbox) == t
    ensures GetUserStats(Intake(cfg, t, m, now).stats, m.peerId, m.fromId).messageCount == GetUserStats(t.stats, m.peerId, m.fromId).messageCount + 1
    ensures GetUserStats(Intake(cfg, t, m, now).stats, m.peerId, m.fromId).lastMessage == Some(now)
    ensures IsInvite(m) && m.action.value.memberId.GetOr(m.fromId) != -cfg.groupId ==>
      var v := m.action.value.memberId.GetOr(m.fromId);
      GetUserStats(Intake(cfg, t, m, now).stats, m.peerId, v).joinDate ==
        if GetUserStats(t.stats, m.peerId, v).joinDate.None? then Some(now) else GetUserStats(t.stats, m.peerId, v).joinDate
    ensures forall r, v :: (r != m.peerId || (v != m.fromId && !(IsInvite(m) && v == m.action.value.memberId.GetOr(m.fromId)))) ==>
      GetUserStats(Intake(cfg, t, m, now).stats, r, v) == GetUserStats(t.stats, r, v)
    ensures Intake(cfg, t, m, now).outbox == t.outbox +
      if !IsInvite(m) then []
      else if m.action.value.memberId.GetOr(m.fromId) == -cfg.groupId then [Send(m.peerId, BotGreeting)]
      else [Send(m.peerId, Welcome(m.action.value.memberId.GetOr(m.fromId)))]
  {
    var t1 :=
      if IsInvite(m) then
        var invited := m.action.value.memberId.GetOr(m.fromId);
        if invited == -cfg.groupId then Emit(t, Send(m.peerId, BotGreeting))
        else Emit(t, Send(m.peerId, Welcome(invited))).(stats := UpdateStats(t.stats, m.peerId, invited, Join, now))
      else t;
    if IsInvite(m) {
      StatsUpdateSpec(t.stats, m.peerId, m.action.value.memberId.GetOr(m.fromId), Join, now);
    }
    StatsUpdateSpec(t1.stats, m.peerId, m.fromId, MessageSent, now);
  }

  // ---------------------------------------------------------------- gates

  /** Admitting a message leaves both rosters alone. */
  lemma IntakeKeepsRosters(cfg: Config, t: Tables, m: Message, now: int)
    ensures Intake(cfg, t, m, now).admins == t.admins && Intake(cfg, t, m, now).moderators == t.moderators
    ensures SuperAdmins(cfg, Intake(cfg, t, m, now)) == SuperAdmins(cfg, t)
  {
    IntakeSpec(cfg, t, m, now);
  }

  /** A message the router answers with a notice only adds that notice after the intake. */
  lemma ProcessReply(cfg: Config, t: Tables, m: Message, now: int, n: Notice)
    requires Route(cfg, Intake(cfg, t, m, now), m, now) == Reply(n)
    ensures Process(cfg, t, m, now) == Emit(Intake(cfg, t, m, now), Send(m.peerId, n))
  {
  }

  /**
   * A command refused for lack of rank only answers with the refusal: no table but the
   * stats (counted before routing) changes. This holds for the moderation verbs and for
   * the admin-only network commands.
   */
  lemma Gatekeeping(cfg: Config, t: Tables, m: Message, now: int)
    ensures IsModerationCommand(CommandWord(m)) && !IsModerator(t, m.fromId) ==>
              Process(cfg, t, m, now) == Emit(Intake(cfg, t, m, now), Send(m.peerId, Denied(ModeratorsOnly)))
    ensures (CommandWord(m).UniteCmd? || CommandWord(m).SeparateCmd?) && !IsAdmin(t, m.fromId) ==>
              Process(cfg, t, m, now) == Emit(Intake(cfg, t, m, now), Send(m.peerId, Denied(AdminsOnly)))
    ensures CommandWord(m).UnifiedCmd? && !IsAdmin(t, m.fromId) ==>
              Process(cfg, t, m, now) == Emit(Intake(cfg, t, m, now), Send(m.peerId, Denied(UnifiedListAdminsOnly)))
  {
    IntakeKeepsRosters(cfg, t, m, now);
    var c := CommandWord(m);
    if IsModerationCommand(c) && !IsModerator(t, m.fromId) {
      ProcessReply(cfg, t, m, now, Denied(ModeratorsOnly));
    } else if (c.UniteCmd? || c.SeparateCmd?) && !IsAdmin(t, m.fromId) {
      ProcessReply(cfg, t, m, now, Denied(AdminsOnly));
    } else if c.UnifiedCmd? && !IsAdmin(t, m.fromId) {
      ProcessReply(cfg, t, m, now, Denied(UnifiedListAdminsOnly));
    }
  }

  /** Only a super admin gets past the gate of `/addadmin` and `/removeadmin`. */
  lemma SuperAdminGate(cfg: Config, t: Tables, m: Message, now: int)
    ensures CommandWord(m).AddAdminCmd? && m.fromId !in SuperAdmins(cfg, t) ==>
              Process(cfg, t, m, now) == Emit(Intake(cfg, t, m, now), Send(m.peerId, Denied(SuperAdminsOnlyAdd)))
    ensures CommandWord(m).RemoveAdminCmd? && m.fromId !in SuperAdmins(cfg, t) ==>
              Process(cfg, t, m, now) == Emit(Intake(cfg, t, m, now), Send(m.peerId, Denied(SuperAdminsOnlyRemove)))
  {
    IntakeKeepsRosters(cfg, t, m, now);
    var t1, c := Intake(cfg, t, m, now), CommandWord(m);
    if c.AddAdminCmd? && m.fromId !in SuperAdmins(cfg, t) {
      assert Route(cfg, t1, m, now) == RouteRoster(cfg, t1, m, c);
      ProcessReply(cfg, t, m, now, Denied(SuperAdminsOnlyAdd));
    } else if c.RemoveAdminCmd? && m.fromId !in SuperAdmins(cfg, t) {
      assert Route(cfg, t1, m, now) == RouteRoster(cfg, t1, m, c);
      ProcessReply(cfg, t, m, now, Denied(SuperAdminsOnlyRemove));
    }
  }

  /** Only an admin gets past the gate of `/addmoder` and `/removemoder`. */
  lemma AdminGate(cfg: Config, t: Tables, m: Message, now: int)
    ensures CommandWord(m).AddModerCmd? && !IsAdmin(t, m.fromId) ==>
              Process(cfg, t, m, now) == Emit(Intake(cfg, t, m, now), Send(m.peerId, Denied(AddModerAdminsOnly)))
    ensures CommandWord(m).RemoveModerCmd? && !IsAdmin(t, m.fromId) ==>
              Process(cfg, t, m, now) == Emit(Intake(cfg, t, m, now), Send(m.peerId, Denied(RemoveModerAdminsOnly)))
  {
    IntakeKeepsRosters(cfg, t, m, now);
    var t1, c := Intake(cfg, t, m, now), CommandWord(m);
    if c.AddModerCmd? && !IsAdmin(t, m.fromId) {
      assert Route(cfg, t1, m, now) == RouteRoster(cfg, t1, m, c);
      ProcessReply(cfg, t, m, now, Denied(AddModerAdminsOnly));
    } else if c.RemoveModerCmd? && !IsAdmin(t, m.fromId) {
      assert Route(cfg, t1, m, now) == RouteRoster(cfg, t1, m, c);
      ProcessReply(cfg, t, m, now, Denied(RemoveModerAdminsOnly));
    }
  }

  /** `isAdmin` implies `isModerator`, so an admin passes every moderator gate. */
  lemma AdminPassesModeratorGate(cfg: Config, t: Tables, m: Message, now: int)
    requires IsModerationCommand(CommandWord(m)) && IsAdmin(t, m.fromId)
    ensures Route(cfg, t, m, now) != Reply(Denied(ModeratorsOnly))
  {
  }

  /**
   * Every moderation verb the router chooses was asked for by a moderator, never against an
   * admin when it is a mute; joining or leaving the network was asked for by an admin.
   */
  lemma RouteAuthorized(cfg: Config, t: Tables, m: Message, now: int)
    ensures var d := Route(cfg, t, m, now);
      (d.DoMute? || d.DoUnmute? || d.DoBan? || d.DoUnban? || d.DoKick? || d.DoWarn? || d.DoUnwarn? || d.DoNick?) ==>
      IsModerator(t, m.fromId)
    ensures var d := Route(cfg, t, m, now); (d.DoUnite? || d.DoSeparate?) ==> IsAdmin(t, m.fromId)
    ensures var d := Route(cfg, t, m, now); d.DoMute? ==> !IsAdmin(t, d.user)
  {
    var c := CommandWord(m);
    if !IsModerationCommand(c) || IsModerator(t, m.fromId) {
      match c
      case MuteCmd => assert Route(cfg, t, m, now) == RouteMute(cfg, t, m);
      case WarnCmd => assert Route(cfg, t, m, now) == RouteWarn(t, m);
      case NickCmd => assert Route(cfg, t, m, now) == RouteNick(t, m);
      case StatsCmd => assert Route(cfg, t, m, now) == RouteStats(cfg, t, m, now);
      case AddAdminCmd => assert Route(cfg, t, m, now) == RouteRoster(cfg, t, m, c);
      case RemoveAdminCmd => assert Route(cfg, t, m, now) == RouteRoster(cfg, t, m, c);
      case AddModerCmd => assert Route(cfg, t, m, now) == RouteRoster(cfg, t, m, c);
      case RemoveModerCmd => assert Route(cfg, t, m, now) == RouteRoster(cfg, t, m, c);
      case _ =>
    }
  }

  /**
   * A roster change comes only from the roster command of the same name, through
   * `RouteRoster`, whose contract states the checks it passed.
   */
  lemma RouteRosterAuthorized(cfg: Config, t: Tables, m: Message, now: int)
    ensures var d := Route(cfg, t, m, now);
      (d.DoAddAdmin? || d.DoRemoveAdmin? || d.DoAddModer? || d.DoRemoveModer?) ==>
      IsRosterCommand(CommandWord(m)) && d == RouteRoster(cfg, t, m, CommandWord(m))
  {
    var c := CommandWord(m);
    if !IsModerationCommand(c) || IsModerator(t, m.fromId) {
      match c
      case MuteCmd => assert Route(cfg, t, m, now) == RouteMute(cfg, t, m);
      case WarnCmd => assert Route(cfg, t, m, now) == RouteWarn(t, m);
      case NickCmd => assert Route(cfg, t, m, now) == RouteNick(t, m);
      case StatsCmd => assert Route(cfg, t, m, now) == RouteStats(cfg, t, m, now);
      case _ =>
    }
  }

  // ---------------------------------------------------------------- choosing the target

  /** The verb a single-target moderation command asks for. */
  function ActOn(c: Command, u: int): Decision {
    match c
    case UnmuteCmd => DoUnmute(u)
    case BanCmd => DoBan(u)
    case UnbanCmd => DoUnban(u)
    case KickCmd => DoKick(u)
    case UnwarnCmd => DoUnwarn(u)
    case _ => Ignore
  }

  predicate IsSingleTarget(c: Command) {
    c.UnmuteCmd? || c.BanCmd? || c.UnbanCmd? || c.KickCmd? || c.UnwarnCmd?
  }

  /** `/mute` takes the reply author first, with the length right after the command. */
  lemma MutePrefersReply(cfg: Config, t: Tables, m: Message, now: int, r: int)
    requires CommandWord(m) == MuteCmd && IsModerator(t, m.fromId)
    requires m.reply == Some(ReplyTo(Some(r))) && r != 0 && !IsAdmin(t, r)
    ensures Route(cfg, t, m, now) == DoMute(r, MuteLength(cfg, Parts(m), 1))
  {
    assert Route(cfg, t, m, now) == RouteMute(cfg, t, m);
  }

  /** Without a reply, `/mute` takes the mention, with the length after it. */
  lemma MuteByMention(cfg: Config, t: Tables, m: Message, now: int, v: int)
    requires CommandWord(m) == MuteCmd && IsModerator(t, m.fromId)
    requires m.reply.None? && Mentioned(t, Parts(m)) == Some(v) && !IsAdmin(t, v)
    ensures Route(cfg, t, m, now) == DoMute(v, MuteLength(cfg, Parts(m), 2))
  {
    assert Route(cfg, t, m, now) == RouteMute(cfg, t, m);
  }

  /**
   * The other single-target commands take the mention first and the reply author only when
   * there is no usable mention; with neither they answer with the usage line.
   */
  lemma MentionBeforeReply(cfg: Config, t: Tables, m: Message, now: int)
    requires IsSingleTarget(CommandWord(m)) && IsModerator(t, m.fromId)
    ensures Mentioned(t, Parts(m)).Some? ==> Route(cfg, t, m, now) == ActOn(CommandWord(m), Mentioned(t, Parts(m)).value)
    ensures Mentioned(t, Parts(m)).None? && Replied(m).Some? ==> Route(cfg, t, m, now) == ActOn(CommandWord(m), Replied(m).value)
    ensures Mentioned(t, Parts(m)).None? && Replied(m).None? ==> Route(cfg, t, m, now) == Reply(Usage(CommandWord(m)))
  {
  }

  /** `/warn` reads its reason after the mention, or right after the command when it uses the reply. */
  lemma WarnReason(cfg: Config, t: Tables, m: Message, now: int)
    requires CommandWord(m) == WarnCmd && IsModerator(t, m.fromId)
    ensures Mentioned(t, Parts(m)).Some? ==> Route(cfg, t, m, now) == DoWarn(Mentioned(t, Parts(m)).value, Tail(Parts(m), 2))
    ensures Mentioned(t, Parts(m)).None? && Replied(m).Some? ==> Route(cfg, t, m, now) == DoWarn(Replied(m).value, Tail(Parts(m), 1))
  {
    assert Route(cfg, t, m, now) == RouteWarn(t, m);
  }

  /**
   * `/nick` takes a mention only when a nickname follows it (three words or more), and the
   * nickname is then every word after the mention. Otherwise a reply author with at least one
   * word after the command gets every word after the command. Otherwise the command answers
   * with its usage line.
   */
  lemma NickArguments(cfg: Config, t: Tables, m: Message, now: int)
    requires CommandWord(m) == NickCmd && IsModerator(t, m.fromId)
    ensures |Parts(m)| >= 3 && Mentioned(t, Parts(m)).Some? ==>
              Route(cfg, t, m, now) == DoNick(Mentioned(t, Parts(m)).value, Tail(Parts(m), 2))
    ensures !(|Parts(m)| >= 3 && Mentioned(t, Parts(m)).Some?) && Replied(m).Some? && |Parts(m)| >= 2 ==>
              Route(cfg, t, m, now) == DoNick(Replied(m).value, Tail(Parts(m), 1))
    ensures !(|Parts(m)| >= 3 && Mentioned(t, Parts(m)).Some?) && !(Replied(m).Some? && |Parts(m)| >= 2) ==>
              Route(cfg, t, m, now) == Reply(Usage(NickCmd))
  {
    assert Route(cfg, t, m, now) == RouteNick(t, m);
  }

  /** With a mention and no nickname after it, `/nick` falls back to the reply author or the usage line: the mention is never renamed to nothing. */
  lemma NickNeedsName(cfg: Config, t: Tables, m: Message, now: int)
    requires CommandWord(m) == NickCmd && IsModerator(t, m.fromId) && |Parts(m)| == 2
    ensures Route(cfg, t, m, now).DoNick? ==> Replied(m).Some? && Route(cfg, t, m, now).user == Replied(m).value
    ensures Route(cfg, t, m, now).DoNick? ==> Route(cfg, t, m, now).nickname == Parts(m)[1]
  {
    assert Route(cfg, t, m, now) == RouteNick(t, m);
    assert Parts(m)[1..] == [Parts(m)[1]];
  }

  /** Whom `/stats` is about: the mentioned user, else the reply author, else the sender. */
  function StatsTarget(t: Tables, m: Message): int {
    match Mentioned(t, Parts(m))
    case Some(v) => v
    case None => Replied(m).GetOr(m.fromId)
  }

  /**
   * `/stats` about anyone other than the sender is answered for a moderator only; anyone
   * else asking gets the refusal. A card, when one is shown, is the card of the target.
   */
  lemma StatsOfOthersModeratorsOnly(cfg: Config, t: Tables, m: Message, now: int)
    requires CommandWord(m) == StatsCmd
    ensures StatsTarget(t, m) != m.fromId && !IsModerator(t, m.fromId) ==>
              Route(cfg, t, m, now) == Reply(Denied(StatsOfOthers))
    ensures StatsTarget(t, m) == m.fromId || IsModerator(t, m.fromId) ==>
              Route(cfg, t, m, now) == Reply(StatsOf(StatsTarget(t, m), Report(cfg, t, m.peerId, StatsTarget(t, m), now)))
    ensures Route(cfg, t, m, now).notice.StatsOf? ==>
              Route(cfg, t, m, now).notice.user == m.fromId || IsModerator(t, m.fromId)
  {
    assert Route(cfg, t, m, now) == RouteStats(cfg, t, m, now);
  }

  /**
   * A nickname argument names the first user, room by room and in each room in table order,
   * whose nickname matches it case-insensitively: every user before it in its room, and
   * every user of every earlier room, carries another nickname.
   */
  lemma ResolveFirstNick(nicks: Assoc<int, Assoc<int, string>>, mention: string)
    requires FirstIdFrom(mention, 0).None? && !IsNumeric(mention)
    requires ResolveUserId(nicks, mention).Some?
    ensures exists i, k :: 0 <= i < |nicks| && 0 <= k < |nicks[i].1|
              && nicks[i].1[k].0 == ResolveUserId(nicks, mention).value.id
              && FoldCase(nicks[i].1[k].1) == FoldCase(mention)
              && (forall l :: 0 <= l < k ==> FoldCase(nicks[i].1[l].1) != FoldCase(mention))
              && (forall j, q :: 0 <= j < i && q in nicks[j].1 ==> FoldCase(q.1) != FoldCase(mention))
  {
    FirstMatch(nicks, FoldCase(mention), ResolveUserId(nicks, mention).value.id);
  }

  /** The first room holding a match, and the match's place in it, in plain positions. */
  lemma FirstMatch(nicks: Assoc<int, Assoc<int, string>>, key: string, id: int)
    requires exists i :: 0 <= i < |nicks| && FindNickIn(nicks[i].1, key) == Some(id)
                         && forall j :: 0 <= j < i ==> FindNickIn(nicks[j].1, key).None?
    ensures exists i, k :: 0 <= i < |nicks| && 0 <= k < |nicks[i].1|
              && nicks[i].1[k].0 == id && FoldCase(nicks[i].1[k].1) == key
              && (forall l :: 0 <= l < k ==> FoldCase(nicks[i].1[l].1) != key)
              && (forall j, q :: 0 <= j < i && q in nicks[j].1 ==> FoldCase(q.1) != key)
  {
    var i :| 0 <= i < |nicks| && FindNickIn(nicks[i].1, key) == Some(id)
             && forall j :: 0 <= j < i ==> FindNickIn(nicks[j].1, key).None?;
    var k := FirstInRoom(nicks[i].1, key, id);
    forall j, q | 0 <= j < i && q in nicks[j].1 ensures FoldCase(q.1) != key {
      assert FindNickIn(nicks[j].1, key).None?;
    }
    assert nicks[i].1[k].0 == id && FoldCase(nicks[i].1[k].1) == key;
  }

  /** The position in its room of the user a room lookup returns. */
  lemma FirstInRoom(users: Assoc<int, string>, key: string, id: int) returns (k: nat)
    requires FindNickIn(users, key) == Some(id)
    ensures k < |users| && users[k].0 == id && FoldCase(users[k].1) == key
    ensures forall l :: 0 <= l < k ==> FoldCase(users[l].1) != key
  {
    k :| 0 <= k < |users| && users[k].0 == id && FoldCase(users[k].1) == key
         && forall l :: 0 <= l < k ==> FoldCase(users[l].1) != key;
  }

  // ---------------------------------------------------------------- free-text arguments

  /** `explode` at the first space: the first word, then the pieces of the rest. */
  lemma {:induction false} SplitAtSpace(s: string, i: nat)
    requires i < |s| && s[i] == ' ' && ' ' !in s[..i]
    ensures Split(s, ' ') == [s[..i]] + Split(s[i + 1..], ' ')
  {
    if i > 0 {
      assert s[0] != ' ' by { assert s[0] == s[..i][0]; }
      assert ' ' !in s[1..][..i - 1] by { assert s[1..][..i - 1] == s[1..i]; assert forall c :: c in s[1..i] ==> c in s[..i]; }
      SplitAtSpace(s[1..], i - 1);
      assert s[1..][i - 1 + 1..] == s[i + 1..];
      assert [s[0]] + s[1..][..i - 1] == s[..i];
    }
  }

  /**
   * The words from `k + 1` on are the words from `k` on of the text after the first space.
   * So a reason or a nickname is the rest of the message verbatim, repeated spaces
   * included.
   */
  lemma TailAfterSpace(s: string, i: nat, k: nat)
    requires i < |s| && s[i] == ' ' && ' ' !in s[..i]
    ensures Tail(Split(s, ' '), k + 1) == Tail(Split(s[i + 1..], ' '), k)
  {
    SplitAtSpace(s, i);
    var parts, rest := Split(s, ' '), Split(s[i + 1..], ' ');
    assert parts == [s[..i]] + rest;
    assert |parts| == |rest| + 1;
    if |rest| > k {
      assert parts[k + 1..] == rest[k..];
      assert Tail(parts, k + 1) == Text.Join(parts[k + 1..], ' ');
      assert Tail(rest, k) == Text.Join(rest[k..], ' ');
    } else {
      assert Tail(parts, k + 1) == "" && Tail(rest, k) == "";
    }
  }

  /** With nothing after the cut, the tail is the text itself. */
  lemma TailWhole(s: string)
    ensures Tail(Split(s, ' '), 0) == s
  {
    JoinSplit(s, ' ');
  }

  // ---------------------------------------------------------------- a whole message

  /** Whether a decision is one of the eight moderation verbs. */
  predicate IsVerb(d: Decision) {
    d.DoMute? || d.DoUnmute? || d.DoBan? || d.DoUnban? || d.DoKick? || d.DoWarn? || d.DoUnwarn? || d.DoNick?
  }

  /** The action a verb decision carries out; a nickname is set on behalf of the sender. */
  function ActionOf(d: Decision, from: int): Action
    requires IsVerb(d)
  {
    match d
    case DoMute(_, dur) => MuteAction(dur)
    case DoUnmute(_) => UnmuteAction
    case DoBan(_) => BanAction
    case DoUnban(_) => UnbanAction
    case DoKick(_) => KickAction
    case DoWarn(_, reason) => WarnAction(reason)
    case DoUnwarn(_) => UnwarnAction
    case DoNick(_, name) => NicknameAction(name, from)
  }

  /** A verb decision is the direct (not replayed) action on its target, so it keeps the tables well formed and the rosters as they were. */
  lemma ExecuteVerb(cfg: Config, t: Tables, peer: int, from: int, d: Decision, now: int)
    requires WellFormed(t) && IsVerb(d)
    ensures WellFormed(Execute(cfg, t, peer, from, d, now))
    ensures SameRosters(t, Execute(cfg, t, peer, from, d, now))
  {
    assert Execute(cfg, t, peer, from, d, now) == Apply(cfg, t, peer, d.user, ActionOf(d, from), false, now);
    ApplyWellFormed(cfg, t, peer, d.user, ActionOf(d, from), false, now);
  }

  /** Removing a user who is not first keeps the first. */
  lemma RemoveFirstKeepsHead(s: seq<int>, x: int)
    requires s != [] && s[0] != x
    ensures RemoveFirst(s, x) != [] && RemoveFirst(s, x)[0] == s[0]
  {
  }

  /**
   * A roster edit the router allows changes only its roster, keeps it free of duplicates,
   * and leaves the super admins as they were.
   */
  lemma ExecuteRoster(cfg: Config, t: Tables, peer: int, from: int, d: Decision, now: int)
    requires d.DoAddAdmin? || d.DoRemoveAdmin? || d.DoAddModer? || d.DoRemoveModer?
    requires d.DoAddAdmin? ==> from in SuperAdmins(cfg, t) && d.user !in t.admins
    requires d.DoRemoveAdmin? ==> d.user !in SuperAdmins(cfg, t)
    requires d.DoAddModer? ==> d.user !in t.moderators
    ensures var r := Execute(cfg, t, peer, from, d, now);
      r.(admins := t.admins, moderators := t.moderators, outbox := t.outbox) == t
    ensures SuperAdmins(cfg, Execute(cfg, t, peer, from, d, now)) == SuperAdmins(cfg, t)
    ensures forall s :: s in SuperAdmins(cfg, t) && s in t.admins ==> s in Execute(cfg, t, peer, from, d, now).admins
    ensures NoDup(t.admins) ==> NoDup(Execute(cfg, t, peer, from, d, now).admins)
    ensures NoDup(t.moderators) ==> NoDup(Execute(cfg, t, peer, from, d, now).moderators)
    ensures var r := Execute(cfg, t, peer, from, d, now);
      d.DoAddAdmin? ==> (r.admins == t.admins + [d.user] && r.moderators == t.moderators &&
         r.outbox == t.outbox + [Send(peer, AdminAdded(d.user))])
    ensures var r := Execute(cfg, t, peer, from, d, now);
      d.DoRemoveAdmin? ==> (r.admins == RemoveFirst(t.admins, d.user) && r.moderators == t.moderators &&
         r.outbox == t.outbox + [Send(peer, AdminRemoved(d.user))])
    ensures var r := Execute(cfg, t, peer, from, d, now);
      d.DoAddModer? ==> (r.moderators == t.moderators + [d.user] && r.admins == t.admins &&
         r.outbox == t.outbox + [Send(peer, ModeratorAdded(d.user))])
    ensures var r := Execute(cfg, t, peer, from, d, now);
      d.DoRemoveModer? ==> (r.moderators == RemoveFirst(t.moderators, d.user) && r.admins == t.admins &&
         r.outbox == t.outbox + [Send(peer, ModeratorRemoved(d.user))])
  {
    var r := Execute(cfg, t, peer, from, d, now);
    match d
    case DoAddAdmin(u) =>
      assert r.admins == t.admins + [u];
      if cfg.superAdminIds.None? {
        assert t.admins != [];
        assert r.admins[0] == t.admins[0];
      }
      if NoDup(t.admins) {
        SnocNoDup(t.admins, u);
      }
    case DoRemoveAdmin(u) =>
      assert r.admins == RemoveFirst(t.admins, u);
      if cfg.superAdminIds.None? && t.admins != [] {
        RemoveFirstKeepsHead(t.admins, u);
      }
      forall s | s in SuperAdmins(cfg, t) && s in t.admins ensures s in r.admins {
        RemoveFirstKeepsOthers(t.admins, u, s);
      }
      if NoDup(t.admins) {
        RemoveFirstNoDup(t.admins, u);
      }
    case DoAddModer(u) =>
      if NoDup(t.moderators) {
        SnocNoDup(t.moderators, u);
      }
    case DoRemoveModer(u) =>
      if NoDup(t.moderators) {
        RemoveFirstNoDup(t.moderators, u);
      }
  }

  /** Only `/unite` and `/separate` decide to change the unified network. */
  lemma RouteUnifiedOnlyByCommand(cfg: Config, t: Tables, m: Message, now: int)
    ensures Route(cfg, t, m, now).DoUnite? ==> CommandWord(m).UniteCmd?
    ensures Route(cfg, t, m, now).DoSeparate? ==> CommandWord(m).SeparateCmd?
  {
    var c := CommandWord(m);
    if !IsModerationCommand(c) || IsModerator(t, m.fromId) {
      match c
      case MuteCmd => assert Route(cfg, t, m, now) == RouteMute(cfg, t, m);
      case WarnCmd => assert Route(cfg, t, m, now) == RouteWarn(t, m);
      case NickCmd => assert Route(cfg, t, m, now) == RouteNick(t, m);
      case StatsCmd => assert Route(cfg, t, m, now) == RouteStats(cfg, t, m, now);
      case AddAdminCmd => assert Route(cfg, t, m, now) == RouteRoster(cfg, t, m, c);
      case RemoveAdminCmd => assert Route(cfg, t, m, now) == RouteRoster(cfg, t, m, c);
      case AddModerCmd => assert Route(cfg, t, m, now) == RouteRoster(cfg, t, m, c);
      case RemoveModerCmd => assert Route(cfg, t, m, now) == RouteRoster(cfg, t, m, c);
      case _ =>
    }
  }

  /**
   * Handling a message keeps the tables well formed and the super admins as they were,
   * and never takes a super admin who is an admin off the admin roster. It keeps both
   * rosters free of duplicates when they were, and it changes the unified network only
   * through `/unite` and `/separate`.
   */
  lemma ProcessSpec(cfg: Config, t: Tables, m: Message, now: int)
    requires WellFormed(t)
    ensures WellFormed(Process(cfg, t, m, now))
    ensures SuperAdmins(cfg, Process(cfg, t, m, now)) == SuperAdmins(cfg, t)
    ensures forall s :: s in SuperAdmins(cfg, t) && s in t.admins ==> s in Process(cfg, t, m, now).admins
    ensures NoDup(t.admins) ==> NoDup(Process(cfg, t, m, now).admins)
    ensures NoDup(t.moderators) ==> NoDup(Process(cfg, t, m, now).moderators)
    ensures !CommandWord(m).UniteCmd? && !CommandWord(m).SeparateCmd? ==> Process(cfg, t, m, now).unified == t.unified
  {
    IntakeSpec(cfg, t, m, now);
    var t1 := Intake(cfg, t, m, now);
    assert WellFormed(t1) && SameRosters(t, t1);
    var d := Route(cfg, t1, m, now);
    var peer, from := m.peerId, m.fromId;
    var r := Execute(cfg, t1, peer, from, d, now);
    assert Process(cfg, t, m, now) == r;
    RouteAuthorized(cfg, t1, m, now);
    RouteRosterAuthorized(cfg, t1, m, now);
    RouteUnifiedOnlyByCommand(cfg, t1, m, now);
    if IsVerb(d) {
      ExecuteVerb(cfg, t1, peer, from, d, now);
    } else if d.DoAddAdmin? || d.DoRemoveAdmin? || d.DoAddModer? || d.DoRemoveModer? {
      ExecuteRoster(cfg, t1, peer, from, d, now);
    } else if d.DoUnite? {
      EnableUnifiedSpec(t1, peer, from);
    } else if d.DoSeparate? {
      DisableUnifiedSpec(t1, peer, from);
    }
  }

  /**
   * `/stats` with no argument and no reply reports on the sender, whatever their rank, and
   * the count it shows already includes the `/stats` message itself.
   */
  lemma StatsOfSelf(cfg: Config, t: Tables, m: Message, now: int)
    requires CommandWord(m) == StatsCmd && Mentioned(Intake(cfg, t, m, now), Parts(m)).None? && m.reply.None?
    ensures Process(cfg, t, m, now) ==
      Emit(Intake(cfg, t, m, now), Send(m.peerId, StatsOf(m.fromId, Report(cfg, Intake(cfg, t, m, now), m.peerId, m.fromId, now))))
    ensures Report(cfg, Intake(cfg, t, m, now), m.peerId, m.fromId, now).messageCount == GetUserStats(t.stats, m.peerId, m.fromId).messageCount + 1
  {
    IntakeSpec(cfg, t, m, now);
  }
}
