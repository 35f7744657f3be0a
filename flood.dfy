/**
 * `ModerationManager`: the per-user sliding-window flood counter and the three content
 * checks (bad words, links, mentions). The class keeps the configuration and the flood
 * history; the bot never calls any of these checks from its message handler.
 */
module Flood {
  import opened Common
  import opened Text
  import opened Types

  // ---------------------------------------------------------------- the sliding window

  /** `array_filter($times, fn($t) => $now - $t < $window)`: the timestamps still inside the window, in order. */
  function Recent(times: seq<int>, now: int, window: int): (r: seq<int>)
    ensures |r| <= |times|
  {
    if times == [] then []
    else
      var last := times[|times| - 1];
      Recent(times[..|times| - 1], now, window) + if now - last < window then [last] else []
  }

  /** The filter keeps every occurrence of a timestamp inside the window and drops every other one. */
  lemma {:induction false} RecentCount(times: seq<int>, now: int, window: int, x: int)
    ensures multiset(Recent(times, now, window))[x] == if now - x < window then multiset(times)[x] else 0
  {
    if times != [] {
      var init, last := times[..|times| - 1], times[|times| - 1];
      RecentCount(init, now, window, x);
      LastSplit(times);
      assert multiset(times) == multiset(init) + multiset{last};
    }
  }

  /** Every kept timestamp is inside the window. */
  lemma {:induction false} RecentInside(times: seq<int>, now: int, window: int)
    ensures forall x :: x in Recent(times, now, window) ==> x in times && now - x < window
  {
    if times != [] {
      RecentInside(times[..|times| - 1], now, window);
    }
  }

  /** A history that lies entirely inside the window is kept whole. */
  lemma {:induction false} RecentKeepsAll(times: seq<int>, now: int, window: int)
    requires forall x :: x in times ==> now - x < window
    ensures Recent(times, now, window) == times
  {
    if times != [] {
      LastSplit(times);
      var init := times[..|times| - 1];
      forall x | x in init ensures now - x < window {
        assert x in times;
      }
      RecentKeepsAll(init, now, window);
      assert times[|times| - 1] in times;
    }
  }

  /** A history that lies entirely outside the window is dropped whole. */
  lemma {:induction false} RecentDropsAll(times: seq<int>, now: int, window: int)
    requires forall x :: x in times ==> now - x >= window
    ensures Recent(times, now, window) == []
  {
    if times != [] {
      var init := times[..|times| - 1];
      forall x | x in init ensures now - x >= window {
        assert x in times;
      }
      RecentDropsAll(init, now, window);
      assert times[|times| - 1] in times;
    }
  }

  /** The history a user has after one `checkFloodControl` call at `now`. */
  function Track(times: seq<int>, now: int, window: int): seq<int> {
    Recent(times, now, window) + [now]
  }

  /** The history after `n` calls at the same instant, starting from none. */
  function Burst(n: nat, now: int, window: int): seq<int> {
    if n == 0 then [] else Track(Burst(n - 1, now, window), now, window)
  }

  /**
   * `n` messages in the same second leave `n` timestamps, as long as the window is
   * positive, so the `max_messages + 1`-th is the first one refused.
   */
  lemma {:induction false} BurstLength(n: nat, now: int, window: int)
    requires window > 0
    ensures |Burst(n, now, window)| == n
    ensures forall x :: x in Burst(n, now, window) ==> x == now
  {
    if n > 0 {
      BurstLength(n - 1, now, window);
      RecentKeepsAll(Burst(n - 1, now, window), now, window);
    }
  }

  // ---------------------------------------------------------------- mentions

  /** `array_column($fwd, 'from_id')`: the forwarded messages' senders, skipping rows without one. */
  function Present(ids: seq<Option<int>>): (r: seq<int>)
    ensures |r| <= |ids|
    ensures forall x :: x in r <==> Some(x) in ids
  {
    if ids == [] then []
    else (if ids[0].Some? then [ids[0].value] else []) + Present(ids[1..])
  }

  /**
   * The `$mentions` list `checkMentions` builds: the forwarded senders, then the reply's
   * sender. The reply counts even when it has no sender, because PHP appends the null.
   */
  function Mentions(m: Message): seq<Option<int>> {
    (if m.forwardedFromIds.Some? then seq(|Present(m.forwardedFromIds.value)|, i requires 0 <= i < |Present(m.forwardedFromIds.value)| => Some(Present(m.forwardedFromIds.value)[i])) else [])
    + if m.reply.Some? then [m.reply.value.fromId] else []
  }

  /** The number of forwarded messages that carry a sender. */
  function CountPresent(ids: seq<Option<int>>): (n: nat)
    ensures n == |Present(ids)|
  {
    if ids == [] then 0
    else (if ids[0].Some? then 1 else 0) + CountPresent(ids[1..])
  }

  // ---------------------------------------------------------------- links

  /** A match of `https?://\S+` starts at `i`: the scheme, then at least one non-space character. */
  predicate LinkAt(s: string, i: nat) {
    (PrefixAt(s, i, "http://") && i + 7 < |s| && !IsSpace(s[i + 7]))
    || (PrefixAt(s, i, "https://") && i + 8 < |s| && !IsSpace(s[i + 8]))
  }

  /** The scan `preg_match` makes: is there a link starting at `i` or later? */
  function FindLink(s: string, i: nat): (found: bool)
    decreases |s| - i
    ensures found <==> exists j :: i <= j < |s| && LinkAt(s, j)
  {
    if i >= |s| then false
    else LinkAt(s, i) || FindLink(s, i + 1)
  }

  /** Every link starts with "http", so a message without it never matches. */
  lemma LinkNeedsScheme(s: string, i: nat)
    requires LinkAt(s, i)
    ensures i + 4 <= |s| && OccursAt(s, "http", i)
  {
    if PrefixAt(s, i, "http://") {
      assert s[i..i + 4] == s[i..i + 7][..4];
    } else {
      assert s[i..i + 4] == s[i..i + 8][..4];
    }
  }

  // ---------------------------------------------------------------- the manager

  class ModerationManager {
    const cfg: Config
    /** `$flood_tracking`: each user's recent message times, oldest first. */
    var floodTracking: map<int, seq<int>>

    constructor (cfg: Config)
      ensures this.cfg == cfg && floodTracking == map[]
    {
      this.cfg := cfg;
      floodTracking := map[];
    }

    /** A user's stored history; none yet reads as empty. */
    function History(user: int): seq<int>
      reads this
    {
      if user in floodTracking then floodTracking[user] else []
    }

    /**
     * `checkFloodControl`: drop the timestamps that fell out of the window, record this
     * message, and refuse when more than `max_messages` remain. The history grows even on a
     * refusal, and no other user's history changes.
     */
    method CheckFloodControl(user: int, now: int) returns (allowed: bool)
      modifies this
      ensures floodTracking == old(floodTracking)[user := Track(old(History(user)), now, cfg.timeWindow)]
      ensures allowed <==> |Track(old(History(user)), now, cfg.timeWindow)| <= cfg.maxMessages
    {
      var times := History(user);
      var kept: seq<int> := [];
      var i := 0;
      while i < |times|
        invariant 0 <= i <= |times|
        invariant kept == Recent(times[..i], now, cfg.timeWindow)
      {
        assert times[..i + 1][..i] == times[..i];
        if now - times[i] < cfg.timeWindow {
          kept := kept + [times[i]];
        }
        i := i + 1;
      }
      assert times[..i] == times;
      kept := kept + [now];
      floodTracking := floodTracking[user := kept];
      allowed := |kept| <= cfg.maxMessages;
    }

    /**
     * `checkBadWords`: with the filter on, refuse a message whose lower-cased text contains
     * any lower-cased bad word.
     */
    method CheckBadWords(message: string) returns (ok: bool)
      ensures ok <==> !cfg.badWordsFilter || forall w :: w in cfg.badWords ==> !Contains(FoldCase(message), FoldCase(w))
    {
      if !cfg.badWordsFilter {
        return true;
      }
      var lower := FoldCase(message);
      var i := 0;
      while i < |cfg.badWords|
        invariant 0 <= i <= |cfg.badWords|
        invariant forall k :: 0 <= k < i ==> !Contains(lower, FoldCase(cfg.badWords[k]))
      {
        if StrPos(lower, FoldCase(cfg.badWords[i])).Some? {
          return false;
        }
        i := i + 1;
      }
      return true;
    }

    /** `checkLinks`: with link deletion on, refuse a message holding `http://` or `https://` followed by a non-space. */
    function CheckLinks(message: string): (ok: bool)
      ensures ok <==> !cfg.autoDeleteLinks || forall i :: 0 <= i < |message| ==> !LinkAt(message, i)
    {
      !cfg.autoDeleteLinks || !FindLink(message, 0)
    }

    /** `checkMentions`: accept a message with at most `max_mentions` forwarded senders and reply authors. */
    function CheckMentions(m: Message): (ok: bool)
      ensures ok <==> |Mentions(m)| <= cfg.maxMentions
    {
      (if m.forwardedFromIds.Some? then CountPresent(m.forwardedFromIds.value) else 0)
      + (if m.reply.Some? then 1 else 0) <= cfg.maxMentions
    }
  }

  /** With the filter on, an empty bad word matches everywhere, so every message is refused. */
  lemma EmptyBadWordBlocksAll(m: ModerationManager, message: string)
    requires m.cfg.badWordsFilter && "" in m.cfg.badWords
    ensures exists w :: w in m.cfg.badWords && Contains(FoldCase(message), FoldCase(w))
  {
    assert OccursAt(FoldCase(message), FoldCase(""), 0);
  }

  /** A message that never spells "http" always passes the link check. */
  lemma NoSchemeNoLink(m: ModerationManager, message: string)
    requires !Contains(message, "http")
    ensures m.CheckLinks(message)
  {
    forall i | 0 <= i < |message| && LinkAt(message, i) ensures false {
      LinkNeedsScheme(message, i);
    }
  }

  /**
   * With link deletion on, a message that never spells "http" still passes with a bare
   * scheme at its end, and fails as soon as one non-space character follows the scheme.
   */
  lemma SchemeNeedsBody(m: ModerationManager, s: string, scheme: string, c: char)
    requires m.cfg.autoDeleteLinks
    requires scheme == "http://" || scheme == "https://"
    ensures !Contains(s, "http") ==> m.CheckLinks(s + scheme)
    ensures !IsSpace(c) ==> !m.CheckLinks(s + scheme + [c])
  {
    var t := s + scheme;
    if !Contains(s, "http") {
      forall i | 0 <= i < |t| ensures !LinkAt(t, i) {
        BareSchemeNoLink(s, scheme, i);
      }
    }
    if !IsSpace(c) {
      var u := t + [c];
      assert u[|s|..|s| + |scheme|] == scheme;
      assert u[|s| + |scheme|] == c;
      if scheme == "http://" {
        assert PrefixAt(u, |s|, "http://");
      } else {
        assert PrefixAt(u, |s|, "https://");
      }
      assert LinkAt(u, |s|);
    }
  }

  /** Where "http" does not start, no link does. */
  lemma NoLinkWithoutScheme(t: string, i: nat)
    requires i + 4 > |t| || !OccursAt(t, "http", i)
    ensures !LinkAt(t, i)
  {
    if i + 7 <= |t| {
      assert t[i..i + 4] == t[i..i + 7][..4];
    }
    if i + 8 <= |t| {
      assert t[i..i + 4] == t[i..i + 8][..4];
    }
  }

  /** No link starts anywhere in a message without "http" followed by a bare scheme. */
  lemma BareSchemeNoLink(s: string, scheme: string, i: nat)
    requires scheme == "http://" || scheme == "https://"
    requires !Contains(s, "http")
    ensures !LinkAt(s + scheme, i)
  {
    var t := s + scheme;
    if i + 4 <= |s| {
      assert t[i..i + 4] == s[i..i + 4];
      assert !OccursAt(s, "http", i);
      NoLinkWithoutScheme(t, i);
    } else if i < |s| {
      assert t[|s|] == 'h';
      assert t[i..i + 4][|s| - i] == 'h';
      assert "http"[|s| - i] != 'h';
      NoLinkWithoutScheme(t, i);
    } else if i == |s| {
      if scheme == "https://" {
        assert i + 7 <= |t| && t[i..i + 7][4] == 's';
      }
    } else if i < |t| {
      assert t[i] == scheme[i - |s|] != 'h';
      if i + 4 <= |t| {
        assert t[i..i + 4][0] == t[i];
      }
      NoLinkWithoutScheme(t, i);
    }
  }
}
