/**
 * The string primitives the bot's command handling relies on: `explode`/`implode` on a
 * single space, `strtolower` (ASCII), `mb_strtolower` (approximated on ASCII and basic
 * Cyrillic), `is_numeric`/`intval` on integer strings, `strpos` as a substring test, and
 * the bot's own `formatTimeString`.
 */
module Text {
  import opened Common

  // ---------------------------------------------------------------- case folding

  /** `strtolower`: only the ASCII letters change. */
  function AsciiLowerChar(c: char): char {
    if 'A' <= c <= 'Z' then (c as int + 32) as char else c
  }

  function AsciiLower(s: string): (r: string)
    ensures |r| == |s|
    ensures forall i :: 0 <= i < |s| ==> r[i] == AsciiLowerChar(s[i])
  {
    seq(|s|, i requires 0 <= i < |s| => AsciiLowerChar(s[i]))
  }

  /** `mb_strtolower` on the letters a chat in Russian uses: ASCII, А-Я and Ё. */
  function FoldChar(c: char): char {
    if 'A' <= c <= 'Z' then (c as int + 32) as char
    else if '\U{0410}' <= c <= '\U{042F}' then (c as int + 32) as char
    else if c == '\U{0401}' then '\U{0451}'
    else c
  }

  function FoldCase(s: string): (r: string)
    ensures |r| == |s|
    ensures forall i :: 0 <= i < |s| ==> r[i] == FoldChar(s[i])
  {
    seq(|s|, i requires 0 <= i < |s| => FoldChar(s[i]))
  }

  /** Folding is idempotent, so comparing folded strings is an equivalence. */
  lemma FoldCaseIdempotent(s: string)
    ensures FoldCase(FoldCase(s)) == FoldCase(s)
  {
    forall i | 0 <= i < |s| ensures FoldChar(FoldChar(s[i])) == FoldChar(s[i]) {
      var c := s[i];
      if 'A' <= c <= 'Z' {
        assert 'a' <= FoldChar(c) <= 'z';
      } else if '\U{0410}' <= c <= '\U{042F}' {
        assert '\U{0430}' <= FoldChar(c) <= '\U{044F}';
      }
    }
  }

  // ---------------------------------------------------------------- explode / implode

  /** `explode(sep, s)`: the pieces between separators, empty pieces included. */
  function Split(s: string, sep: char): (parts: seq<string>)
    ensures |parts| >= 1
    ensures forall i :: 0 <= i < |parts| ==> sep !in parts[i]
  {
    if s == [] then [""]
    else
      var rest := Split(s[1..], sep);
      if s[0] == sep then [""] + rest
      else [[s[0]] + rest[0]] + rest[1..]
  }

  /** `implode(sep, parts)`. */
  function Join(parts: seq<string>, sep: char): string {
    if parts == [] then ""
    else if |parts| == 1 then parts[0]
    else parts[0] + [sep] + Join(parts[1..], sep)
  }

  /** `implode` undoes `explode`: splitting a text and joining it back gives the text. */
  lemma {:induction false} JoinSplit(s: string, sep: char)
    ensures Join(Split(s, sep), sep) == s
  {
    if s != [] {
      var rest := Split(s[1..], sep);
      JoinSplit(s[1..], sep);
      if s[0] == sep {
        assert Split(s, sep) == [""] + rest;
        assert ([""] + rest)[1..] == rest;
        assert s == [sep] + s[1..];
      } else {
        var parts := [[s[0]] + rest[0]] + rest[1..];
        assert Split(s, sep) == parts;
        if |rest| == 1 {
          assert Join(parts, sep) == [s[0]] + rest[0];
        } else {
          assert parts[1..] == rest[1..];
          assert Join(parts, sep) == [s[0]] + rest[0] + [sep] + Join(rest[1..], sep);
          assert Join(rest, sep) == rest[0] + [sep] + Join(rest[1..], sep);
        }
        assert s == [s[0]] + s[1..];
      }
    }
  }

  // ---------------------------------------------------------------- numbers

  predicate IsDigit(c: char) {
    '0' <= c <= '9'
  }

  predicate AllDigits(s: string) {
    forall i :: 0 <= i < |s| ==> IsDigit(s[i])
  }

  /**
   * The whitespace PHP skips around a numeric string, which is also what PCRE's `\s` matches
   * on single-byte text: space, tab, line feed, vertical tab, form feed, carriage return.
   */
  predicate IsSpace(c: char) {
    c == ' ' || c == '\t' || c == '\n' || c == '\U{000B}' || c == '\U{000C}' || c == '\r'
  }

  predicate AllSpace(s: string) {
    forall i :: 0 <= i < |s| ==> IsSpace(s[i])
  }

  /** `s` without its leading whitespace. */
  function TrimStart(s: string): (r: string)
    ensures |r| <= |s| && r == s[|s| - |r|..] && AllSpace(s[..|s| - |r|])
    ensures r == [] || !IsSpace(r[0])
  {
    if s != [] && IsSpace(s[0]) then TrimStart(s[1..]) else s
  }

  /** `s` without its trailing whitespace. */
  function TrimEnd(s: string): (r: string)
    ensures r <= s && AllSpace(s[|r|..])
    ensures r == [] || !IsSpace(r[|r| - 1])
  {
    if s != [] && IsSpace(s[|s| - 1]) then TrimEnd(s[..|s| - 1]) else s
  }

  /** An optional sign, then at least one digit. */
  predicate IsIntegerText(s: string) {
    if |s| > 0 && (s[0] == '-' || s[0] == '+') then |s| > 1 && AllDigits(s[1..])
    else |s| > 0 && AllDigits(s)
  }

  /** `is_numeric` (PHP 8) on integer strings: an integer with whitespace allowed before and after it. */
  predicate IsNumeric(s: string) {
    IsIntegerText(TrimStart(TrimEnd(s)))
  }

  /** The value of a decimal digit string, most significant digit first. */
  function DigitsValue(s: string): (n: nat)
    requires AllDigits(s)
  {
    if s == [] then 0
    else DigitsValue(s[..|s| - 1]) * 10 + (s[|s| - 1] as int - '0' as int)
  }

  /** The longest prefix of `s` made of digits. */
  function LeadingDigits(s: string): (d: string)
    ensures AllDigits(d) && d <= s
    ensures |d| < |s| ==> !IsDigit(s[|d|])
    ensures AllDigits(s) ==> d == s
  {
    if s != [] && IsDigit(s[0]) then [s[0]] + LeadingDigits(s[1..]) else []
  }

  /** `PHP_INT_MAX` and `PHP_INT_MIN` of a 64-bit build. */
  const IntMax: int := 0x7FFF_FFFF_FFFF_FFFF
  const IntMin: int := -0x8000_0000_0000_0000

  /** A value outside the 64-bit range capped at the nearer end, as `intval` does with a string. */
  function Saturate(n: int): (r: int)
    ensures IntMin <= r <= IntMax
    ensures IntMin <= n <= IntMax ==> r == n
  {
    if n > IntMax then IntMax else if n < IntMin then IntMin else n
  }

  /** An optional sign and the digits that follow it; 0 when there are none. */
  function SignedValue(s: string): int {
    if |s| > 0 && s[0] == '-' then -(DigitsValue(LeadingDigits(s[1..])) as int)
    else if |s| > 0 && s[0] == '+' then DigitsValue(LeadingDigits(s[1..]))
    else DigitsValue(LeadingDigits(s))
  }

  /** `intval` on a string: leading whitespace skipped, then a sign and digits, capped to 64 bits. */
  function IntVal(s: string): (n: int)
    ensures IntMin <= n <= IntMax
    ensures AllDigits(s) && DigitsValue(s) <= IntMax ==> n == DigitsValue(s)
    ensures AllDigits(s) && DigitsValue(s) > IntMax ==> n == IntMax
    ensures |s| > 0 && s[0] == '-' && AllDigits(s[1..]) && DigitsValue(s[1..]) <= -IntMin ==> n == -(DigitsValue(s[1..]) as int)
  {
    UnpaddedValue(s);
    Saturate(SignedValue(TrimStart(s)))
  }

  /** A text that starts with a digit or a minus sign has no whitespace to skip. */
  lemma UnpaddedValue(s: string)
    ensures AllDigits(s) ==> SignedValue(TrimStart(s)) == DigitsValue(s)
    ensures |s| > 0 && s[0] == '-' && AllDigits(s[1..]) ==> SignedValue(TrimStart(s)) == -(DigitsValue(s[1..]) as int)
  {
    if s != [] && (IsDigit(s[0]) || s[0] == '-') {
      assert !IsSpace(s[0]);
      assert TrimStart(s) == s;
    } else if s == [] {
      assert TrimStart(s) == s;
    }
  }

  /**
   * Whitespace around a number does not change whether `is_numeric` accepts it, and
   * whitespace in front of it does not change what `intval` reads.
   */
  lemma NumericPadding(pre: string, s: string, post: string)
    requires AllSpace(pre) && AllSpace(post)
    ensures IsNumeric(pre + s + post) == IsNumeric(s)
    ensures IntVal(pre + s) == IntVal(s)
  {
    TrimEndSpace(pre + s, post);
    TrimEndAfter(pre, s);
    if TrimEnd(s) != [] {
      TrimStartSpace(pre, TrimEnd(s));
    } else {
      TrimEndSpaces(pre);
    }
    TrimStartSpace(pre, s);
  }

  lemma {:induction false} TrimStartSpace(pre: string, s: string)
    requires AllSpace(pre)
    ensures TrimStart(pre + s) == TrimStart(s)
  {
    if pre == [] {
      assert pre + s == s;
    } else {
      var x := pre + s;
      assert x[0] == pre[0] && x[1..] == pre[1..] + s;
      assert AllSpace(pre[1..]) by {
        forall k | 0 <= k < |pre| - 1 ensures IsSpace(pre[1..][k]) {
          assert pre[1..][k] == pre[k + 1];
        }
      }
      TrimStartSpace(pre[1..], s);
      assert TrimStart(x) == TrimStart(x[1..]);
    }
  }

  lemma TrimEndSpace(s: string, post: string)
    requires AllSpace(post)
    ensures TrimEnd(s + post) == TrimEnd(s)
  {
    if post != [] {
      assert (s + post)[..|s + post| - 1] == s + post[..|post| - 1];
      TrimEndSpace(s, post[..|post| - 1]);
    } else {
      assert s + post == s;
    }
  }

  lemma TrimEndSpaces(s: string)
    requires AllSpace(s)
    ensures TrimEnd(s) == []
  {
    if s != [] {
      TrimEndSpaces(s[..|s| - 1]);
    }
  }

  lemma TrimEndAfter(pre: string, s: string)
    ensures TrimEnd(pre + s) == if TrimEnd(s) == [] then TrimEnd(pre) else pre + TrimEnd(s)
  {
    if s == [] {
      assert pre + s == pre;
    } else if IsSpace(s[|s| - 1]) {
      assert (pre + s)[..|pre + s| - 1] == pre + s[..|s| - 1];
      TrimEndAfter(pre, s[..|s| - 1]);
    }
  }

  // ---------------------------------------------------------------- substrings

  /** `strpos(s, sub) !== false`: `sub` occurs in `s` (the empty string occurs everywhere). */
  predicate Contains(s: string, sub: string) {
    exists i :: 0 <= i <= |s| - |sub| && OccursAt(s, sub, i)
  }

  /** `s` holds `p` starting at `i` (a total form of `OccursAt`). */
  predicate PrefixAt(s: string, i: nat, p: string) {
    i + |p| <= |s| && s[i..i + |p|] == p
  }

  predicate OccursAt(s: string, sub: string, i: int)
    requires 0 <= i <= |s| - |sub|
  {
    s[i..i + |sub|] == sub
  }

  /**
   * `strpos(s, sub)` searching from index `i`: the first position at or after `i` where
   * `sub` occurs, if any.
   */
  function StrPosFrom(s: string, sub: string, i: nat): (r: Option<nat>)
    decreases |s| - i
    ensures r.Some? ==> i <= r.value <= |s| - |sub| && OccursAt(s, sub, r.value)
    ensures r.Some? ==> forall j :: i <= j < r.value ==> !OccursAt(s, sub, j)
    ensures r.None? ==> forall j :: i <= j <= |s| - |sub| ==> !OccursAt(s, sub, j)
  {
    if i + |sub| > |s| then None
    else if s[i..i + |sub|] == sub then Some(i)
    else StrPosFrom(s, sub, i + 1)
  }

  /** `strpos(s, sub)`: the first position of `sub` in `s`, or none. */
  function StrPos(s: string, sub: string): (r: Option<nat>)
    ensures r.None? <==> !Contains(s, sub)
    ensures r.Some? ==> r.value <= |s| - |sub| && OccursAt(s, sub, r.value) && forall j :: 0 <= j < r.value ==> !OccursAt(s, sub, j)
  {
    StrPosFrom(s, sub, 0)
  }

  // ---------------------------------------------------------------- formatTimeString

  /** The three shapes `formatTimeString` renders: "N сек.", "M мин.", "H ч. M мин.". */
  datatype TimeText = Seconds(seconds: int) | Minutes(minutes: int) | HoursMinutes(hours: int, minutes: int)

  /** The number of seconds a rendered duration stands for. */
  function Shown(t: TimeText): int {
    match t
    case Seconds(s) => s
    case Minutes(m) => m * 60
    case HoursMinutes(h, m) => h * 3600 + m * 60
  }

  /**
   * Below a minute the exact seconds are shown; below an hour whole minutes; otherwise hours
   * and the minutes left over. Rendering only drops the seconds of the last minute.
   */
  function FormatTimeString(seconds: int): (r: TimeText)
    ensures r.Seconds? <==> seconds < 60
    ensures r.Minutes? <==> 60 <= seconds < 3600
    ensures r.Seconds? ==> Shown(r) == seconds
    ensures r.Minutes? ==> 1 <= r.minutes < 60
    ensures r.HoursMinutes? ==> r.hours >= 1 && 0 <= r.minutes < 60
    ensures !r.Seconds? ==> Shown(r) <= seconds < Shown(r) + 60
  {
    if seconds < 60 then Seconds(seconds)
    else if seconds < 3600 then Minutes(seconds / 60)
    else HoursMinutes(seconds / 3600, (seconds % 3600) / 60)
  }
}
