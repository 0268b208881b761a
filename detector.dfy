/**
 * The pure part of the `messageCreate` handler: flattening a chat message into
 * one string, recognising a world-boss announcement in it, reading the
 * announced number of minutes, and computing when the reminder is due.
 */
module Detector {
  import opened Wrappers
  import opened Text

  // ---------------------------------------------------------------------------
  // Messages

  datatype Footer = Footer(text: Option<string>)

  datatype Embed = Embed(title: Option<string>, description: Option<string>, footer: Option<Footer>)

  /** An incoming chat message: its id, its channel, its text and its embeds. */
  datatype Message = Message(id: string, channelId: string, content: Option<string>, embeds: seq<Embed>)

  /** `message.embeds?.[0]` */
  function FirstEmbed(m: Message): Option<Embed> {
    if |m.embeds| > 0 then Some(m.embeds[0]) else None
  }

  /** `message.content ?? ""` */
  function ContentOf(m: Message): string {
    m.content.GetOr("")
  }

  /** `embed?.title ?? ""` */
  function TitleOf(m: Message): string {
    match FirstEmbed(m)
    case None => ""
    case Some(e) => e.title.GetOr("")
  }

  /** `embed?.description ?? ""` */
  function DescriptionOf(m: Message): string {
    match FirstEmbed(m)
    case None => ""
    case Some(e) => e.description.GetOr("")
  }

  /** `embed?.footer?.text ?? ""` */
  function FooterTextOf(m: Message): string {
    match FirstEmbed(m)
    case None => ""
    case Some(e) =>
      match e.footer
      case None => ""
      case Some(f) => f.text.GetOr("")
  }

  /**
   * The text of a message: its content and the first embed's title, description
   * and footer, joined by single spaces, with surrounding whitespace removed.
   */
  function ExtractText(m: Message): (r: string)
    ensures IsTrimOf(r, ContentOf(m) + " " + TitleOf(m) + " " + DescriptionOf(m) + " " + FooterTextOf(m))
  {
    Trim(ContentOf(m) + " " + TitleOf(m) + " " + DescriptionOf(m) + " " + FooterTextOf(m))
  }

  /** A message without embeds contributes its trimmed content and nothing else. */
  lemma ExtractTextWithoutEmbeds(m: Message)
    requires m.embeds == []
    ensures ExtractText(m) == Trim(ContentOf(m))
  {
    assert ContentOf(m) + " " + TitleOf(m) + " " + DescriptionOf(m) + " " + FooterTextOf(m)
        == ContentOf(m) + "   ";
    TrimIgnoresTrailingSpace(ContentOf(m), "   ");
  }

  // ---------------------------------------------------------------------------
  // The pattern /(\d+)\s*minutes?/

  predicate DigitsBetween(s: string, lo: int, hi: int) {
    forall k :: lo <= k < hi && 0 <= k < |s| ==> IsDigit(s[k])
  }

  /**
   * The pattern matches `s` at `i`, with the digits of group 1 in [i, j), the
   * whitespace in [j, k) and "minute" at `k`. (The optional trailing "s" adds
   * nothing to whether or where the pattern matches.)
   */
  predicate MatchAt(s: string, i: int, j: int, k: int) {
    0 <= i < j <= k <= |s| && DigitsBetween(s, i, j) && SpaceBetween(s, j, k) && OccursAt(s, "minute", k)
  }

  /** Some match of the pattern starts at index `i`. */
  ghost predicate MatchesAt(s: string, i: int) {
    exists j, k :: MatchAt(s, i, j, k)
  }

  /** The match a left-to-right regular-expression search reports: no match starts earlier. */
  ghost predicate FirstMatch(s: string, i: int, j: int, k: int) {
    MatchAt(s, i, j, k) && forall i' :: 0 <= i' < i ==> !MatchesAt(s, i')
  }

  /** End of the run of digits that starts at `i`. */
  function DigitRunEnd(s: string, i: nat): (j: nat)
    requires i <= |s|
    ensures i <= j <= |s| && DigitsBetween(s, i, j)
    ensures j < |s| ==> !IsDigit(s[j])
    decreases |s| - i
  {
    if i == |s| || !IsDigit(s[i]) then i else DigitRunEnd(s, i + 1)
  }

  /** End of the run of whitespace that starts at `j`. */
  function SpaceRunEnd(s: string, j: nat): (k: nat)
    requires j <= |s|
    ensures j <= k <= |s| && SpaceBetween(s, j, k)
    ensures k < |s| ==> !IsSpace(s[k])
    decreases |s| - j
  {
    if j == |s| || !IsSpace(s[j]) then j else SpaceRunEnd(s, j + 1)
  }

  /**
   * Search for the pattern from index `i`, one run of digits at a time: the
   * first digit of a run matches exactly when every digit of it does.
   * Returns the bounds of group 1.
   */
  function ScanMinutes(s: string, i: nat): (r: Option<(nat, nat)>)
    requires i <= |s|
    ensures r.Some? ==> i <= r.value.0 < r.value.1 <= |s| && DigitsBetween(s, r.value.0, r.value.1)
    decreases |s| - i
  {
    if i == |s| then None
    else if !IsDigit(s[i]) then ScanMinutes(s, i + 1)
    else
      var j := DigitRunEnd(s, i);
      if OccursAt(s, "minute", SpaceRunEnd(s, j)) then Some((i, j)) else ScanMinutes(s, j)
  }

  function DigitValue(c: char): (d: nat)
    requires IsDigit(c)
    ensures d < 10
  {
    c as int - '0' as int
  }

  /** `parseInt(ds, 10)` of a string of decimal digits. */
  function DecimalValue(ds: string): nat
    requires DigitsBetween(ds, 0, |ds|)
  {
    if ds == [] then 0 else 10 * DecimalValue(ds[..|ds| - 1]) + DigitValue(ds[|ds| - 1])
  }

  /** `parseInt(text.match(/(\d+)\s*minutes?/)[1], 10)`, or `None` when nothing matches. */
  function FindMinutes(s: string): Option<nat> {
    match ScanMinutes(s, 0)
    case None => None
    case Some((i, j)) => Some(DecimalValue(s[i..j]))
  }

  /** A match is determined by where it starts: group 1 is the whole run of digits. */
  lemma MatchAtCanonical(s: string, i: int, j: int, k: int)
    requires MatchAt(s, i, j, k)
    ensures j == DigitRunEnd(s, i) && k == SpaceRunEnd(s, j)
  {
    assert s[k] == s[k..k + 6][0] == 'm';
    assert !IsDigit(s[j]) by {
      if j < k { assert IsSpace(s[j]); }
    }
  }

  /** Whether a match starts at a digit depends only on what follows its run of digits. */
  lemma MatchesAtIff(s: string, i: nat)
    requires i < |s|
    ensures MatchesAt(s, i) <==> IsDigit(s[i]) && OccursAt(s, "minute", SpaceRunEnd(s, DigitRunEnd(s, i)))
  {
    if MatchesAt(s, i) {
      var j, k :| MatchAt(s, i, j, k);
      MatchAtCanonical(s, i, j, k);
    }
    if IsDigit(s[i]) {
      var j := DigitRunEnd(s, i);
      assert MatchAt(s, i, j, SpaceRunEnd(s, j)) ==> MatchesAt(s, i);
    }
  }

  /** Every digit of a run ends at the same place. */
  lemma {:induction false} SameRun(s: string, i: nat, p: nat)
    requires i <= |s| && i <= p < DigitRunEnd(s, i)
    ensures DigitRunEnd(s, p) == DigitRunEnd(s, i)
    decreases p - i
  {
    if i < p {
      SameRun(s, i + 1, p);
    }
  }

  /** The scan from `i` reports the leftmost match at or after `i`, or none. */
  lemma {:induction false} ScanMinutesFindsFirst(s: string, i: nat)
    requires i <= |s|
    ensures ScanMinutes(s, i).None? ==> forall p :: i <= p < |s| ==> !MatchesAt(s, p)
    ensures ScanMinutes(s, i).Some? ==>
      var (a, b) := ScanMinutes(s, i).value;
      i <= a && b <= |s| && MatchAt(s, a, b, SpaceRunEnd(s, b)) && forall p :: i <= p < a ==> !MatchesAt(s, p)
    decreases |s| - i
  {
    if i == |s| {
    } else if !IsDigit(s[i]) {
      MatchesAtIff(s, i);
      ScanMinutesFindsFirst(s, i + 1);
    } else {
      var j := DigitRunEnd(s, i);
      if !OccursAt(s, "minute", SpaceRunEnd(s, j)) {
        forall p | i <= p < j ensures !MatchesAt(s, p) {
          SameRun(s, i, p);
          MatchesAtIff(s, p);
        }
        ScanMinutesFindsFirst(s, j);
      }
    }
  }

  /**
   * `FindMinutes` agrees with the regular expression: it yields `v` exactly when
   * the first match's group 1 reads `v`, and nothing exactly when no match exists.
   */
  lemma FindMinutesIsFirstMatch(s: string, v: nat)
    ensures FindMinutes(s) == Some(v) <==>
      exists i, j, k :: FirstMatch(s, i, j, k) && v == DecimalValue(s[i..j])
    ensures FindMinutes(s) == None <==> forall i :: 0 <= i < |s| ==> !MatchesAt(s, i)
  {
    ScanMinutesFindsFirst(s, 0);
    match ScanMinutes(s, 0)
    case None =>
      forall i, j, k | MatchAt(s, i, j, k) ensures MatchesAt(s, i) { }
    case Some((a, b)) =>
      var k := SpaceRunEnd(s, b);
      assert FirstMatch(s, a, b, k);
      assert MatchesAt(s, a) by { assert MatchAt(s, a, b, k); }
      forall i, j, k' | FirstMatch(s, i, j, k') ensures i == a && j == b {
        assert MatchesAt(s, i) by { assert MatchAt(s, i, j, k'); }
        MatchAtCanonical(s, i, j, k');
      }
  }

  // ---------------------------------------------------------------------------
  // Decimal numerals

  function DigitChar(d: nat): (c: char)
    requires d < 10
    ensures IsDigit(c) && DigitValue(c) == d
  {
    ('0' as int + d) as char
  }

  /** The decimal numeral of `n`, without leading zeros. */
  function DecimalString(n: nat): (ds: string)
    ensures |ds| > 0 && DigitsBetween(ds, 0, |ds|)
  {
    if n < 10 then [DigitChar(n)] else DecimalString(n / 10) + [DigitChar(n % 10)]
  }

  /** Reading back the numeral of `n` gives `n`. */
  lemma {:induction false} DecimalRoundTrip(n: nat)
    ensures DecimalValue(DecimalString(n)) == n
  {
    if n >= 10 {
      var ds := DecimalString(n);
      assert ds[..|ds| - 1] == DecimalString(n / 10);
      DecimalRoundTrip(n / 10);
    }
  }

  /**
   * An announcement "<n><whitespace>minute..." whose text before the number holds
   * no digit yields `n`.
   */
  lemma AnnouncedMinutes(p: string, n: nat, w: string, q: string)
    requires forall i :: 0 <= i < |p| ==> !IsDigit(p[i])
    requires SpaceBetween(w, 0, |w|)
    ensures FindMinutes(p + DecimalString(n) + w + "minute" + q) == Some(n)
  {
    var ds := DecimalString(n);
    var s := p + ds + w + "minute" + q;
    var i, j, k := |p|, |p| + |ds|, |p| + |ds| + |w|;
    assert s[i..j] == ds;
    assert s[k..k + 6] == "minute";
    assert MatchAt(s, i, j, k) by {
      forall x | j <= x < k ensures IsSpace(s[x]) { assert s[x] == w[x - j]; }
      forall x | i <= x < j ensures IsDigit(s[x]) { assert s[x] == ds[x - i]; }
    }
    forall i' | 0 <= i' < i ensures !MatchesAt(s, i') {
      assert s[i'] == p[i'];
    }
    assert FirstMatch(s, i, j, k);
    DecimalRoundTrip(n);
    FindMinutesIsFirstMatch(s, n);
  }

  // ---------------------------------------------------------------------------
  // Detection and scheduling

  /** The settings the handler reads: `WATCH_CHANNEL_ID` and `PING_BEFORE_MINUTES`. */
  datatype Config = Config(watchChannelId: string, pingBeforeMinutes: int)

  /** `PING_BEFORE_MINUTES` when the environment does not set it. */
  const DefaultPingBeforeMinutes := 5

  const Keyword := "world boss"

  const MillisPerMinute := 60 * 1000

  /** The row the handler asks the store to insert. */
  datatype NewAlert = NewAlert(sourceMessageId: string, channelId: string, runAt: int, createdAt: int)

  function Max(a: int, b: int): int {
    if a < b then b else a
  }

  /**
   * When the reminder is due: `lead` minutes before the announced spawn, but
   * never before `now`.
   */
  function RunAt(now: int, minutes: int, lead: int): (r: int)
    ensures r >= now
    ensures r == now <==> minutes <= lead
    ensures (r - now) % MillisPerMinute == 0
    ensures minutes > lead ==> r - now == (minutes - lead) * MillisPerMinute
  {
    now + Max(0, minutes - lead) * MillisPerMinute
  }

  /** The lowercased text the handler searches. */
  function NormalizedText(m: Message): string {
    ToLower(ExtractText(m))
  }

  /**
   * The decision chain of the handler: ignore other channels, require the
   * keyword, require a number of minutes, then schedule.
   */
  function Detect(m: Message, cfg: Config, now: int): (r: Option<NewAlert>)
    ensures m.channelId != cfg.watchChannelId ==> r.None?
    ensures !Contains(NormalizedText(m), Keyword) ==> r.None?
    ensures FindMinutes(NormalizedText(m)).None? ==> r.None?
    ensures r.Some? ==> (r.value.sourceMessageId == m.id && r.value.channelId == cfg.watchChannelId
                         && r.value.createdAt == now && r.value.runAt >= now)
  {
    if m.channelId != cfg.watchChannelId then None
    else
      var text := NormalizedText(m);
      if !Contains(text, Keyword) then None
      else
        match FindMinutes(text)
        case None => None
        case Some(minutes) => Some(NewAlert(m.id, m.channelId, RunAt(now, minutes, cfg.pingBeforeMinutes), now))
  }

  /**
   * What `Detect` yields, stated with the reference definitions: an alert exactly
   * when the message is in the watched channel, its lowercased text contains the
   * keyword, and the pattern matches; the alert is due `lead` minutes before the
   * number in the first match.
   */
  lemma DetectSpec(m: Message, cfg: Config, now: int, a: NewAlert)
    ensures Detect(m, cfg, now) == Some(a) <==>
      && m.channelId == cfg.watchChannelId
      && (exists p: nat :: OccursAt(NormalizedText(m), Keyword, p))
      && exists i, j, k :: FirstMatch(NormalizedText(m), i, j, k)
           && a == NewAlert(m.id, m.channelId,
                    RunAt(now, DecimalValue(NormalizedText(m)[i..j]), cfg.pingBeforeMinutes), now)
  {
    var text := NormalizedText(m);
    match FindMinutes(text)
    case None =>
      FindMinutesIsFirstMatch(text, 0);
      forall i, j, k | FirstMatch(text, i, j, k) ensures false {
        assert MatchesAt(text, i) by { assert MatchAt(text, i, j, k); }
      }
    case Some(v) =>
      FindMinutesIsFirstMatch(text, v);
      forall i, j, k | FirstMatch(text, i, j, k) ensures DecimalValue(text[i..j]) == v {
        FindMinutesIsFirstMatch(text, DecimalValue(text[i..j]));
      }
  }
}
