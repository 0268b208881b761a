/**
 * The `messageCreate` handler: a message that `Detect` accepts is stored with
 * `INSERT ... ON CONFLICT (source_message_id) DO NOTHING`; any other message
 * leaves the table as it was.
 */
module Handler {
  import opened Wrappers
  import opened Text
  import opened Detector
  import opened Alerts
  import opened Worker

  method HandleMessage(table: AlertTable, m: Message, cfg: Config, now: int) returns (inserted: bool)
    requires table.Valid()
    modifies table
    ensures table.Valid()
    ensures Detect(m, cfg, now).None? ==>
      !inserted && table.rows == old(table.rows) && table.nextId == old(table.nextId)
    ensures Detect(m, cfg, now).Some? ==>
      var a := Detect(m, cfg, now).value;
      && inserted == (m.id !in old(table.rows))
      && table.rows == (if inserted
                        then old(table.rows)[m.id := Alert(old(table.nextId), m.channelId, a.runAt, now, None)]
                        else old(table.rows))
      && table.nextId == old(table.nextId) + 1
  {
    match Detect(m, cfg, now)
    case None =>
      inserted := false;
    case Some(a) =>
      inserted := table.InsertIfAbsent(a.sourceMessageId, a.channelId, a.runAt, a.createdAt);
  }

  /** Lowercasing distributes over concatenation. */
  lemma ToLowerAppend(a: string, b: string)
    ensures ToLower(a + b) == ToLower(a) + ToLower(b)
  {
    assert forall i :: 0 <= i < |a| + |b| ==> (a + b)[i] == if i < |a| then a[i] else b[i - |a|];
  }

  /** A word whose only capital is its first letter lowercases to that letter lowered. */
  lemma ToLowerCapitalized(c: char, rest: string)
    requires forall i :: 0 <= i < |rest| ==> !IsUpper(rest[i])
    ensures ToLower([c] + rest) == [LowerChar(c)] + rest
  {
    assert forall i :: 0 < i < |rest| + 1 ==> ([c] + rest)[i] == rest[i - 1];
  }

  // Facts about the example's string literals, one per lemma to keep each proof small.
  lemma SplitUpper() ensures "World Boss spawning in 10 minutes" == "World " + "Boss spawning in 10 minutes" {}
  lemma SplitLower() ensures "world boss spawning in 10 minutes" == "world " + "boss spawning in 10 minutes" {}
  lemma FirstWord() ensures "World " == ['W'] + "orld " && "world " == ['w'] + "orld " {}
  lemma RestWords()
    ensures "Boss spawning in 10 minutes" == ['B'] + "oss spawning in 10 minutes"
    ensures "boss spawning in 10 minutes" == ['b'] + "oss spawning in 10 minutes"
  {}
  lemma SplitNumber()
    ensures "world boss spawning in 10 minutes" == "world boss spawning in " + "10" + " " + "minute" + "s"
  {
    assert "world boss spawning in 10 minutes" == "world boss spawning in " + "10 minutes";
    assert "10 minutes" == "10" + " minutes";
    assert " minutes" == " " + "minutes";
    assert "minutes" == "minute" + "s";
  }

  lemma AnnouncementText()
    ensures ToLower("World Boss spawning in 10 minutes") == "world boss spawning in 10 minutes"
  {
    SplitUpper();
    SplitLower();
    FirstWord();
    RestWords();
    ToLowerCapitalized('W', "orld ");
    ToLowerCapitalized('B', "oss spawning in 10 minutes");
    ToLowerAppend("World ", "Boss spawning in 10 minutes");
  }

  lemma AnnouncementMinutes()
    ensures FindMinutes("world boss spawning in 10 minutes") == Some(10)
  {
    var p := "world boss spawning in ";
    assert forall i :: 0 <= i < |p| ==> !IsDigit(p[i]);
    assert DecimalString(10) == "10";
    assert SpaceBetween(" ", 0, 1);
    AnnouncedMinutes(p, 10, " ", "s");
    SplitNumber();
    assert "world boss spawning in 10 minutes" == p + DecimalString(10) + " " + "minute" + "s";
  }

  /** The example message's text is its content, already trimmed. */
  lemma AnnouncementExtracted(id: string, watch: string)
    ensures NormalizedText(Message(id, watch, Some("World Boss spawning in 10 minutes"), []))
         == "world boss spawning in 10 minutes"
  {
    ExtractTextWithoutEmbeds(Message(id, watch, Some("World Boss spawning in 10 minutes"), []));
    AnnouncementTrimmed();
    AnnouncementText();
  }

  lemma AnnouncementTrimmed()
    ensures Trim("World Boss spawning in 10 minutes") == "World Boss spawning in 10 minutes"
  {
    var content := "World Boss spawning in 10 minutes";
    assert TrimBounds(content, 0, |content|);
    assert content[0..|content|] == content;
    TrimUnique(Trim(content), content, content);
  }

  lemma AnnouncementKeyword()
    ensures Contains("world boss spawning in 10 minutes", Keyword)
  {
    assert OccursAt("world boss spawning in 10 minutes", Keyword, 0);
  }

  /**
   * The announcement "World Boss spawning in 10 minutes" in the watched channel,
   * with the default lead of 5 minutes, schedules a reminder 5 minutes after it.
   */
  lemma WorldBossAnnouncement(id: string, watch: string, now: int)
    ensures Detect(Message(id, watch, Some("World Boss spawning in 10 minutes"), []),
                   Config(watch, DefaultPingBeforeMinutes), now)
         == Some(NewAlert(id, watch, now + 5 * MillisPerMinute, now))
  {
    AnnouncementExtracted(id, watch);
    AnnouncementKeyword();
    AnnouncementMinutes();
  }

  /**
   * The same alert across two ticks: a tick before its due time sends nothing
   * and changes nothing; a tick at its due time sends it and, when the update
   * succeeds, stamps it.
   */
  lemma ReminderFiresAtDueTime(id: string, watch: string, now: int, attempt: DueRow -> Attempt, t: int)
    requires attempt(DueRow(1, watch)) == Sent(t)
    ensures var rows := map[id := Alert(1, watch, now + 5 * MillisPerMinute, now, None)];
      && Notified(rows, now, attempt) == {}
      && AfterTick(rows, now, attempt) == rows
      && Notified(rows, now + 5 * MillisPerMinute, attempt) == {DueRow(1, watch)}
      && AfterTick(rows, now + 5 * MillisPerMinute, attempt)[id].firedAt == Some(t)
  {
    var rows := map[id := Alert(1, watch, now + 5 * MillisPerMinute, now, None)];
    var due := now + 5 * MillisPerMinute;
    assert Selected(rows[id]) in DueRows(rows, due);
    assert forall r :: r in DueRows(rows, due) ==> r == DueRow(1, watch);
    assert DueRow(1, watch) in Notified(rows, due, attempt);
  }
}
