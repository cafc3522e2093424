/** The text format of one status-history entry: written by
    `Task.createStatusHistoryEntry` as `NAME|instant`, read back by
    `TaskService.parseStatusHistoryEntry`, which never fails and falls back to
    the current time (or the whole entry as the status) on malformed text. */
module History {
  import opened Common
  import opened Text
  import opened Instants
  import opened Domain

  /** One decoded history entry (`StatusChangeDTO`). */
  datatype StatusChange = StatusChange(status: string, changedAt: Instant)

  /** How many times `c` occurs in `s`. */
  function Occurrences(s: string, c: char): nat {
    if s == [] then 0 else (if s[0] == c then 1 else 0) + Occurrences(s[1..], c)
  }

  lemma {:induction false} OccurrencesAppend(a: string, b: string, c: char)
    ensures Occurrences(a + b, c) == Occurrences(a, c) + Occurrences(b, c)
  {
    if a != [] {
      assert (a + b)[1..] == a[1..] + b;
      OccurrencesAppend(a[1..], b, c);
    } else {
      assert a + b == b;
    }
  }

  lemma {:induction false} OccurrencesAbsent(s: string, c: char)
    requires c !in s
    ensures Occurrences(s, c) == 0
  {
    if s != [] {
      OccurrencesAbsent(s[1..], c);
    }
  }

  /** `createStatusHistoryEntry(status, timestamp)`: the status name and the
      instant's text joined by a single '|'. */
  function Entry(s: Status, t: Instant): (e: string)
    ensures Occurrences(e, '|') == 1
    ensures IsPrefix(StatusName(s), e)
  {
    var e := StatusName(s) + "|" + InstantText(t);
    OccurrencesAppend(StatusName(s) + "|", InstantText(t), '|');
    OccurrencesAppend(StatusName(s), "|", '|');
    OccurrencesAbsent(StatusName(s), '|');
    OccurrencesAbsent(InstantText(t), '|');
    assert e[..|StatusName(s)|] == StatusName(s);
    e
  }

  /** All the '|'-separated fields of `s`, empty ones included. */
  function Fields(s: string): (r: seq<string>)
    ensures |r| >= 1
  {
    if s == [] then [[]]
    else
      var rest := Fields(s[1..]);
      if s[0] == '|' then [[]] + rest else [[s[0]] + rest[0]] + rest[1..]
  }

  /** Java's `split` with limit 0 drops the empty fields at the end. */
  function DropTrailingEmpty(parts: seq<string>): (r: seq<string>)
    ensures |r| <= |parts| && r == parts[..|r|]
    ensures r == [] || r[|r| - 1] != []
    ensures forall i :: |r| <= i < |parts| ==> parts[i] == []
  {
    if parts != [] && parts[|parts| - 1] == [] then DropTrailingEmpty(parts[..|parts| - 1])
    else parts
  }

  /** `s.split("\\|")`: when there is no '|' at all Java returns `s` itself as
      the only field; otherwise the fields, less the empty ones at the end. */
  function JavaSplit(s: string): (r: seq<string>)
    ensures '|' !in s ==> r == [s]
    ensures '|' in s ==> |r| <= |Fields(s)| && r == Fields(s)[..|r|] && (r == [] || r[|r| - 1] != [])
    ensures '|' in s ==> forall i :: |r| <= i < |Fields(s)| ==> Fields(s)[i] == []
  {
    if '|' !in s then [s] else DropTrailingEmpty(Fields(s))
  }

  /** `parseStatusHistoryEntry(entry)`, with `now` for `Instant.now()`. */
  function ParseEntry(entry: string, now: Instant): (r: StatusChange)
    ensures entry == [] ==> r.status == "UNKNOWN"
    ensures entry != [] ==> IsPrefix(r.status, entry)
    ensures r.changedAt != now ==> |JavaSplit(entry)| == 2 && ParseInstant(JavaSplit(entry)[1]) == Some(r.changedAt)
  {
    if entry == [] then StatusChange("UNKNOWN", now)
    else
      var parts := JavaSplit(entry);
      if |parts| == 2 then
        FieldsPrefix(entry);
        assert DropTrailingEmpty(Fields(entry))[0] == Fields(entry)[0];
        match ParseInstant(parts[1])
        case Some(t) => StatusChange(parts[0], t)
        case None => StatusChange(parts[0], now)
      else
        StatusChange(entry, now)
  }

  /** The first field is a prefix of the text. */
  lemma {:induction false} FieldsPrefix(s: string)
    ensures IsPrefix(Fields(s)[0], s)
  {
    if s != [] {
      FieldsPrefix(s[1..]);
    }
  }

  /** Text without '|' is a single field. */
  lemma {:induction false} FieldsOfPlain(a: string)
    requires '|' !in a
    ensures Fields(a) == [a]
  {
    if a != [] {
      FieldsOfPlain(a[1..]);
      assert a == [a[0]] + a[1..];
    }
  }

  /** Text without '|' in front of a '|' becomes the first field. */
  lemma {:induction false} FieldsOfJoin(a: string, b: string)
    requires '|' !in a
    ensures Fields(a + "|" + b) == [a] + Fields(b)
  {
    if a == [] {
      assert a + "|" + b == "|" + b;
      assert ("|" + b)[1..] == b;
    } else {
      assert (a + "|" + b)[1..] == a[1..] + "|" + b;
      assert (a + "|" + b)[0] == a[0];
      assert a == [a[0]] + a[1..];
      FieldsOfJoin(a[1..], b);
    }
  }

  /** Decoding an encoded entry gives back the status name and the instant:
      the round trip the history format is built for. */
  lemma EntryRoundTrip(s: Status, t: Instant, now: Instant)
    ensures ParseEntry(Entry(s, t), now) == StatusChange(StatusName(s), t)
  {
    var e := Entry(s, t);
    FieldsOfJoin(StatusName(s), InstantText(t));
    FieldsOfPlain(InstantText(t));
    assert e[|StatusName(s)|] == '|';
    assert JavaSplit(e) == [StatusName(s), InstantText(t)];
    InstantTextRoundTrip(t);
  }

  /** The status part of a decoded entry does not depend on the clock. */
  function EntryStatus(entry: string): string {
    ParseEntry(entry, 0).status
  }

  lemma EntryStatusOfEntry(s: Status, t: Instant)
    ensures EntryStatus(Entry(s, t)) == StatusName(s)
  {
    EntryRoundTrip(s, t, 0);
  }

  /** An entry with no '|' keeps the whole text as its status ("GARBAGE"). */
  lemma PlainEntryIsStatus(entry: string, now: Instant)
    requires entry != [] && '|' !in entry
    ensures ParseEntry(entry, now) == StatusChange(entry, now)
  {
  }

  /** A trailing '|' with nothing after it ("OPEN|") is a one-field split, so the
      whole entry, bar included, becomes the status. */
  lemma TrailingBarEntryIsStatus(a: string, now: Instant)
    requires a != [] && '|' !in a
    ensures ParseEntry(a + "|", now) == StatusChange(a + "|", now)
  {
    FieldsOfJoin(a, "");
    assert a + "|" + "" == a + "|";
    assert (a + "|")[|a|] == '|';
    assert Fields(a + "|") == [a, []];
    assert [a, []][..1] == [a];
    assert DropTrailingEmpty([a]) == [a];
    assert DropTrailingEmpty([a, []]) == [a];
  }

  /** Two fields whose second does not read as an instant: the status survives,
      the time falls back to `now`. */
  lemma UnreadableTimeFallsBack(a: string, b: string, now: Instant)
    requires '|' !in a && '|' !in b && b != []
    requires ParseInstant(b) == None
    ensures ParseEntry(a + "|" + b, now) == StatusChange(a, now)
  {
    FieldsOfJoin(a, b);
    FieldsOfPlain(b);
    assert (a + "|" + b)[|a|] == '|';
    assert JavaSplit(a + "|" + b) == [a, b];
  }

  /** Two fields whose second reads as the instant `t`: the first field, whatever
      it is (even empty), and `t`; the clock is not read. */
  lemma TwoFieldsDecode(a: string, b: string, t: Instant, now: Instant)
    requires '|' !in a && '|' !in b && b != []
    requires ParseInstant(b) == Some(t)
    ensures ParseEntry(a + "|" + b, now) == StatusChange(a, t)
  {
    FieldsOfJoin(a, b);
    FieldsOfPlain(b);
    assert (a + "|" + b)[|a|] == '|';
    assert JavaSplit(a + "|" + b) == [a, b];
  }

  /** Three non-empty fields are a wrong field count: the whole entry becomes
      the status. */
  lemma ThreeFieldsIsStatus(a: string, b: string, c: string, now: Instant)
    requires '|' !in a && '|' !in b && '|' !in c && c != []
    ensures ParseEntry(a + "|" + b + "|" + c, now) == StatusChange(a + "|" + b + "|" + c, now)
  {
    FieldsOfJoin(b, c);
    FieldsOfPlain(c);
    assert a + "|" + b + "|" + c == a + "|" + (b + "|" + c);
    FieldsOfJoin(a, b + "|" + c);
    assert (a + "|" + b + "|" + c)[|a|] == '|';
    assert JavaSplit(a + "|" + b + "|" + c) == [a, b, c];
  }
}
