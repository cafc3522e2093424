/** Time as the source uses it. `java.time.Instant` becomes an integer count of
    nanoseconds since the epoch (Instant compares seconds, then nanoseconds:
    the same order). `java.time.LocalDate` and the client's midnight-aligned
    JavaScript dates become epoch-day numbers. `Instant.toString`/`Instant.parse`
    become a signed-decimal codec that, like ISO-8601 text, is never empty,
    never contains '|', and reads back what it wrote. */
module Instants {
  import opened Common
  import opened Text

  /** Nanoseconds since 1970-01-01T00:00:00Z. */
  type Instant = int

  /** Days since 1970-01-01 (a Thursday). */
  type Day = int

  /** `Instant.MIN`, -1000000000-01-01T00:00:00Z. */
  const MinInstant: Instant := -31557014167219200 * 1000000000

  /** `LocalDate.MAX`, +999999999-12-31, as an epoch day. */
  const MaxDay: Day := 365241780471

  /** The text form of an instant (stands in for `Instant.toString`). */
  function InstantText(t: Instant): (r: string)
    ensures r != [] && '|' !in r
  {
    var digits := NatText(if t < 0 then -t else t);
    assert forall i :: 0 <= i < |digits| ==> digits[i] != '|';
    if t < 0 then "-" + digits else digits
  }

  /** Reads an instant back from its text form (stands in for `Instant.parse`,
      which throws on text it cannot read: here `None`). */
  function ParseInstant(s: string): Option<Instant> {
    if s != [] && AllDigits(s) then Some(DigitsValue(s) as Instant)
    else if |s| >= 2 && s[0] == '-' && AllDigits(s[1..]) then Some(-(DigitsValue(s[1..]) as Instant))
    else None
  }

  /** Parsing the text of an instant gives the instant back. */
  lemma InstantTextRoundTrip(t: Instant)
    ensures ParseInstant(InstantText(t)) == Some(t)
  {
    if t < 0 {
      var s := InstantText(t);
      assert !IsDigit(s[0]);
      assert s[1..] == NatText(-t);
      DigitsValueNatText(-t);
    } else {
      DigitsValueNatText(t);
    }
  }
}
