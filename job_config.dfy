/** The KeepAliveDays guard both retention jobs run before doing anything:
  * the key must be present, its value a string that int.TryParse accepts,
  * and the number at least 0. */
module JobConfig {
  import opened Wrappers
  import opened Text

  /** A JobDataMap value; `as string` yields null for anything else. */
  datatype JobValue = TextValue(text: string) | OtherValue

  type JobDataMap = map<string, JobValue>

  const KeepAliveKey := "KeepAliveDays"

  /** The retention period in days, or None when a guard returns early. */
  function KeepAliveDays(data: JobDataMap): (r: Option<nat>)
    ensures KeepAliveKey !in data ==> r.None?
    ensures KeepAliveKey in data && data[KeepAliveKey].OtherValue? ==> r.None?
    ensures KeepAliveKey in data && data[KeepAliveKey].TextValue? ==>
              var parsed := TryParseInt32(Some(data[KeepAliveKey].text));
              r == (if parsed.Some? && parsed.value >= 0 then Some(parsed.value) else None)
  {
    if KeepAliveKey !in data then None
    else
      var text := if data[KeepAliveKey].TextValue? then Some(data[KeepAliveKey].text) else None;
      match TryParseInt32(text)
      case None => None
      case Some(days) => if days < 0 then None else Some(days)
  }

  /** A value the guards accept is the text of a number from 0 to
    * int.MaxValue, with optional white space around it, and the retention
    * period is that number. */
  lemma AcceptedDays(data: JobDataMap)
    requires KeepAliveDays(data).Some?
    ensures KeepAliveKey in data && data[KeepAliveKey].TextValue?
    ensures KeepAliveDays(data).value <= Int32Max
    ensures exists lead, sign, digits, trail, nuls ::
              Numeral(data[KeepAliveKey].text, lead, sign, digits, trail, nuls)
              && NumeralValue(sign, digits) == KeepAliveDays(data).value
  {
    ParsedIsNumeral(data[KeepAliveKey].text);
  }

  /** A text that is not a numeral, such as "", "1.5" or "12a", stops both
    * jobs before they delete anything. */
  lemma NonNumeralRefused(data: JobDataMap)
    requires KeepAliveKey in data && data[KeepAliveKey].TextValue?
    requires forall lead, sign, digits, trail, nuls :: !Numeral(data[KeepAliveKey].text, lead, sign, digits, trail, nuls)
    ensures KeepAliveDays(data) == None
  {
    if KeepAliveDays(data).Some? {
      AcceptedDays(data);
    }
  }

  /** Every day count the jobs can be configured with is accepted as its
    * own decimal text. */
  lemma DecimalDaysAccepted(data: JobDataMap, days: nat)
    requires days <= Int32Max
    requires KeepAliveKey in data && data[KeepAliveKey] == TextValue(IntToString(days))
    ensures KeepAliveDays(data) == Some(days)
  {
    ParseFormatted(days);
  }

  /** Two configurations of the job's tests: a missing key and "abc" are
    * refused. */
  lemma GuardExamples()
    ensures KeepAliveDays(map[]) == None
    ensures KeepAliveDays(map[KeepAliveKey := TextValue("abc")]) == None
  {
    var abc := "abc";
    assert SpanOf(abc, false) == 0;
    assert SpanOf(abc, true) == 0;
  }

  lemma NegativeDaysRefused()
    ensures KeepAliveDays(map[KeepAliveKey := TextValue("-1")]) == None
  {
    var minusOne := "-1";
    assert SpanOf(minusOne, false) == 0;
    assert SpanOf(minusOne[1..], true) == 1;
    assert minusOne[1..][..1] == "1";
    assert DigitsValue("1") == 1;
  }

  lemma ThirtyDaysAccepted()
    ensures KeepAliveDays(map[KeepAliveKey := TextValue("30")]) == Some(30)
  {
    DecimalDaysAccepted(map[KeepAliveKey := TextValue("30")], 30);
  }
}
