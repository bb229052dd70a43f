/** The display rules of RecordsProcessed (the processing time of a record
  * and its text) and the totals the admin page shows over a list of
  * records. */
module RecordsAdmin {
  import opened Wrappers
  import opened Commands
  import opened Time
  import opened Text
  import opened WebModels

  // -----------------------------------------------------------------------
  // RecordsProcessed
  // -----------------------------------------------------------------------

  /** GetProcessTime: the span from upload to completion, or zero unless
    * the record succeeded and the span is positive. */
  function GetProcessTime(r: RecordsProcessed): (span: int)
    ensures span >= 0
    ensures span > 0 <==> r.status == Success && r.completedTime > r.uploadTime
    ensures span > 0 ==> span == r.completedTime - r.uploadTime
  {
    var span := r.completedTime - r.uploadTime;
    if span <= 0 || r.status != Success then 0 else span
  }

  /** The three fields of "{0} hrs {1} mins {2} secs": (int)TotalHours,
    * Minutes and Seconds, each truncated toward zero as TimeSpan does. */
  function Hours(ticks: int): int { TruncDiv(ticks, TicksPerHour) }
  function Minutes(ticks: int): int { TruncMod(TruncDiv(ticks, TicksPerMinute), 60) }
  function Seconds(ticks: int): int { TruncMod(TruncDiv(ticks, TicksPerSecond), 60) }

  /** TimeSpanToString. `record` is None for a null record. */
  function TimeSpanToString(ticks: int, record: Option<RecordsProcessed>, showProcessing: bool): (text: string)
    ensures text == "Failed" <==> record.Some? && record.value.status == Failure
    ensures text == "Processing" <==>
              !(record.Some? && record.value.status == Failure) && showProcessing && ticks <= 0
  {
    if record.Some? && record.value.status == Failure then "Failed"
    else if showProcessing && ticks <= 0 then "Processing"
    else IntToString(Hours(ticks)) + " hrs " + IntToString(Minutes(ticks)) + " mins "
         + IntToString(Seconds(ticks)) + " secs"
  }

  /** The fields of the text add up to the span's whole seconds, minutes and
    * seconds lie within a minute, and all three carry the span's sign. */
  lemma {:induction false} DurationFields(ticks: int)
    ensures Hours(ticks) * 3600 + Minutes(ticks) * 60 + Seconds(ticks) == TruncDiv(ticks, TicksPerSecond)
    ensures -60 < Minutes(ticks) < 60 && -60 < Seconds(ticks) < 60
    ensures ticks >= 0 ==> Hours(ticks) >= 0 && Minutes(ticks) >= 0 && Seconds(ticks) >= 0
    ensures ticks <= 0 ==> Hours(ticks) <= 0 && Minutes(ticks) <= 0 && Seconds(ticks) <= 0
  {
    var a := if ticks >= 0 then ticks else -ticks;
    var sec := a / TicksPerSecond;
    var min := a / TicksPerMinute;
    var hr := a / TicksPerHour;
    assert min == sec / 60 by { SecondsToMinutes(a); }
    assert hr == min / 60 by { MinutesToHours(a); }
    assert hr * 3600 + (min % 60) * 60 + sec % 60 == sec;
    if ticks < 0 {
      assert TruncDiv(ticks, TicksPerSecond) == -sec;
      assert TruncDiv(ticks, TicksPerMinute) == -min;
      assert Hours(ticks) == -hr;
      assert TruncMod(-min, 60) == -(min % 60);
      assert TruncMod(-sec, 60) == -(sec % 60);
    }
  }

  /** Whole minutes are whole seconds over sixty, whole hours whole minutes
    * over sixty. */
  lemma SecondsToMinutes(a: nat)
    ensures a / TicksPerMinute == (a / TicksPerSecond) / 60
  {
    var sec := a / 10_000_000;
    assert a == sec * 10_000_000 + a % 10_000_000;
    assert sec == (sec / 60) * 60 + sec % 60;
    assert a == (sec / 60) * 600_000_000 + ((sec % 60) * 10_000_000 + a % 10_000_000);
  }

  lemma MinutesToHours(a: nat)
    ensures a / TicksPerHour == (a / TicksPerMinute) / 60
  {
    var min := a / 600_000_000;
    assert a == min * 600_000_000 + a % 600_000_000;
    assert min == (min / 60) * 60 + min % 60;
    assert a == (min / 60) * 36_000_000_000 + ((min % 60) * 600_000_000 + a % 600_000_000);
  }

  /** A failed record reads "Failed" whatever its span or the flag. */
  lemma FailedFirst(ticks: int, r: RecordsProcessed, showProcessing: bool)
    requires r.status == Failure
    ensures TimeSpanToString(ticks, Some(r), showProcessing) == "Failed"
  {
  }

  /** Otherwise a non-positive span reads "Processing" exactly when the flag
    * asks for it; the processing time of any record that is not a success
    * is such a span. */
  lemma ProcessingWhenUnfinished(r: RecordsProcessed, showProcessing: bool)
    requires r.status != Failure && r.status != Success
    ensures TimeSpanToString(GetProcessTime(r), Some(r), showProcessing) == "Processing" <==> showProcessing
  {
    if !showProcessing {
      var t := TimeSpanToString(GetProcessTime(r), Some(r), showProcessing);
      assert t[|t| - 5..] == " secs";
    }
  }

  // -----------------------------------------------------------------------
  // AdminViewModel
  // -----------------------------------------------------------------------

  /** The sum of Records over the rows in `status`. */
  function SumWhere(rows: seq<RecordsProcessed>, status: CommandStatus): (n: int)
    ensures (forall i :: 0 <= i < |rows| ==> rows[i].status != status) ==> n == 0
    ensures (forall i :: 0 <= i < |rows| ==> rows[i].records >= 0) ==> n >= 0
  {
    if rows == [] then 0
    else SumWhere(rows[..|rows| - 1], status)
         + (if rows[|rows| - 1].status == status then rows[|rows| - 1].records else 0)
  }

  /** The sum of Records over all rows. */
  function SumAll(rows: seq<RecordsProcessed>): int
  {
    if rows == [] then 0 else SumAll(rows[..|rows| - 1]) + rows[|rows| - 1].records
  }

  /** The sum over the rows in none of the three statuses. */
  function SumOthers(rows: seq<RecordsProcessed>): int
  {
    if rows == [] then 0
    else SumOthers(rows[..|rows| - 1])
         + (var s := rows[|rows| - 1].status;
            if s == Success || s == Processing || s == Failure then 0 else rows[|rows| - 1].records)
  }

  /** The totals of the admin page; a status nobody has adds nothing. */
  function ProcessedRecords(rows: seq<RecordsProcessed>): (n: int)
    ensures (forall i :: 0 <= i < |rows| ==> rows[i].status != Success) ==> n == 0
    ensures (forall i :: 0 <= i < |rows| ==> rows[i].records >= 0) ==> n >= 0
  {
    SumWhere(rows, Success)
  }

  function ProcessingRecords(rows: seq<RecordsProcessed>): (n: int)
    ensures (forall i :: 0 <= i < |rows| ==> rows[i].status != Processing) ==> n == 0
    ensures (forall i :: 0 <= i < |rows| ==> rows[i].records >= 0) ==> n >= 0
  {
    SumWhere(rows, Processing)
  }

  function FailedRecords(rows: seq<RecordsProcessed>): (n: int)
    ensures (forall i :: 0 <= i < |rows| ==> rows[i].status != Failure) ==> n == 0
    ensures (forall i :: 0 <= i < |rows| ==> rows[i].records >= 0) ==> n >= 0
  {
    SumWhere(rows, Failure)
  }

  /** The three filters are disjoint: with the rows in other statuses they
    * account for every record exactly once. */
  lemma {:induction false} TotalsPartition(rows: seq<RecordsProcessed>)
    ensures ProcessedRecords(rows) + ProcessingRecords(rows) + FailedRecords(rows) + SumOthers(rows)
            == SumAll(rows)
  {
    if rows != [] {
      TotalsPartition(rows[..|rows| - 1]);
    }
  }

  /** Hence, counts being never negative, the three totals together are at
    * most the total over all rows. */
  lemma {:induction false} TotalsBounded(rows: seq<RecordsProcessed>)
    requires forall i :: 0 <= i < |rows| ==> rows[i].records >= 0
    ensures ProcessedRecords(rows) + ProcessingRecords(rows) + FailedRecords(rows) <= SumAll(rows)
  {
    TotalsPartition(rows);
    OthersNonNegative(rows);
  }

  lemma {:induction false} OthersNonNegative(rows: seq<RecordsProcessed>)
    requires forall i :: 0 <= i < |rows| ==> rows[i].records >= 0
    ensures SumOthers(rows) >= 0
  {
    if rows != [] {
      OthersNonNegative(rows[..|rows| - 1]);
    }
  }

  /** Adding a row changes only the total of its own status. */
  lemma AppendRow(rows: seq<RecordsProcessed>, r: RecordsProcessed, status: CommandStatus)
    ensures SumWhere(rows + [r], status) == SumWhere(rows, status) + (if r.status == status then r.records else 0)
  {
    assert (rows + [r])[..|rows|] == rows;
  }

  /** Every enum member, in declaration order. */
  const AllTypes: seq<RequestType> :=
    [GeoCode, DriveTime, DeprivationIndex, CensusBlockGroup, SingleAddress, Composite, RequestType.Unknown]

  lemma AllTypesComplete(t: RequestType)
    ensures t in AllTypes
  {
  }

  /** The names of the types in `types` other than Composite and Unknown. */
  function OptionNames(types: seq<RequestType>): (names: seq<string>)
    ensures forall t :: t in types && t != Composite && t != RequestType.Unknown ==> TypeName(t) in names
    ensures forall n :: n in names ==>
              exists t :: t in types && t != Composite && t != RequestType.Unknown && TypeName(t) == n
  {
    if types == [] then []
    else
      var rest := OptionNames(types[1..]);
      if types[0] == Composite || types[0] == RequestType.Unknown then rest
      else [TypeName(types[0])] + rest
  }

  /** RequestTypeOptions: the enum's names without Composite and Unknown. */
  function RequestTypeOptions(): (names: seq<string>)
    ensures forall n :: n in names ==> n != TypeName(Composite) && n != TypeName(RequestType.Unknown)
  {
    OptionNames(AllTypes)
  }

  /** A type is offered exactly when it is neither Composite nor Unknown. */
  lemma OfferedTypes(t: RequestType)
    ensures TypeName(t) in RequestTypeOptions() <==> t != Composite && t != RequestType.Unknown
  {
    AllTypesComplete(t);
    if TypeName(t) in RequestTypeOptions() {
      var u :| u in AllTypes && u != Composite && u != RequestType.Unknown && TypeName(u) == TypeName(t);
      TypeNameInjective(u, t);
    }
  }

  lemma TypeNameInjective(a: RequestType, b: RequestType)
    requires TypeName(a) == TypeName(b)
    ensures a == b
  {
  }
}
