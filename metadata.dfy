/** MetadataService: the RecordsProcessed table that counts the rows of each
  * submitted file and follows the job to Success or Failure, and the
  * lookup of a user's finished requests by type. */
module Metadata {
  import opened Wrappers
  import opened Commands
  import opened Time
  import opened Text
  import opened WebModels
  import opened Repository

  /** A FileResponse is acceptable when there is none or its status code is
    * 2xx; `code` is None for a null response. */
  predicate ResponseOk(code: Option<int>)
  {
    code.None? || 200 <= code.value <= 299
  }

  /** MetadataServiceCriteria. `file` is the uploaded file's text (None for
    * a null File); a default EndDate is DateTime.MinValue. */
  datatype Criteria = Criteria(
    guid: string,
    userId: string,
    file: Option<string>,
    requestType: Option<RequestType>,
    records: int,
    startDate: int,
    endDate: int,
    format: MetadataSource,
    fileResponse: Option<int>)

  /** GetRecordCount: the row count given by the caller when it is positive,
    * otherwise the file's lines minus the header, never below zero. */
  function RecordCount(records: int, file: Option<string>): (n: int)
    ensures n >= 0
    ensures records > 0 ==> n == records
    ensures records <= 0 && file.None? ==> n == 0
    ensures records <= 0 && file.Some? && |Lines(file.value)| >= 1 ==> n == |Lines(file.value)| - 1
    ensures records <= 0 && file.Some? && |Lines(file.value)| == 0 ==> n == 0
  {
    if records > 0 then records
    else
      var lines := if file.Some? then |Lines(file.value)| else 0;
      if lines > 0 then lines - 1 else 0
  }

  /** A CSV of a header and `rows` written line by line counts as `rows`
    * records. */
  lemma CsvRecordCount(header: string, rows: seq<string>)
    requires forall c :: c in header ==> !IsLineBreak(c)
    requires forall i :: 0 <= i < |rows| ==> forall c :: c in rows[i] ==> !IsLineBreak(c)
    ensures RecordCount(0, Some(Terminated([header] + rows))) == |rows|
  {
    var all := [header] + rows;
    forall i | 0 <= i < |all|
      ensures forall c :: c in all[i] ==> !IsLineBreak(c)
    {
      if i > 0 {
        assert all[i] == rows[i - 1];
      }
    }
    LinesOfTerminated(all);
    assert |Lines(Terminated(all))| == |rows| + 1;
  }

  /** The row AddRecordsProcessed inserts. */
  function NewRecord(criteria: Criteria, key: string, count: int): (r: RecordsProcessed)
    ensures r.requestGuid == key && r.records == count
    ensures r.status == (if criteria.endDate != MinValue then Success else Processing)
  {
    RecordsProcessed(key, criteria.requestType, criteria.format, criteria.userId,
                     criteria.startDate, criteria.endDate, count,
                     if criteria.endDate != MinValue then Success else Processing)
  }

  /** The key of the new row: the criteria's GUID, or a fresh one when it is
    * empty. */
  function RecordKey(criteria: Criteria, freshGuid: string): string
  {
    if criteria.guid == "" then freshGuid else criteria.guid
  }

  /** The records after AddRecordsProcessed, or the error SaveChanges
    * throws when the key is taken. */
  function AfterAdd(records: Records, criteria: Criteria, freshGuid: string): (r: Result<Records, StoreError>)
    ensures !ResponseOk(criteria.fileResponse) ==> r == Ok(records)
    ensures r.Err? <==> ResponseOk(criteria.fileResponse) && RecordKey(criteria, freshGuid) in records
    ensures r.Ok? && ResponseOk(criteria.fileResponse) ==>
              r.value.Keys == records.Keys + {RecordKey(criteria, freshGuid)}
              && (forall g :: g in records ==> r.value[g] == records[g])
              && r.value[RecordKey(criteria, freshGuid)].records
                 == RecordCount(criteria.records, criteria.file)
  {
    if !ResponseOk(criteria.fileResponse) then Ok(records)
    else
      var key := RecordKey(criteria, freshGuid);
      if key in records then Err(DuplicateKey(key))
      else Ok(records[key := NewRecord(criteria, key, RecordCount(criteria.records, criteria.file))])
  }

  /** The records after CompleteRecordsProcessed. */
  function AfterComplete(records: Records, guid: string, endDate: int, code: Option<int>): (r: Records)
    ensures r.Keys == records.Keys
    ensures forall g :: g in records && g != guid ==> r[g] == records[g]
    ensures guid in records ==>
              (r[guid] != records[guid] ==> records[guid].completedTime == MinValue && ResponseOk(code))
              && (records[guid].completedTime == MinValue && ResponseOk(code) ==>
                    r[guid] == records[guid].(completedTime := endDate, status := Success))
  {
    if guid in records && records[guid].completedTime == MinValue && ResponseOk(code)
    then records[guid := records[guid].(completedTime := endDate, status := Success)]
    else records
  }

  /** The records after FailRecordsProcessed. */
  function AfterFail(records: Records, guid: string, endDate: int): (r: Records)
    ensures r.Keys == records.Keys
    ensures forall g :: g in records && g != guid ==> r[g] == records[g]
    ensures guid in records ==> r[guid] == records[guid].(completedTime := endDate, status := Failure)
  {
    if guid in records then records[guid := records[guid].(completedTime := endDate, status := Failure)]
    else records
  }

  class MetadataService {
    const db: UserRequestsDbContext

    constructor(db: UserRequestsDbContext)
      ensures this.db == db
    {
      this.db := db;
    }

    /** GetRecordCount, reading the file line by line. */
    method GetRecordCount(criteria: Criteria) returns (n: int)
      ensures n == RecordCount(criteria.records, criteria.file)
    {
      if criteria.records > 0 {
        return criteria.records;
      }
      var numberOfRecords := 0;
      if criteria.file.Some? {
        numberOfRecords := CountLines(criteria.file.value);
      }
      n := if numberOfRecords > 0 then numberOfRecords - 1 else 0;
    }

    /** Insert a record for an accepted response; `freshGuid` is the value
      * Guid.NewGuid() would give. */
    method AddRecordsProcessed(criteria: Criteria, freshGuid: string) returns (r: Option<StoreError>)
      modifies db
      ensures AfterAdd(old(db.records), criteria, freshGuid)
              == (if r.None? then Ok(db.records) else Err(r.value))
      ensures r.Some? ==> db.records == old(db.records)
      ensures db.requests == old(db.requests)
    {
      if criteria.fileResponse.None? || (200 <= criteria.fileResponse.value <= 299) {
        var guid := if criteria.guid == "" then freshGuid else criteria.guid;
        var count := GetRecordCount(criteria);
        if guid in db.records {
          return Some(DuplicateKey(guid));
        }
        db.records := db.records[guid := NewRecord(criteria, guid, count)];
      }
      return None;
    }

    method CompleteRecordsProcessed(guid: string, endDate: int, code: Option<int>)
      modifies db
      ensures db.records == AfterComplete(old(db.records), guid, endDate, code)
      ensures db.requests == old(db.requests)
    {
      if guid in db.records && db.records[guid].completedTime == MinValue
         && (code.None? || (200 <= code.value <= 299)) {
        var record := db.records[guid];
        db.records := db.records[guid := record.(completedTime := endDate, status := Success)];
      }
    }

    method FailRecordsProcessed(guid: string, endDate: int)
      modifies db
      ensures db.records == AfterFail(old(db.records), guid, endDate)
      ensures db.requests == old(db.requests)
    {
      if guid in db.records {
        var record := db.records[guid];
        db.records := db.records[guid := record.(completedTime := endDate, status := Failure)];
      }
    }
  }

  // -----------------------------------------------------------------------
  // Properties of the record transitions
  // -----------------------------------------------------------------------

  /** A record added without an end date is Processing; once completed with
    * a real end date it is Success and a second completion is a no-op. */
  lemma {:induction false} CompleteOnce(records: Records, guid: string, e1: int, e2: int,
                                        c1: Option<int>, c2: Option<int>)
    requires guid in records && records[guid].completedTime == MinValue
    requires ResponseOk(c1) && e1 != MinValue
    ensures AfterComplete(records, guid, e1, c1)[guid].status == Success
    ensures AfterComplete(AfterComplete(records, guid, e1, c1), guid, e2, c2)
            == AfterComplete(records, guid, e1, c1)
  {
  }

  /** Failing wins over any earlier state, and a failed record with a real
    * end date is never completed afterwards. */
  lemma {:induction false} FailIsFinal(records: Records, guid: string, e1: int, e2: int, code: Option<int>)
    requires guid in records && e1 != MinValue
    ensures AfterFail(records, guid, e1)[guid].status == Failure
    ensures AfterComplete(AfterFail(records, guid, e1), guid, e2, code) == AfterFail(records, guid, e1)
  {
  }

  /** A new record whose key is fresh is always inserted, with the file's
    * data rows as its count and Processing until an end date is given. */
  lemma FreshRecordAdded(records: Records, criteria: Criteria, freshGuid: string)
    requires criteria.fileResponse.None? && criteria.endDate == MinValue
    requires RecordKey(criteria, freshGuid) !in records
    ensures AfterAdd(records, criteria, freshGuid).Ok?
    ensures var r := AfterAdd(records, criteria, freshGuid).value;
            r[RecordKey(criteria, freshGuid)].status == Processing
  {
  }

  // -----------------------------------------------------------------------
  // GetGeocodeUserRequests
  // -----------------------------------------------------------------------

  /** string.IsNullOrEmpty */
  predicate IsNullOrEmpty(s: Option<string>)
  {
    s.None? || s.value == ""
  }

  /** A request matches a type name by its type or its subtype. */
  predicate TypeMatches(r: UserRequest, requestType: string)
  {
    TypeName(r.requestType) == requestType
    || (r.requestSubType.Some? && TypeName(r.requestSubType.value) == requestType)
  }

  /** The user's successful requests of a type, or None (the caught
    * ArgumentNullException) for an empty email or type. */
  function GetGeocodeUserRequests(s: Requests, email: Option<string>, requestType: Option<string>)
    : (r: Option<Requests>)
    ensures r.None? <==> IsNullOrEmpty(email) || IsNullOrEmpty(requestType)
    ensures r.Some? ==>
              IsFilter(s, r.value, (x: UserRequest) => x.userId == Trim(email.value)
                                                      && x.status == Success
                                                      && TypeMatches(x, requestType.value))
  {
    if IsNullOrEmpty(email) || IsNullOrEmpty(requestType) then None
    else
      var user := Trim(email.value);
      Some(map g | g in s && s[g].userId == user && s[g].status == Success
                            && TypeMatches(s[g], requestType.value) :: s[g])
  }

  /** Surrounding white space in the email does not change the answer. */
  lemma EmailIsTrimmed(s: Requests, email: string, requestType: string)
    requires email != "" && Trim(email) != "" && requestType != ""
    ensures GetGeocodeUserRequests(s, Some(email), Some(requestType))
            == GetGeocodeUserRequests(s, Some(Trim(email)), Some(requestType))
  {
    TrimIdempotent(email);
  }

  lemma TrimIdempotent(s: string)
    ensures Trim(Trim(s)) == Trim(s)
  {
    var t := Trim(s);
    if t != [] {
      assert !IsWhiteSpace(t[0]) && !IsWhiteSpace(t[|t| - 1]);
      TrimOfClean(t);
    } else {
      assert Trim(t) == [];
    }
  }

  lemma TrimOfClean(t: string)
    requires t != [] && !IsWhiteSpace(t[0]) && !IsWhiteSpace(t[|t| - 1])
    ensures Trim(t) == t
  {
    assert TrimStart(t) == t;
    assert TrimEnd(t) == t;
  }
}
