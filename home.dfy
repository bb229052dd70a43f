/** HomeController: the form that starts a job. One selected type starts a
  * single job; several start a composite job, stored as a chain of nodes
  * of which only the first is submitted, the others waiting as Requested
  * until the sweep hands each the output of the one before. */
module Home {
  import opened Wrappers
  import opened Commands
  import opened Time
  import opened WebModels
  import opened Repository
  import opened Metadata
  import opened ApiRequests

  // -----------------------------------------------------------------------
  // Messages
  // -----------------------------------------------------------------------

  // Each error message is written as a short head and the rest, so that
  // telling two messages apart only needs their heads.
  const GeneralError: string := "An unknown" + " error has occurred while processing your request."
  /** ServerValidationFailure, up to its placeholder, which ends it. */
  const ValidationFailurePrefix: string := "An error" + " has occurred validating the request. Message: "
  const StartSuccess: string := "The operation has successfully started."
  const NoTypeSelected: string := "Please select one or more request types."

  // -----------------------------------------------------------------------
  // Index (POST)
  // -----------------------------------------------------------------------

  /** Where a submitted form goes. */
  datatype Routing = ShowForm | Refused(message: string) | CompositeJob | SingleJob

  /** The routing of the posted Index: an invalid model is shown again, no
    * type or no access token gives a message, and the number of types
    * picks the single or the composite path. An empty `accessToken` is the
    * missing token GetAccessToken turns into "". */
  function IndexRoute(modelValid: bool, typeCount: nat, accessToken: string): (r: Routing)
    ensures r == ShowForm <==> !modelValid
    ensures r == Refused(NoTypeSelected) <==> modelValid && typeCount == 0
    ensures r == Refused(GeneralError) <==> modelValid && typeCount > 0 && accessToken == ""
    ensures r == CompositeJob <==> modelValid && typeCount > 1 && accessToken != ""
    ensures r == SingleJob <==> modelValid && typeCount == 1 && accessToken != ""
  {
    if !modelValid then ShowForm
    else if typeCount <= 0 then Refused(NoTypeSelected)
    else if accessToken != "" then (if typeCount > 1 then CompositeJob else SingleJob)
    else Refused(GeneralError)
  }

  // -----------------------------------------------------------------------
  // Problem details
  // -----------------------------------------------------------------------

  /** The values joined without separator. */
  function Concat(values: seq<string>): string
  {
    if values == [] then "" else Concat(values[..|values| - 1]) + values[|values| - 1]
  }

  /** The values of every error, joined in order. */
  function Flatten(errors: seq<(string, seq<string>)>): string
  {
    if errors == [] then "" else Flatten(errors[..|errors| - 1]) + Concat(errors[|errors| - 1].1)
  }

  /** The values of all errors as one list, in order. */
  function AllValues(errors: seq<(string, seq<string>)>): (vs: seq<string>)
    ensures forall i, k :: 0 <= i < |errors| && 0 <= k < |errors[i].1| ==> errors[i].1[k] in vs
  {
    if errors == [] then []
    else
      var vs := AllValues(errors[..|errors| - 1]) + errors[|errors| - 1].1;
      assert forall i :: 0 <= i < |errors| - 1 ==> errors[..|errors| - 1][i] == errors[i];
      vs
  }

  /** What MarshallProblemDetailsToString leaves in `response`: the values
    * appended when there are errors, Detail instead when there are none,
    * "" when there is neither, and `response` untouched for null details. */
  function Marshalled(details: Option<ProblemDetails>, response: string): (r: string)
    ensures details.None? ==> r == response
    ensures details.Some? && |details.value.errors| > 0 ==> r == response + Concat(AllValues(details.value.errors))
  {
    if details.None? then response
    else if |details.value.errors| > 0 then
      FlattenIsConcat(details.value.errors);
      response + Flatten(details.value.errors)
    else if details.value.detail.Some? then details.value.detail.value
    else ""
  }

  method MarshallProblemDetailsToString(details: Option<ProblemDetails>, response: string) returns (r: string)
    ensures r == Marshalled(details, response)
  {
    r := response;
    if details.Some? {
      var errors := details.value.errors;
      if |errors| > 0 {
        var i := 0;
        while i < |errors|
          invariant 0 <= i <= |errors|
          invariant r == response + Flatten(errors[..i])
        {
          var values := errors[i].1;
          var j := 0;
          while j < |values|
            invariant 0 <= j <= |values|
            invariant r == response + Flatten(errors[..i]) + Concat(values[..j])
          {
            r := r + values[j];
            assert values[..j + 1][..j] == values[..j];
            j := j + 1;
          }
          assert values[..j] == values;
          assert errors[..i + 1][..i] == errors[..i];
          i := i + 1;
        }
        assert errors[..i] == errors;
      } else if details.value.detail.Some? {
        r := details.value.detail.value;
      } else {
        r := "";
      }
    }
  }

  /** Concat distributes over list concatenation. */
  lemma {:induction false} ConcatAppend(a: seq<string>, b: seq<string>)
    ensures Concat(a + b) == Concat(a) + Concat(b)
    decreases |b|
  {
    if b == [] {
      assert a + b == a;
    } else {
      var n := |b| - 1;
      assert (a + b)[..|a + b| - 1] == a + b[..n];
      assert (a + b)[|a + b| - 1] == b[n];
      ConcatAppend(a, b[..n]);
      assert Concat(b) == Concat(b[..n]) + b[n];
    }
  }

  /** Joining the errors one by one is joining the list of all their
    * values. */
  lemma {:induction false} FlattenIsConcat(errors: seq<(string, seq<string>)>)
    ensures Flatten(errors) == Concat(AllValues(errors))
  {
    if errors != [] {
      FlattenIsConcat(errors[..|errors| - 1]);
      ConcatAppend(AllValues(errors[..|errors| - 1]), errors[|errors| - 1].1);
    }
  }

  /** ExtractValidationError: a 400 whose body reads as problem details
    * gives the validation message with the marshalled errors; anything
    * else the general error. */
  function ExtractValidationError(e: ApiError): (message: string)
    ensures e.statusCode == 400 && e.problem.Some? ==>
              message == ValidationFailurePrefix + Marshalled(e.problem, "")
    ensures message == GeneralError <==> !(e.statusCode == 400 && e.problem.Some?)
  {
    if e.statusCode == 400 && e.problem.Some? then
      var message := ValidationFailurePrefix + Marshalled(e.problem, "");
      assert message[3] == ValidationFailurePrefix[3];
      message
    else GeneralError
  }

  /** The message a failed start leaves: that of the ApiException, or the
    * general error for any other exception. */
  function StartErrorMessage(api: Option<ApiError>): string
  {
    if api.Some? then ExtractValidationError(api.value) else GeneralError
  }

  // -----------------------------------------------------------------------
  // Sort and Reverse of the selected types
  // -----------------------------------------------------------------------

  /** In the order of the enum's values, as List<T>.Sort compares them. */
  predicate Ascending(s: seq<RequestType>)
  {
    forall i, j :: 0 <= i < j < |s| ==> Ordinal(s[i]) <= Ordinal(s[j])
  }

  predicate Descending(s: seq<RequestType>)
  {
    forall i, j :: 0 <= i < j < |s| ==> Ordinal(s[i]) >= Ordinal(s[j])
  }

  /** Types.Sort(), as an insertion sort by adjacent swaps. */
  method SortTypes(a: array<RequestType>)
    modifies a
    ensures Ascending(a[..])
    ensures multiset(a[..]) == multiset(old(a[..]))
  {
    var i := 0;
    while i < a.Length
      invariant 0 <= i <= a.Length
      invariant Ascending(a[..i])
      invariant multiset(a[..]) == multiset(old(a[..]))
    {
      SinkDown(a, i);
      i := i + 1;
    }
    assert a[..a.Length] == a[..];
  }

  /** Move a[i] down into the sorted a[..i]. */
  method SinkDown(a: array<RequestType>, i: nat)
    requires i < a.Length && Ascending(a[..i])
    modifies a
    ensures Ascending(a[..i + 1])
    ensures multiset(a[..]) == multiset(old(a[..]))
  {
    var j := i;
    while j > 0 && Ordinal(a[j - 1]) > Ordinal(a[j])
      invariant 0 <= j <= i
      invariant forall k, l :: 0 <= k < l <= i && k != j && l != j ==> Ordinal(a[k]) <= Ordinal(a[l])
      invariant forall l :: j < l <= i ==> Ordinal(a[j]) <= Ordinal(a[l])
      invariant multiset(a[..]) == multiset(old(a[..]))
    {
      SwapDown(a, j);
      j := j - 1;
    }
  }

  /** One step of SinkDown: a[j - 1] and a[j] change places. */
  method SwapDown(a: array<RequestType>, j: nat)
    requires 0 < j < a.Length
    modifies a
    ensures a[j - 1] == old(a[j]) && a[j] == old(a[j - 1])
    ensures forall k :: 0 <= k < a.Length && k != j - 1 && k != j ==> a[k] == old(a[k])
    ensures multiset(a[..]) == multiset(old(a[..]))
  {
    a[j - 1], a[j] := a[j], a[j - 1];
  }

  /** Types.Reverse(). */
  method ReverseTypes(a: array<RequestType>)
    modifies a
    ensures forall i :: 0 <= i < a.Length ==> a[i] == old(a[a.Length - 1 - i])
  {
    var lo, hi := 0, a.Length - 1;
    while lo < hi
      invariant 0 <= lo && hi == a.Length - 1 - lo && lo <= a.Length - lo
      invariant forall i :: 0 <= i < lo || hi < i < a.Length ==> a[i] == old(a[a.Length - 1 - i])
      invariant forall i :: lo <= i <= hi ==> a[i] == old(a[i])
    {
      a[lo], a[hi] := a[hi], a[lo];
      lo, hi := lo + 1, hi - 1;
    }
  }

  /** Reversing an ascending list gives a descending one with the same
    * elements. */
  lemma ReversedDescending(before: seq<RequestType>, after: seq<RequestType>)
    requires Ascending(before) && |after| == |before|
    requires forall i :: 0 <= i < |after| ==> after[i] == before[|before| - 1 - i]
    ensures Descending(after)
    ensures multiset(after) == multiset(before)
  {
    assert after == Reversed(before);
    ReversedKeepsElements(before);
  }

  /** A list read back to front. */
  function Reversed<T>(s: seq<T>): (r: seq<T>)
    ensures |r| == |s| && forall i :: 0 <= i < |s| ==> r[i] == s[|s| - 1 - i]
  {
    if s == [] then [] else [s[|s| - 1]] + Reversed(s[..|s| - 1])
  }

  lemma ReversedMembers<T>(s: seq<T>)
    ensures forall x :: x in Reversed(s) <==> x in s
  {
    var r := Reversed(s);
    forall x | x in s
      ensures x in r
    {
      var i :| 0 <= i < |s| && s[i] == x;
      assert r[|s| - 1 - i] == x;
    }
  }

  lemma {:induction false} ReversedKeepsElements<T>(s: seq<T>)
    ensures multiset(Reversed(s)) == multiset(s)
  {
    if s != [] {
      ReversedKeepsElements(s[..|s| - 1]);
      assert s == s[..|s| - 1] + [s[|s| - 1]];
    }
  }

  // -----------------------------------------------------------------------
  // Composite
  // -----------------------------------------------------------------------

  /** What the form brings to a composite job: the user, the uploaded
    * file's name and text, and the site and year fields (None for null). */
  datatype Form = Form(userId: string, fileName: string, content: string, site: Option<string>, year: Option<int>)

  /** A node keeps the site only for DriveTime and the year only for
    * CensusBlockGroup. */
  function SiteFor(t: RequestType, site: Option<string>): Option<string>
  {
    if t == DriveTime then site else Some("")
  }

  function YearFor(t: RequestType, year: Option<int>): Option<int>
  {
    if t == CensusBlockGroup then year else None
  }

  /** The state the loop of Composite threads: the tables, the GUID last
    * inserted, and the two messages of the view model. */
  datatype Outcome = Outcome(store: Store, guid: string, success: Option<string>, error: Option<string>)

  /** A node waiting for its turn, linked to the node inserted before it. */
  function PartialNode(t: RequestType, guid: string, form: Form, upload: int, next: string): UserRequest
  {
    UserRequest(guid, form.userId, "", "", Composite, Some(t), SiteFor(t, form.site), YearFor(t, form.year),
                upload, None, Requested, next)
  }

  /** The node that is submitted, under the GUID the service answered with. */
  function StartedNode(t: RequestType, guid: string, form: Form, upload: int, next: string): UserRequest
  {
    UserRequest(guid, form.userId, form.fileName, "", Composite, Some(t), SiteFor(t, form.site),
                YearFor(t, form.year), upload, None, Processing, next)
  }

  /** The metrics record of a started composite job. */
  function StartCriteria(t: RequestType, guid: string, form: Form, now: int): Criteria
  {
    Criteria(guid, form.userId, Some(form.content), Some(t), 0, now, MinValue, Ui, None)
  }

  /** AddUserRequest inside the loop's try: a taken key is the exception
    * caught as a general error, and the GUID stays as it was. */
  function Insert(o: Outcome, node: UserRequest): (r: Outcome)
    ensures node.guid in o.store.requests ==> r.store == o.store && r.error == Some(GeneralError)
    ensures node.guid !in o.store.requests ==>
              node.guid in r.store.requests && r.store.requests[node.guid] == node && r.guid == node.guid
    ensures r.store.records == o.store.records && r.success == o.success
  {
    if node.guid in o.store.requests then o.(error := Some(GeneralError))
    else o.(store := o.store.(requests := o.store.requests[node.guid := node]), guid := node.guid)
  }

  /** One pass of the loop of Composite, for type `t`; `last` is the pass
    * that submits, `freshGuid` the Guid.NewGuid() of a waiting node and
    * `recordGuid` the one AddRecordsProcessed would draw. */
  function PlantStep(o: Outcome, t: RequestType, last: bool, freshGuid: string, recordGuid: string,
                     form: Form, upload: int, now: int, remote: Remote): (r: Outcome)
    ensures !last ==> r.store.records == o.store.records && r.success == o.success
  {
    if !last then Insert(o, PartialNode(t, freshGuid, form, upload, o.guid))
    else Submit(o, t, recordGuid, form, upload, now, remote)
  }

  /** The last pass: start the job; a fault deletes the chain inserted so
    * far. */
  function Submit(o: Outcome, t: RequestType, recordGuid: string, form: Form, upload: int, now: int,
                  remote: Remote): (r: Outcome)
    ensures StartResult(t, "", remote).Err? ==> r.store.records == o.store.records && r.success == o.success
    ensures StartResult(t, "", remote) == Ok(None) ==> r.store == o.store && r.error == Some(GeneralError)
  {
    match StartResult(t, "", remote)
    case Err(api) =>
      o.(store := o.store.(requests := Without(o.store.requests, Chain(o.store.requests, o.guid))),
         error := Some(StartErrorMessage(api)))
    case Ok(None) => o.(error := Some(GeneralError))
    case Ok(Some(response)) => Record(o, t, response, recordGuid, form, upload, now)
  }

  /** A started job: its record first, then the success message, then its
    * node. */
  function Record(o: Outcome, t: RequestType, response: Response, recordGuid: string, form: Form, upload: int,
                  now: int): (r: Outcome)
    ensures r.store.records == o.store.records || r.success == Some(StartSuccess)
    ensures r.store.requests != o.store.requests ==> r.success == Some(StartSuccess)
  {
    match AfterAdd(o.store.records, StartCriteria(t, response.guid, form, now), recordGuid)
    case Err(_) => o.(error := Some(GeneralError))
    case Ok(records) =>
      Insert(o.(store := o.store.(records := records), success := Some(StartSuccess)),
             StartedNode(t, response.guid, form, upload, o.guid))
  }

  /** The state after the first `k` passes over the types `d`. */
  function Planted(o: Outcome, d: seq<RequestType>, k: nat, newGuids: seq<string>, recordGuid: string,
                   form: Form, upload: int, now: int, remote: Remote): (r: Outcome)
    requires k <= |d| <= |newGuids|
    ensures k < |d| ==> r.store.records == o.store.records && r.success == o.success
  {
    if k == 0 then o
    else
      PlantStep(Planted(o, d, k - 1, newGuids, recordGuid, form, upload, now, remote), d[k - 1], k == |d|,
                newGuids[k - 1], recordGuid, form, upload, now, remote)
  }

  class HomeController {
    const db: UserRequestsDbContext
    const repository: UserRequestRepository
    const metadata: MetadataService
    const api: GeoMarkerApiRequestService

    constructor(db: UserRequestsDbContext, repository: UserRequestRepository, metadata: MetadataService,
                api: GeoMarkerApiRequestService)
      requires repository.db == db && metadata.db == db && api.db == db && api.Wired()
      ensures this.db == db && this.repository == repository && this.metadata == metadata && this.api == api
      ensures Wired()
    {
      this.db := db;
      this.repository := repository;
      this.metadata := metadata;
      this.api := api;
    }

    predicate Wired()
    {
      repository.db == db && metadata.db == db && api.db == db && api.Wired()
    }

    /** Composite: sort the types and reverse them, so that the largest
      * comes first, then insert a waiting node for each type but the last,
      * each linked to the one before, and submit the last, linked to the
      * one inserted just before it. `newGuids` holds the GUIDs
      * Guid.NewGuid() would give, one per pass. */
    method Composite(types: array<RequestType>, form: Form, upload: int, now: int, newGuids: seq<string>,
                     recordGuid: string, remote: Remote)
      returns (success: Option<string>, error: Option<string>)
      requires Wired() && types.Length <= |newGuids|
      modifies db, types
      ensures Descending(types[..]) && multiset(types[..]) == multiset(old(types[..]))
      ensures var o := Planted(Outcome(old(Store(db.requests, db.records)), "", None, None), types[..],
                               types.Length, newGuids, recordGuid, form, upload, now, remote);
              Store(db.requests, db.records) == o.store && success == o.success && error == o.error
    {
      ghost var unsorted := types[..];
      SortTypes(types);
      ghost var sorted := types[..];
      ReverseTypes(types);
      ReversedDescending(sorted, types[..]);
      ghost var d := types[..];
      ghost var o0 := Outcome(Store(db.requests, db.records), "", None, None);
      var guid := "";
      success, error := None, None;
      var count := 0;
      while count < types.Length
        invariant 0 <= count <= types.Length && types[..] == d
        invariant Planted(o0, d, count, newGuids, recordGuid, form, upload, now, remote)
                  == Outcome(Store(db.requests, db.records), guid, success, error)
      {
        var t := types[count];
        count := count + 1;
        guid, success, error := Pass(t, count == types.Length, guid, success, error, newGuids[count - 1],
                                     recordGuid, form, upload, now, remote);
      }
    }

    /** One pass of the loop of Composite. */
    method Pass(t: RequestType, last: bool, guid: string, success: Option<string>, error: Option<string>,
                freshGuid: string, recordGuid: string, form: Form, upload: int, now: int, remote: Remote)
      returns (guid': string, success': Option<string>, error': Option<string>)
      requires Wired()
      modifies db
      ensures PlantStep(Outcome(old(Store(db.requests, db.records)), guid, success, error), t, last, freshGuid,
                        recordGuid, form, upload, now, remote)
              == Outcome(Store(db.requests, db.records), guid', success', error')
    {
      if last {
        guid', success', error' := StartJob(t, guid, success, error, recordGuid, form, upload, now, remote);
      } else {
        guid', success', error' := guid, success, error;
        var added := repository.AddUserRequest(PartialNode(t, freshGuid, form, upload, guid));
        if added.Err? {
          error' := Some(GeneralError);
        } else {
          guid' := added.value;
        }
      }
    }

    /** The last pass: InvokeStartGetAsync with the chain inserted so far. */
    method StartJob(t: RequestType, guid: string, success: Option<string>, error: Option<string>,
                    recordGuid: string, form: Form, upload: int, now: int, remote: Remote)
      returns (guid': string, success': Option<string>, error': Option<string>)
      requires Wired()
      modifies db
      ensures Submit(Outcome(old(Store(db.requests, db.records)), guid, success, error), t, recordGuid, form,
                     upload, now, remote)
              == Outcome(Store(db.requests, db.records), guid', success', error')
    {
      guid', success', error' := guid, success, error;
      var result := api.InvokeStartGetAsync(t, guid, "", true, remote);
      if result.Err? {
        error' := Some(StartErrorMessage(result.error));
      } else if result.value.None? {
        error' := Some(GeneralError);
      } else {
        guid', success', error' := RecordJob(t, result.value.value, guid, success, error, recordGuid, form,
                                             upload, now);
      }
    }

    /** A started job: AddRecordsProcessed for Types.Last(), which on the
      * last pass is `t`, then the success message, then AddUserRequest. */
    method RecordJob(t: RequestType, response: Response, guid: string, success: Option<string>,
                     error: Option<string>, recordGuid: string, form: Form, upload: int, now: int)
      returns (guid': string, success': Option<string>, error': Option<string>)
      requires Wired()
      modifies db
      ensures Record(Outcome(old(Store(db.requests, db.records)), guid, success, error), t, response, recordGuid,
                     form, upload, now)
              == Outcome(Store(db.requests, db.records), guid', success', error')
    {
      guid', success', error' := guid, success, error;
      var failed := metadata.AddRecordsProcessed(StartCriteria(t, response.guid, form, now), recordGuid);
      if failed.Some? {
        error' := Some(GeneralError);
      } else {
        success' := Some(StartSuccess);
        var added := repository.AddUserRequest(StartedNode(t, response.guid, form, upload, guid));
        if added.Err? {
          error' := Some(GeneralError);
        } else {
          guid' := added.value;
        }
      }
    }
  }

  // -----------------------------------------------------------------------
  // The chain Composite builds
  // -----------------------------------------------------------------------

  /** The GUIDs drawn for the first `k` waiting nodes can be used: none is
    * empty, a key of the store or a link in it, and no two are equal. */
  predicate FreshGuids(s: Requests, guids: seq<string>, k: nat)
    requires k <= |guids|
  {
    (forall i :: 0 <= i < k ==> guids[i] != "" && guids[i] !in s && Unreferenced(s, guids[i]))
    && (forall i, j :: 0 <= i < j < k ==> guids[i] != guids[j])
  }

  lemma FreshPrefix(s: Requests, guids: seq<string>, k: nat, m: nat)
    requires m <= k <= |guids| && FreshGuids(s, guids, k)
    ensures FreshGuids(s, guids, m)
  {
  }

  /** The last of k fresh GUIDs is new to the store and to the ones before
    * it. */
  lemma FreshLast(s: Requests, guids: seq<string>, k: nat)
    requires 0 < k <= |guids| && FreshGuids(s, guids, k)
    ensures guids[k - 1] !in s && guids[k - 1] !in guids[..k - 1]
  {
    var before := guids[..k - 1];
    forall j | 0 <= j < |before|
      ensures before[j] != guids[k - 1]
    {
      assert before[j] == guids[j];
    }
  }

  /** The k-th fresh GUID is not among the rows after k - 1 waiting nodes. */
  lemma WaitingLacksNext(s: Requests, d: seq<RequestType>, guids: seq<string>, k: nat, form: Form, upload: int)
    requires 0 < k <= |d| && k <= |guids| && FreshGuids(s, guids, k)
    ensures guids[k - 1] !in Waiting(s, d, guids, k - 1, form, upload)
  {
    WaitingKeys(s, d, guids, k - 1, form, upload);
    FreshLast(s, guids, k);
  }

  /** The GUID the loop holds after `i` waiting nodes: the last one inserted. */
  function Link(guids: seq<string>, i: nat): string
    requires i <= |guids|
  {
    if i == 0 then "" else guids[i - 1]
  }

  /** The requests after the waiting nodes of the first `k` types. */
  function Waiting(s: Requests, d: seq<RequestType>, guids: seq<string>, k: nat, form: Form, upload: int): Requests
    requires k <= |d| && k <= |guids|
  {
    if k == 0 then s
    else
      Waiting(s, d, guids, k - 1, form, upload)[guids[k - 1] := PartialNode(d[k - 1], guids[k - 1], form, upload,
                                                                           Link(guids, k - 1))]
  }

  lemma WaitingLast(s: Requests, d: seq<RequestType>, guids: seq<string>, k: nat, form: Form, upload: int)
    requires 0 < k <= |d| && k <= |guids|
    ensures Waiting(s, d, guids, k, form, upload)
            == Waiting(s, d, guids, k - 1, form, upload)[guids[k - 1] := PartialNode(d[k - 1], guids[k - 1], form,
                                                                                     upload, Link(guids, k - 1))]
  {
  }

  /** The waiting nodes are added to the store and nothing else changes. */
  lemma WaitingRows(s: Requests, d: seq<RequestType>, guids: seq<string>, k: nat, form: Form, upload: int)
    requires k <= |d| && k <= |guids|
    ensures forall g :: g in Waiting(s, d, guids, k, form, upload) <==> g in s || g in guids[..k]
    ensures FreshGuids(s, guids, k) ==> forall g :: g in s ==> Waiting(s, d, guids, k, form, upload)[g] == s[g]
    ensures FreshGuids(s, guids, k) ==>
              forall i :: 0 <= i < k ==>
                Waiting(s, d, guids, k, form, upload)[guids[i]]
                == PartialNode(d[i], guids[i], form, upload, Link(guids, i))
  {
    WaitingKeys(s, d, guids, k, form, upload);
    if FreshGuids(s, guids, k) {
      forall g | g in s
        ensures Waiting(s, d, guids, k, form, upload)[g] == s[g]
      {
        WaitingOld(s, d, guids, k, form, upload, g);
      }
      forall i | 0 <= i < k
        ensures Waiting(s, d, guids, k, form, upload)[guids[i]]
                == PartialNode(d[i], guids[i], form, upload, Link(guids, i))
      {
        WaitingRow(s, d, guids, k, form, upload, i);
      }
    }
  }

  lemma {:induction false} WaitingKeys(s: Requests, d: seq<RequestType>, guids: seq<string>, k: nat, form: Form,
                                       upload: int)
    requires k <= |d| && k <= |guids|
    ensures forall g :: g in Waiting(s, d, guids, k, form, upload) <==> g in s || g in guids[..k]
  {
    if k > 0 {
      WaitingKeys(s, d, guids, k - 1, form, upload);
      assert guids[..k] == guids[..k - 1] + [guids[k - 1]];
    }
  }

  lemma {:induction false} WaitingOld(s: Requests, d: seq<RequestType>, guids: seq<string>, k: nat, form: Form,
                                      upload: int, g: string)
    requires k <= |d| && k <= |guids| && FreshGuids(s, guids, k) && g in s
    ensures g in Waiting(s, d, guids, k, form, upload) && Waiting(s, d, guids, k, form, upload)[g] == s[g]
  {
    if k > 0 {
      FreshPrefix(s, guids, k, k - 1);
      WaitingOld(s, d, guids, k - 1, form, upload, g);
    }
  }

  lemma {:induction false} WaitingRow(s: Requests, d: seq<RequestType>, guids: seq<string>, k: nat, form: Form,
                                      upload: int, i: nat)
    requires i < k <= |d| && k <= |guids| && FreshGuids(s, guids, k)
    ensures guids[i] in Waiting(s, d, guids, k, form, upload)
    ensures Waiting(s, d, guids, k, form, upload)[guids[i]] == PartialNode(d[i], guids[i], form, upload, Link(guids, i))
  {
    if i < k - 1 {
      FreshPrefix(s, guids, k, k - 1);
      WaitingRow(s, d, guids, k - 1, form, upload, i);
      assert guids[i] != guids[k - 1];
    }
  }

  /** Read from the node inserted last, the waiting nodes form one chain
    * that ends at the first. */
  lemma {:induction false} WaitingChain(s: Requests, d: seq<RequestType>, guids: seq<string>, k: nat, form: Form,
                                        upload: int)
    requires k <= |d| && k <= |guids| && FreshGuids(s, guids, k)
    ensures Chain(Waiting(s, d, guids, k, form, upload), Link(guids, k)) == Reversed(guids[..k])
  {
    if k > 0 {
      FreshPrefix(s, guids, k, k - 1);
      WaitingChain(s, d, guids, k - 1, form, upload);
      WaitingLacksNext(s, d, guids, k, form, upload);
      WaitingLast(s, d, guids, k, form, upload);
      ChainPrepend(Waiting(s, d, guids, k - 1, form, upload), guids[k - 1],
                   PartialNode(d[k - 1], guids[k - 1], form, upload, Link(guids, k - 1)));
      var p := guids[..k];
      assert p[..k - 1] == guids[..k - 1] && p[k - 1] == guids[k - 1];
      assert Reversed(p) == [guids[k - 1]] + Reversed(guids[..k - 1]);
    }
  }

  /** No waiting node links to a GUID the store does not link to, unless it
    * is one of the nodes before it. */
  lemma {:induction false} WaitingUnreferenced(s: Requests, d: seq<RequestType>, guids: seq<string>, k: nat,
                                               form: Form, upload: int, g: string)
    requires k <= |d| && k <= |guids| && FreshGuids(s, guids, k)
    requires g != "" && Unreferenced(s, g) && forall i :: 0 <= i < k - 1 ==> guids[i] != g
    ensures Unreferenced(Waiting(s, d, guids, k, form, upload), g)
  {
    if k > 0 {
      WaitingUnreferenced(s, d, guids, k - 1, form, upload, g);
    }
  }

  /** Inserting the waiting nodes keeps every chain closed and every row
    * under its own GUID. */
  lemma {:induction false} WaitingKeepsClosed(s: Requests, d: seq<RequestType>, guids: seq<string>, k: nat,
                                              form: Form, upload: int)
    requires k <= |d| && k <= |guids| && FreshGuids(s, guids, k)
    requires AllClosed(s) && KeysMatch(s)
    ensures AllClosed(Waiting(s, d, guids, k, form, upload)) && KeysMatch(Waiting(s, d, guids, k, form, upload))
  {
    if k > 0 {
      FreshPrefix(s, guids, k, k - 1);
      WaitingKeepsClosed(s, d, guids, k - 1, form, upload);
      WaitingStepClosed(s, d, guids, k, form, upload);
    }
  }

  /** One waiting node more keeps the store closed. */
  lemma WaitingStepClosed(s: Requests, d: seq<RequestType>, guids: seq<string>, k: nat, form: Form, upload: int)
    requires 0 < k <= |d| && k <= |guids| && FreshGuids(s, guids, k)
    requires AllClosed(Waiting(s, d, guids, k - 1, form, upload)) && KeysMatch(Waiting(s, d, guids, k - 1, form, upload))
    ensures AllClosed(Waiting(s, d, guids, k, form, upload)) && KeysMatch(Waiting(s, d, guids, k, form, upload))
  {
    var w := Waiting(s, d, guids, k - 1, form, upload);
    FreshFacts(s, guids, k);
    WaitingNextFree(s, d, guids, k, form, upload);
    LinkClosed(s, d, guids, k - 1, form, upload);
    WaitingLast(s, d, guids, k, form, upload);
    AddWaitingNode(w, guids[k - 1], PartialNode(d[k - 1], guids[k - 1], form, upload, Link(guids, k - 1)));
  }

  /** The next waiting node's GUID is new to the store and nothing links to
    * it. */
  lemma WaitingNextFree(s: Requests, d: seq<RequestType>, guids: seq<string>, k: nat, form: Form, upload: int)
    requires 0 < k <= |d| && k <= |guids| && FreshGuids(s, guids, k)
    ensures guids[k - 1] !in Waiting(s, d, guids, k - 1, form, upload)
    ensures Unreferenced(Waiting(s, d, guids, k - 1, form, upload), guids[k - 1])
  {
    FreshFacts(s, guids, k);
    WaitingLacksNext(s, d, guids, k, form, upload);
    WaitingUnreferenced(s, d, guids, k - 1, form, upload, guids[k - 1]);
  }

  /** A node under a new, unreferenced GUID, linking to a closed chain,
    * keeps the store closed and every row under its own GUID. */
  lemma AddWaitingNode(w: Requests, g: string, node: UserRequest)
    requires AllClosed(w) && KeysMatch(w) && g !in w && Unreferenced(w, g)
    requires node.guid == g && node.nextRequest != g && Closed(w, node.nextRequest)
    ensures AllClosed(w[g := node]) && KeysMatch(w[g := node])
  {
    InsertKeepsKeys(w, g, node);
    AddingKeepsClosed(w, g, node);
  }

  /** The k-th of k fresh GUIDs, taken apart. */
  lemma FreshFacts(s: Requests, guids: seq<string>, k: nat)
    requires 0 < k <= |guids| && FreshGuids(s, guids, k)
    ensures FreshGuids(s, guids, k - 1)
    ensures guids[k - 1] != "" && Unreferenced(s, guids[k - 1])
    ensures forall i :: 0 <= i < k - 2 ==> guids[i] != guids[k - 1]
    ensures Link(guids, k - 1) != guids[k - 1]
  {
  }

  /** A row stored under its own GUID keeps every row under its own GUID. */
  lemma InsertKeepsKeys(s: Requests, g: string, r: UserRequest)
    requires KeysMatch(s) && r.guid == g
    ensures KeysMatch(s[g := r])
  {
  }

  /** The chain the next waiting node links to is closed. */
  lemma LinkClosed(s: Requests, d: seq<RequestType>, guids: seq<string>, k: nat, form: Form, upload: int)
    requires k <= |d| && k <= |guids| && FreshGuids(s, guids, k)
    requires AllClosed(Waiting(s, d, guids, k, form, upload))
    ensures Closed(Waiting(s, d, guids, k, form, upload), Link(guids, k))
  {
    if k > 0 {
      WaitingRow(s, d, guids, k, form, upload, k - 1);
    }
  }

  /** Every pass before the last inserts a waiting node and sets no
    * message. */
  lemma {:induction false} PlantedPartials(st: Store, d: seq<RequestType>, k: nat, guids: seq<string>,
                                           recordGuid: string, form: Form, upload: int, now: int, remote: Remote)
    requires k < |d| <= |guids| && FreshGuids(st.requests, guids, k)
    ensures Planted(Outcome(st, "", None, None), d, k, guids, recordGuid, form, upload, now, remote)
            == Outcome(Store(Waiting(st.requests, d, guids, k, form, upload), st.records), Link(guids, k), None, None)
  {
    if k > 0 {
      FreshPrefix(st.requests, guids, k, k - 1);
      PlantedPartials(st, d, k - 1, guids, recordGuid, form, upload, now, remote);
      var o := Outcome(Store(Waiting(st.requests, d, guids, k - 1, form, upload), st.records), Link(guids, k - 1),
                       None, None);
      var node := PartialNode(d[k - 1], guids[k - 1], form, upload, Link(guids, k - 1));
      PlantedLast(Outcome(st, "", None, None), d, k, guids, recordGuid, form, upload, now, remote);
      PartialStep(o, d[k - 1], guids[k - 1], recordGuid, form, upload, now, remote);
      WaitingLacksNext(st.requests, d, guids, k, form, upload);
      WaitingLast(st.requests, d, guids, k, form, upload);
      InsertNew(o, node);
      assert Link(guids, k) == guids[k - 1];
    }
  }

  /** Planted after k passes is the k-th pass on the state before it. */
  lemma PlantedLast(o: Outcome, d: seq<RequestType>, k: nat, newGuids: seq<string>, recordGuid: string,
                    form: Form, upload: int, now: int, remote: Remote)
    requires 0 < k <= |d| <= |newGuids|
    ensures Planted(o, d, k, newGuids, recordGuid, form, upload, now, remote)
            == PlantStep(Planted(o, d, k - 1, newGuids, recordGuid, form, upload, now, remote), d[k - 1], k == |d|,
                         newGuids[k - 1], recordGuid, form, upload, now, remote)
  {
  }

  /** Inserting a node under a new GUID. */
  lemma InsertNew(o: Outcome, node: UserRequest)
    requires node.guid !in o.store.requests
    ensures Insert(o, node) == Outcome(Store(o.store.requests[node.guid := node], o.store.records), node.guid,
                                       o.success, o.error)
  {
  }

  /** A pass before the last inserts one waiting node after the previous
    * one. */
  lemma PartialStep(o: Outcome, t: RequestType, freshGuid: string, recordGuid: string, form: Form, upload: int,
                    now: int, remote: Remote)
    ensures PlantStep(o, t, false, freshGuid, recordGuid, form, upload, now, remote)
            == Insert(o, PartialNode(t, freshGuid, form, upload, o.guid))
  {
  }

  /** A start that throws deletes every waiting node again: the store is
    * as it was, with the exception's message and no success. */
  lemma StartFaultRestores(st: Store, d: seq<RequestType>, guids: seq<string>, recordGuid: string, form: Form,
                           upload: int, now: int, remote: Remote, api: Option<ApiError>)
    requires 0 < |d| <= |guids| && FreshGuids(st.requests, guids, |d| - 1)
    requires StartResult(d[|d| - 1], "", remote) == Err(api)
    ensures var o := Planted(Outcome(st, "", None, None), d, |d|, guids, recordGuid, form, upload, now, remote);
            o.store == st && o.success == None && o.error == Some(StartErrorMessage(api))
  {
    var n := |d| - 1;
    PlantedPartials(st, d, n, guids, recordGuid, form, upload, now, remote);
    WaitingChain(st.requests, d, guids, n, form, upload);
    var w := Waiting(st.requests, d, guids, n, form, upload);
    var o := Outcome(Store(w, st.records), Link(guids, n), None, None);
    PlantedLast(Outcome(st, "", None, None), d, |d|, guids, recordGuid, form, upload, now, remote);
    var left := Without(w, Reversed(guids[..n]));
    assert PlantStep(o, d[n], true, guids[n], recordGuid, form, upload, now, remote)
           == o.(store := o.store.(requests := left), error := Some(StartErrorMessage(api)));
    WaitingUndone(st.requests, d, guids, n, form, upload);
  }

  /** Deleting the waiting nodes again leaves the store as it was. */
  lemma WaitingUndone(s: Requests, d: seq<RequestType>, guids: seq<string>, n: nat, form: Form, upload: int)
    requires n <= |d| && n <= |guids| && FreshGuids(s, guids, n)
    ensures Without(Waiting(s, d, guids, n, form, upload), Reversed(guids[..n])) == s
  {
    WaitingRows(s, d, guids, n, form, upload);
    ReversedMembers(guids[..n]);
    FreshNotStored(s, guids, n);
    var r := Without(Waiting(s, d, guids, n, form, upload), Reversed(guids[..n]));
    assert r.Keys == s.Keys;
  }

  /** Fresh GUIDs are not keys of the store. */
  lemma FreshNotStored(s: Requests, guids: seq<string>, n: nat)
    requires n <= |guids| && FreshGuids(s, guids, n)
    ensures forall g :: g in guids[..n] ==> g !in s
  {
    forall g | g in guids[..n]
      ensures g !in s
    {
      var i :| 0 <= i < n && guids[..n][i] == g;
      assert guids[i] == g;
    }
  }

  /** A start that answers without a job (a null response) fails on its
    * GUID: the general error is shown and the waiting nodes stay in the
    * store, Requested, with no submitted node before them. */
  lemma NullStartKeepsWaiting(st: Store, d: seq<RequestType>, guids: seq<string>, recordGuid: string, form: Form,
                              upload: int, now: int, remote: Remote)
    requires 0 < |d| <= |guids| && FreshGuids(st.requests, guids, |d| - 1)
    requires StartResult(d[|d| - 1], "", remote) == Ok(None)
    ensures var o := Planted(Outcome(st, "", None, None), d, |d|, guids, recordGuid, form, upload, now, remote);
            o.store == Store(Waiting(st.requests, d, guids, |d| - 1, form, upload), st.records)
            && o.success == None && o.error == Some(GeneralError)
            && forall i :: 0 <= i < |d| - 1 ==>
                 guids[i] in o.store.requests && o.store.requests[guids[i]].status == Requested
  {
    var n := |d| - 1;
    PlantedPartials(st, d, n, guids, recordGuid, form, upload, now, remote);
    WaitingRows(st.requests, d, guids, n, form, upload);
    var o := Outcome(Store(Waiting(st.requests, d, guids, n, form, upload), st.records), Link(guids, n), None, None);
    assert Planted(Outcome(st, "", None, None), d, |d|, guids, recordGuid, form, upload, now, remote)
           == PlantStep(o, d[n], true, guids[n], recordGuid, form, upload, now, remote);
    forall i | 0 <= i < n
      ensures guids[i] in o.store.requests
    {
      assert guids[..n][i] == guids[i];
    }
  }

  /** A started job: the submitted node heads a chain of all the selected
    * types, read from the node submitted to the first waiting one, with
    * the record of the job added. The submitted node is Processing and
    * carries the file's name, the others wait as Requested with no file;
    * each keeps the site or year its type asks for, and the last has no
    * successor. Rows already stored are untouched. */
  lemma StartedChain(st: Store, d: seq<RequestType>, guids: seq<string>, recordGuid: string, form: Form,
                     upload: int, now: int, remote: Remote, response: Response)
    requires 0 < |d| <= |guids| && FreshGuids(st.requests, guids, |d| - 1)
    requires StartResult(d[|d| - 1], "", remote) == Ok(Some(response))
    requires response.guid != "" && response.guid !in st.requests && response.guid !in guids[..|d| - 1]
    requires AfterAdd(st.records, StartCriteria(d[|d| - 1], response.guid, form, now), recordGuid).Ok?
    ensures var o := Planted(Outcome(st, "", None, None), d, |d|, guids, recordGuid, form, upload, now, remote);
            var s := o.store.requests;
            var c := Chain(s, response.guid);
            && o.success == Some(StartSuccess) && o.error == None
            && o.store.records == AfterAdd(st.records, StartCriteria(d[|d| - 1], response.guid, form, now),
                                           recordGuid).value
            && c == [response.guid] + Reversed(guids[..|d| - 1])
            && (forall i :: 0 <= i < |d| ==> s[c[i]].requestSubType == Some(d[|d| - 1 - i])
                                              && s[c[i]].requestType == Composite
                                              && s[c[i]].site == SiteFor(d[|d| - 1 - i], form.site)
                                              && s[c[i]].year == YearFor(d[|d| - 1 - i], form.year))
            && s[c[0]].status == Processing && s[c[0]].inputFileName == form.fileName
            && (forall i :: 0 < i < |d| ==> s[c[i]].status == Requested && s[c[i]].inputFileName == "")
            && s[c[|d| - 1]].nextRequest == ""
            && (forall g :: g in st.requests ==> g in s && s[g] == st.requests[g])
  {
    var o := Planted(Outcome(st, "", None, None), d, |d|, guids, recordGuid, form, upload, now, remote);
    StartedOutcome(st, d, guids, recordGuid, form, upload, now, remote, response);
    assert o.store.requests == Waiting(st.requests, d, guids, |d| - 1, form, upload)
             [response.guid := StartedNode(d[|d| - 1], response.guid, form, upload, Link(guids, |d| - 1))];
    StartedLinks(st.requests, d, guids, form, upload, response.guid);
    StartedRows(st.requests, d, guids, form, upload, response.guid);
  }

  /** The outcome of a started job, as one value. */
  lemma StartedOutcome(st: Store, d: seq<RequestType>, guids: seq<string>, recordGuid: string, form: Form,
                       upload: int, now: int, remote: Remote, response: Response)
    requires 0 < |d| <= |guids| && FreshGuids(st.requests, guids, |d| - 1)
    requires StartResult(d[|d| - 1], "", remote) == Ok(Some(response))
    requires response.guid !in st.requests && response.guid !in guids[..|d| - 1]
    requires AfterAdd(st.records, StartCriteria(d[|d| - 1], response.guid, form, now), recordGuid).Ok?
    ensures Planted(Outcome(st, "", None, None), d, |d|, guids, recordGuid, form, upload, now, remote)
            == Outcome(Store(Waiting(st.requests, d, guids, |d| - 1, form, upload)
                               [response.guid := StartedNode(d[|d| - 1], response.guid, form, upload,
                                                             Link(guids, |d| - 1))],
                             AfterAdd(st.records, StartCriteria(d[|d| - 1], response.guid, form, now),
                                      recordGuid).value),
                       response.guid, Some(StartSuccess), None)
  {
    var n := |d| - 1;
    PlantedPartials(st, d, n, guids, recordGuid, form, upload, now, remote);
    WaitingKeys(st.requests, d, guids, n, form, upload);
    var w := Waiting(st.requests, d, guids, n, form, upload);
    var o := Outcome(Store(w, st.records), Link(guids, n), None, None);
    assert response.guid !in w;
    assert Planted(Outcome(st, "", None, None), d, |d|, guids, recordGuid, form, upload, now, remote)
           == PlantStep(o, d[n], true, guids[n], recordGuid, form, upload, now, remote);
  }

  /** The chain from the submitted node, once it is inserted before the
    * waiting nodes. */
  lemma StartedRows(s0: Requests, d: seq<RequestType>, guids: seq<string>, form: Form, upload: int, r: string)
    requires 0 < |d| <= |guids| && FreshGuids(s0, guids, |d| - 1)
    requires r != "" && r !in s0 && r !in guids[..|d| - 1]
    ensures var s := Waiting(s0, d, guids, |d| - 1, form, upload)
                       [r := StartedNode(d[|d| - 1], r, form, upload, Link(guids, |d| - 1))];
            var c := [r] + Reversed(guids[..|d| - 1]);
            && (forall i :: 0 < i < |d| ==>
                  c[i] in s && s[c[i]] == PartialNode(d[|d| - 1 - i], c[i], form, upload, Link(guids, |d| - 1 - i)))
            && (forall g :: g in s0 ==> g in s && s[g] == s0[g])
  {
    var n := |d| - 1;
    var w := Waiting(s0, d, guids, n, form, upload);
    var s := w[r := StartedNode(d[n], r, form, upload, Link(guids, n))];
    var c := [r] + Reversed(guids[..n]);
    forall i | 0 < i <= n
      ensures c[i] in s && s[c[i]] == PartialNode(d[n - i], c[i], form, upload, Link(guids, n - i))
    {
      assert c[i] == Reversed(guids[..n])[i - 1] == guids[..n][n - i];
      WaitingRow(s0, d, guids, n, form, upload, n - i);
      assert guids[n - i] != r;
    }
    forall g | g in s0
      ensures g in s && s[g] == s0[g]
    {
      WaitingOld(s0, d, guids, n, form, upload, g);
    }
  }

  lemma StartedLinks(s0: Requests, d: seq<RequestType>, guids: seq<string>, form: Form, upload: int, r: string)
    requires 0 < |d| <= |guids| && FreshGuids(s0, guids, |d| - 1)
    requires r != "" && r !in s0 && r !in guids[..|d| - 1]
    ensures var s := Waiting(s0, d, guids, |d| - 1, form, upload)
                       [r := StartedNode(d[|d| - 1], r, form, upload, Link(guids, |d| - 1))];
            Chain(s, r) == [r] + Reversed(guids[..|d| - 1])
  {
    var n := |d| - 1;
    WaitingChain(s0, d, guids, n, form, upload);
    WaitingKeys(s0, d, guids, n, form, upload);
    ChainPrepend(Waiting(s0, d, guids, n, form, upload), r, StartedNode(d[n], r, form, upload, Link(guids, n)));
  }

  /** The subtype of a stored node, Unknown when it has none. */
  function SubtypeOf(s: Requests, g: string): RequestType
  {
    if g in s && s[g].requestSubType.Some? then s[g].requestSubType.value else RequestType.Unknown
  }

  /** Sorted and reversed, the types put the chain in the order of the
    * enum: the submitted node has the smallest type, and each waiting node
    * a type no smaller than the one it follows. */
  lemma StartedChainAscending(st: Store, d: seq<RequestType>, guids: seq<string>, recordGuid: string, form: Form,
                              upload: int, now: int, remote: Remote, response: Response)
    requires 0 < |d| <= |guids| && FreshGuids(st.requests, guids, |d| - 1)
    requires StartResult(d[|d| - 1], "", remote) == Ok(Some(response))
    requires response.guid != "" && response.guid !in st.requests && response.guid !in guids[..|d| - 1]
    requires AfterAdd(st.records, StartCriteria(d[|d| - 1], response.guid, form, now), recordGuid).Ok?
    requires Descending(d)
    ensures var o := Planted(Outcome(st, "", None, None), d, |d|, guids, recordGuid, form, upload, now, remote);
            var c := Chain(o.store.requests, response.guid);
            |c| == |d| && forall i, j :: 0 <= i < j < |c| ==>
              Ordinal(SubtypeOf(o.store.requests, c[i])) <= Ordinal(SubtypeOf(o.store.requests, c[j]))
  {
    StartedChain(st, d, guids, recordGuid, form, upload, now, remote, response);
  }

  /** Whatever the start answers, Composite keeps every chain closed and
    * every row under its own GUID, given a submitted GUID no row links to. */
  lemma PlantedKeepsClosed(st: Store, d: seq<RequestType>, guids: seq<string>, recordGuid: string, form: Form,
                           upload: int, now: int, remote: Remote)
    requires 0 < |d| <= |guids| && FreshGuids(st.requests, guids, |d| - 1)
    requires AllClosed(st.requests) && KeysMatch(st.requests)
    requires var started := StartResult(d[|d| - 1], "", remote);
             started.Ok? && started.value.Some? ==>
               started.value.value.guid !in guids[..|d| - 1] && Unreferenced(st.requests, started.value.value.guid)
    ensures var o := Planted(Outcome(st, "", None, None), d, |d|, guids, recordGuid, form, upload, now, remote);
            AllClosed(o.store.requests) && KeysMatch(o.store.requests)
  {
    var n := |d| - 1;
    match StartResult(d[n], "", remote)
    case Err(api) =>
      StartFaultRestores(st, d, guids, recordGuid, form, upload, now, remote, api);
    case Ok(None) =>
      NullStartKeepsWaiting(st, d, guids, recordGuid, form, upload, now, remote);
      WaitingKeepsClosed(st.requests, d, guids, n, form, upload);
    case Ok(Some(response)) =>
      StartedStoreClosed(st, d, guids, recordGuid, form, upload, now, remote, response);
  }

  /** A started job keeps every chain closed, whether or not its node is
    * inserted. */
  lemma StartedStoreClosed(st: Store, d: seq<RequestType>, guids: seq<string>, recordGuid: string, form: Form,
                           upload: int, now: int, remote: Remote, response: Response)
    requires 0 < |d| <= |guids| && FreshGuids(st.requests, guids, |d| - 1)
    requires AllClosed(st.requests) && KeysMatch(st.requests)
    requires StartResult(d[|d| - 1], "", remote) == Ok(Some(response))
    requires response.guid !in guids[..|d| - 1] && Unreferenced(st.requests, response.guid)
    ensures var o := Planted(Outcome(st, "", None, None), d, |d|, guids, recordGuid, form, upload, now, remote);
            AllClosed(o.store.requests) && KeysMatch(o.store.requests)
  {
    var n := |d| - 1;
    var r := response.guid;
    var w := Waiting(st.requests, d, guids, n, form, upload);
    if r !in w && AfterAdd(st.records, StartCriteria(d[n], r, form, now), recordGuid).Ok? {
      WaitingMissing(st.requests, d, guids, n, form, upload, r);
      StartedOutcome(st, d, guids, recordGuid, form, upload, now, remote, response);
      StartedKeepsClosed(st.requests, d, guids, form, upload, r);
    } else {
      StartRefusedKeepsWaiting(st, d, guids, recordGuid, form, upload, now, remote, response);
      WaitingKeepsClosed(st.requests, d, guids, n, form, upload);
    }
  }

  /** A GUID missing after the waiting nodes were added was neither stored
    * before nor drawn for one of them. */
  lemma WaitingMissing(s: Requests, d: seq<RequestType>, guids: seq<string>, k: nat, form: Form, upload: int,
                       g: string)
    requires k <= |d| && k <= |guids| && g !in Waiting(s, d, guids, k, form, upload)
    ensures g !in s && g !in guids[..k]
  {
    WaitingKeys(s, d, guids, k, form, upload);
  }

  /** A started job whose record or node cannot be added leaves the waiting
    * nodes as the only change to the requests. */
  lemma StartRefusedKeepsWaiting(st: Store, d: seq<RequestType>, guids: seq<string>, recordGuid: string,
                                 form: Form, upload: int, now: int, remote: Remote, response: Response)
    requires 0 < |d| <= |guids| && FreshGuids(st.requests, guids, |d| - 1)
    requires StartResult(d[|d| - 1], "", remote) == Ok(Some(response))
    requires response.guid in Waiting(st.requests, d, guids, |d| - 1, form, upload)
             || AfterAdd(st.records, StartCriteria(d[|d| - 1], response.guid, form, now), recordGuid).Err?
    ensures Planted(Outcome(st, "", None, None), d, |d|, guids, recordGuid, form, upload, now, remote).store.requests
            == Waiting(st.requests, d, guids, |d| - 1, form, upload)
  {
    var n := |d| - 1;
    LastPass(st, d, guids, recordGuid, form, upload, now, remote);
    var w := Waiting(st.requests, d, guids, n, form, upload);
    var o := Outcome(Store(w, st.records), Link(guids, n), None, None);
    SubmitStarted(o, d[n], guids[n], recordGuid, form, upload, now, remote, response);
    RecordRefused(o, d[n], response, recordGuid, form, upload, now);
  }

  /** The last pass on a started job is the recording of that job. */
  lemma SubmitStarted(o: Outcome, t: RequestType, freshGuid: string, recordGuid: string, form: Form, upload: int,
                      now: int, remote: Remote, response: Response)
    requires StartResult(t, "", remote) == Ok(Some(response))
    ensures PlantStep(o, t, true, freshGuid, recordGuid, form, upload, now, remote)
            == Record(o, t, response, recordGuid, form, upload, now)
  {
  }

  /** A job whose record or node cannot be added changes no request. */
  lemma RecordRefused(o: Outcome, t: RequestType, response: Response, recordGuid: string, form: Form, upload: int,
                      now: int)
    requires response.guid in o.store.requests
             || AfterAdd(o.store.records, StartCriteria(t, response.guid, form, now), recordGuid).Err?
    ensures Record(o, t, response, recordGuid, form, upload, now).store.requests == o.store.requests
  {
  }

  /** The outcome of Composite is that of its last pass over the store
    * holding the waiting nodes. */
  lemma LastPass(st: Store, d: seq<RequestType>, guids: seq<string>, recordGuid: string, form: Form,
                 upload: int, now: int, remote: Remote)
    requires 0 < |d| <= |guids| && FreshGuids(st.requests, guids, |d| - 1)
    ensures Planted(Outcome(st, "", None, None), d, |d|, guids, recordGuid, form, upload, now, remote)
            == PlantStep(Outcome(Store(Waiting(st.requests, d, guids, |d| - 1, form, upload), st.records),
                                 Link(guids, |d| - 1), None, None),
                         d[|d| - 1], true, guids[|d| - 1], recordGuid, form, upload, now, remote)
  {
    PlantedPartials(st, d, |d| - 1, guids, recordGuid, form, upload, now, remote);
  }

  /** Inserting the submitted node before the waiting ones keeps every
    * chain closed. */
  lemma StartedKeepsClosed(s0: Requests, d: seq<RequestType>, guids: seq<string>, form: Form, upload: int, r: string)
    requires 0 < |d| <= |guids| && FreshGuids(s0, guids, |d| - 1)
    requires AllClosed(s0) && KeysMatch(s0)
    requires r !in guids[..|d| - 1] && Unreferenced(s0, r)
    requires r !in Waiting(s0, d, guids, |d| - 1, form, upload)
    ensures var s := Waiting(s0, d, guids, |d| - 1, form, upload)
                       [r := StartedNode(d[|d| - 1], r, form, upload, Link(guids, |d| - 1))];
            AllClosed(s) && KeysMatch(s)
  {
    var n := |d| - 1;
    WaitingKeepsClosed(s0, d, guids, n, form, upload);
    var w := Waiting(s0, d, guids, n, form, upload);
    var node := StartedNode(d[n], r, form, upload, Link(guids, n));
    if r != "" {
      assert forall i :: 0 <= i < n ==> guids[..n][i] != r;
      WaitingUnreferenced(s0, d, guids, n, form, upload, r);
      assert node.nextRequest != r;
      assert Closed(w, Link(guids, n)) by {
        if n > 0 {
          WaitingRow(s0, d, guids, n, form, upload, n - 1);
        }
      }
      AddingKeepsClosed(w, r, node);
    } else {
      EmptyKeyKeepsClosed(w, node);
    }
  }
}
