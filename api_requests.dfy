/** GeoMarkerAPIRequestService: the web application's side of a DeGauss job.
  * It polls the services for the status of stored requests, writes the
  * answers back, and moves a composite job along its chain: when one node
  * succeeds, its output is submitted as the input of the next. The services
  * are oracles: for each request type and GUID they give the answer the
  * typed client would. */
module ApiRequests {
  import opened Wrappers
  import opened Commands
  import opened Time
  import opened Text
  import opened WebModels
  import opened Repository
  import opened Metadata

  // -----------------------------------------------------------------------
  // The services, as oracles
  // -----------------------------------------------------------------------

  /** DeGaussAsyncResponse; a default one is Processing with an empty GUID. */
  datatype Response = Response(status: CommandStatus, guid: string)

  /** ValidationProblemDetails: the errors by field, and Detail. */
  datatype ProblemDetails = ProblemDetails(errors: seq<(string, seq<string>)>, detail: Option<string>)

  /** An ApiException: its status code, and its body read as problem
    * details (None when it does not deserialize to one). */
  datatype ApiError = ApiError(statusCode: int, problem: Option<ProblemDetails>)

  /** A status call: the response (None for a null one), an ApiException
    * or HttpRequestException, or any other exception. */
  datatype StatusReply = Replied(response: Option<Response>) | ClientError | StatusFault

  /** A result download: the file's text, a null FileResponse, or an
    * exception. */
  datatype FileReply = Downloaded(content: string) | NoFile | FileFault

  /** A start call: the response (None for a null one), or an exception,
    * with its details when it is an ApiException. */
  datatype StartReply = Started(response: Option<Response>) | StartFault(api: Option<ApiError>)

  /** The four typed clients, each keyed by the request type it serves and
    * the GUID sent. */
  datatype Remote = Remote(
    status: (RequestType, string) -> StatusReply,
    result: (RequestType, string) -> FileReply,
    start: (RequestType, string) -> StartReply)

  /** The two tables, as one value. */
  datatype Store = Store(requests: Requests, records: Records)

  // -----------------------------------------------------------------------
  // GetResultStatus, GetOutputFile, SubmitRequest
  // -----------------------------------------------------------------------

  /** The prefix each service puts before the input's name in its output. */
  function ResultPrefix(t: RequestType): (p: string)
    ensures p != "" <==> IsService(t)
  {
    match t
    case GeoCode => "geocoded_"
    case CensusBlockGroup => "census_block_group_"
    case DriveTime => "drivetime_"
    case DeprivationIndex => "dep_index_"
    case _ => ""
  }

  /** The prefixes tell the services apart. */
  lemma PrefixesDistinct(a: RequestType, b: RequestType)
    requires IsService(a) && IsService(b) && a != b
    ensures ResultPrefix(a) != ResultPrefix(b)
  {
  }

  /** DeGaussResultStatus. */
  datatype ResultStatus = ResultStatus(result: Option<Response>, prefix: string)

  /** GetResultStatus; None is the exception it rethrows. A type with no
    * client gets the default response and no prefix; a client error reads
    * as Unknown for the polled GUID, with no prefix either. */
  function GetResultStatus(t: RequestType, reply: StatusReply, guid: string): (r: Option<ResultStatus>)
    ensures r.None? <==> IsService(t) && reply.StatusFault?
    ensures !IsService(t) ==> r == Some(ResultStatus(Some(Response(Processing, "")), ""))
    ensures IsService(t) && reply.ClientError? ==>
              r == Some(ResultStatus(Some(Response(CommandStatus.Unknown, guid)), ""))
    ensures IsService(t) && reply.Replied? ==> r == Some(ResultStatus(reply.response, ResultPrefix(t)))
  {
    if !IsService(t) then Some(ResultStatus(Some(Response(Processing, "")), ""))
    else
      match reply
      case Replied(response) => Some(ResultStatus(response, ResultPrefix(t)))
      case ClientError => Some(ResultStatus(Some(Response(CommandStatus.Unknown, guid)), ""))
      case StatusFault => None
  }

  /** The type a request is sent to: its subtype when it is a composite
    * node. None is the empty name, on which Enum.Parse throws. */
  function ServiceType(r: UserRequest): Option<RequestType>
  {
    if r.requestType == Composite then r.requestSubType else Some(r.requestType)
  }

  /** GetOutputFile: the result of the request's service, a null result for
    * a type with no client, and an exception (FileFault) for an empty
    * subtype. */
  function GetOutputFile(r: UserRequest, remote: Remote): (f: FileReply)
    ensures ServiceType(r).None? ==> f == FileFault
    ensures ServiceType(r).Some? && !IsService(ServiceType(r).value) ==> f == NoFile
    ensures ServiceType(r).Some? && IsService(ServiceType(r).value) ==>
              f == remote.result(ServiceType(r).value, r.guid)
  {
    match ServiceType(r)
    case None => FileFault
    case Some(t) => if IsService(t) then remote.result(t, r.guid) else NoFile
  }

  /** What InvokeStartGetAsync returns for a type: the client's response,
    * or, for a type with no client, a default response carrying the "not
    * supported" message. Err is the exception the client threw. */
  function StartResult(t: RequestType, nextRequestGuid: string, remote: Remote): (r: Result<Option<Response>, Option<ApiError>>)
    ensures !IsService(t) ==> r == Ok(Some(Response(Processing, "")))
    ensures IsService(t) ==> (r.Err? <==> remote.start(t, nextRequestGuid).StartFault?)
  {
    if !IsService(t) then Ok(Some(Response(Processing, "")))
    else
      match remote.start(t, nextRequestGuid)
      case Started(response) => Ok(response)
      case StartFault(api) => Err(api)
  }

  /** SubmitRequest: whether a (non-null) response came back. Every
    * exception, including the one for an empty subtype, is caught and reads
    * as a null response. */
  function SubmitRequest(r: UserRequest, remote: Remote): (accepted: bool)
    ensures ServiceType(r).None? ==> !accepted
    ensures ServiceType(r).Some? && !IsService(ServiceType(r).value) ==> accepted
    ensures ServiceType(r).Some? && IsService(ServiceType(r).value) ==>
              (accepted <==> remote.start(ServiceType(r).value, r.guid).Started?
                             && remote.start(ServiceType(r).value, r.guid).response.Some?)
  {
    match ServiceType(r)
    case None => false
    case Some(t) => StartResult(t, r.guid, remote).Ok? && StartResult(t, r.guid, remote).value.Some?
  }

  /** "tmp/{guid}/{prefix}{input}" */
  function OutputFileName(guid: string, prefix: string, input: string): (name: string)
    ensures '/' !in prefix + input ==> FileNameOf(name) == prefix + input
  {
    var name := "tmp/" + guid + "/" + prefix + input;
    assert '/' !in prefix + input ==> FileNameOf(name) == prefix + input by {
      assert name == "tmp/" + guid + "/" + (prefix + input);
      if '/' !in prefix + input {
        FileNameAfterSlash("tmp/" + guid, prefix + input);
      }
    }
    name
  }

  lemma FileNameAfterSlash(d: string, n: string)
    requires '/' !in n
    ensures FileNameOf(d + "/" + n) == n
  {
    var p := d + "/" + n;
    assert p[|d|] == '/';
    LastSlashAt(p, |d|);
  }

  lemma LastSlashAt(p: string, k: nat)
    requires k < |p| && p[k] == '/' && forall i :: k < i < |p| ==> p[i] != '/'
    ensures FileNameOf(p) == p[k + 1..]
  {
    var r := LastIndexOf(p, '/');
    assert r >= k;
  }

  // -----------------------------------------------------------------------
  // One step of each sweep
  // -----------------------------------------------------------------------

  /** A step polls one listed request: it gives up (the exception the sweep
    * rethrows, after which nothing of this step has been saved), or gives
    * the new tables and the rows to drop from the caller's list. */
  datatype Step = Abort | Next(store: Store, removed: seq<string>)

  /** A status after which the job does not run any more. */
  predicate Finished(st: CommandStatus)
  {
    st != Processing && st != Queued
  }

  /** The body of the loop of RefreshUserRequests, for the request `g`. */
  function BatchStep(st: Store, g: string, remote: Remote, now: int): (r: Step)
    requires g in st.requests
    ensures r.Next? ==>
              (r.removed == [] && SameLinks(st.requests, r.store.requests))
              || (r.removed == [g] && r.store.requests == st.requests - {g})
  {
    var request := st.requests[g];
    var t := request.requestType;
    match GetResultStatus(t, remote.status(t, g), g)
    case None => Abort
    case Some(rs) =>
      if rs.result.None? then Next(st, [])
      else
        var result := rs.result.value;
        if result.status == Removed then Next(st.(requests := st.requests - {g}), [g])
        else if result.status == request.status then Next(st, [])
        else if !Finished(result.status) then
          Next(st.(requests := st.requests[g := request.(status := result.status)]), [])
        else
          var done := request.(completedTime := Some(now), status := result.status);
          if result.status == Success then
            var output := OutputFileName(g, rs.prefix, request.inputFileName);
            Next(Store(st.requests[g := done.(outputFileName := output)],
                       AfterComplete(st.records, result.guid, now, None)), [])
          else if result.status == Failure then
            Next(Store(st.requests[g := done], AfterFail(st.records, g, now)), [])
          else
            Next(st.(requests := st.requests[g := done]), [])
  }

  /** A composite node that is not polled: still waiting for its turn, or
    * finished but without a completion time. */
  predicate Skipped(r: UserRequest)
  {
    r.status == Requested || (Finished(r.status) && r.completedTime.None?)
  }

  /** ProcessChainedRequest, on the tables: `request` is the node that has
    * just succeeded, with its unsaved edits, and `content` its output. None
    * is the exception it rethrows. The save inside AddRecordsProcessed also
    * writes the pending edits of both rows. */
  function ChainedRequest(st: Store, fileName: string, request: UserRequest, content: string,
                          remote: Remote, now: int): (r: Option<Store>)
    ensures request.nextRequest !in st.requests ==> r == Some(st)
  {
    var nextGuid := request.nextRequest;
    if nextGuid !in st.requests then Some(st)
    else
      var next := st.requests[nextGuid].(inputFileName := FileNameOf(fileName));
      var accepted := SubmitRequest(next, remote);
      if next.requestSubType.None? then None
      else
        match AfterAdd(st.records, NextCriteria(nextGuid, request, next, content, now), nextGuid)
        case Err(_) => None
        case Ok(records) =>
          var s1 := st.requests[request.guid := request][nextGuid := next];
          if accepted then Some(Store(s1[nextGuid := next.(status := Processing)], records))
          else Some(Store(Stamped(s1, Chain(s1, nextGuid), Failure)[nextGuid := next.(status := Failure)], records))
  }

  /** The metadata record ProcessChainedRequest adds for the next node. */
  function NextCriteria(nextGuid: string, request: UserRequest, next: UserRequest, content: string, now: int): Criteria
  {
    Criteria(nextGuid, request.userId, Some(content), next.requestSubType, 0, now, MinValue, Ui, None)
  }

  /** After a composite node succeeded: when its next node exists and is
    * still Requested, fetch the output and hand it on. */
  function Advance(st: Store, done: UserRequest, remote: Remote, now: int): (r: Option<Store>)
    ensures done.nextRequest == "" ==> r == Some(st)
  {
    if done.nextRequest == "" then Some(st)
    else
      match GetUserRequest(st.requests, done.nextRequest)
      case None => Some(st)
      case Some(next) =>
        if next.status != Requested then Some(st)
        else
          match GetOutputFile(done, remote)
          case FileFault => None
          case NoFile => Some(st)
          case Downloaded(content) => ChainedRequest(st, done.outputFileName, done, content, remote, now)
  }

  /** `request` is a stored row, perhaps with unsaved edits, but with its
    * own GUID and link. */
  predicate LinkKept(s: Requests, request: UserRequest)
  {
    request.guid in s && s[request.guid].nextRequest == request.nextRequest && s[request.guid].guid == request.guid
  }

  lemma EditKeepsLinks(s: Requests, r: UserRequest)
    requires LinkKept(s, r)
    ensures SameLinks(s, s[r.guid := r])
  {
  }

  lemma SameLinksTrans(a: Requests, b: Requests, c: Requests)
    requires SameLinks(a, b) && SameLinks(b, c)
    ensures SameLinks(a, c)
  {
  }

  lemma SameLinksKeysMatch(a: Requests, b: Requests)
    requires SameLinks(a, b) && KeysMatch(a)
    ensures KeysMatch(b)
  {
  }

  /** Handing on to the next node edits rows, never links. */
  lemma ChainedRequestKeepsLinks(st: Store, fileName: string, request: UserRequest, content: string,
                                 remote: Remote, now: int)
    requires LinkKept(st.requests, request) && KeysMatch(st.requests)
    requires ChainedRequest(st, fileName, request, content, remote, now).Some?
    ensures SameLinks(st.requests, ChainedRequest(st, fileName, request, content, remote, now).value.requests)
  {
    var nextGuid := request.nextRequest;
    if nextGuid in st.requests {
      var next := st.requests[nextGuid].(inputFileName := FileNameOf(fileName));
      var s0 := st.requests[request.guid := request];
      var s1 := s0[nextGuid := next];
      EditKeepsLinks(st.requests, request);
      assert LinkKept(s0, next);
      EditKeepsLinks(s0, next);
      SameLinksTrans(st.requests, s0, s1);
      if SubmitRequest(next, remote) {
        EditKeepsLinks(s1, next.(status := Processing));
        SameLinksTrans(st.requests, s1, s1[nextGuid := next.(status := Processing)]);
      } else {
        var s2 := Stamped(s1, Chain(s1, nextGuid), Failure);
        StampedKeepsLinks(s1, Chain(s1, nextGuid), Failure);
        SameLinksTrans(st.requests, s1, s2);
        EditKeepsLinks(s2, next.(status := Failure));
        SameLinksTrans(st.requests, s2, s2[nextGuid := next.(status := Failure)]);
      }
    }
  }

  lemma AdvanceKeepsLinks(st: Store, done: UserRequest, remote: Remote, now: int)
    requires LinkKept(st.requests, done) && KeysMatch(st.requests)
    requires Advance(st, done, remote, now).Some?
    ensures SameLinks(st.requests, Advance(st, done, remote, now).value.requests)
  {
    if done.nextRequest != "" && GetUserRequest(st.requests, done.nextRequest).Some?
       && st.requests[done.nextRequest].status == Requested && GetOutputFile(done, remote).Downloaded? {
      ChainedRequestKeepsLinks(st, done.outputFileName, done, GetOutputFile(done, remote).content, remote, now);
    }
  }

  /** The body of the loop of RefreshCompositeRequests, for the node `g`. A
    * node the sweep has already deleted, with a chain it reached earlier,
    * is passed over. */
  function CompositeStep(st: Store, g: string, remote: Remote, now: int): (r: Step)
    ensures g !in st.requests ==> r == Next(st, [])
    ensures g in st.requests && st.requests[g].requestSubType.None? ==> r.Abort?
  {
    if g !in st.requests then Next(st, [])
    else
      var request := st.requests[g];
      if request.requestSubType.None? then Abort
      else
        var t := request.requestSubType.value;
        match GetResultStatus(t, remote.status(t, g), g)
        case None => Abort
        case Some(rs) =>
          if rs.result.None? || Skipped(request) then Next(st, [])
          else CompositeAnswer(st, g, rs.result.value, rs.prefix, remote, now)
  }

  /** What a polled answer does to the node `g` and its chain. */
  function CompositeAnswer(st: Store, g: string, result: Response, prefix: string, remote: Remote, now: int): (r: Step)
    requires g in st.requests
    ensures result.status == st.requests[g].status && result.status != Removed ==> r == Next(st, [])
    ensures r.Next? && result.status != Removed ==> r.removed == []
    ensures result.status == Removed ==> r.Next? && r.removed == Chain(st.requests, g)
  {
    var request := st.requests[g];
    if result.status == Removed then
      Next(st.(requests := Without(st.requests, Chain(st.requests, g))), Chain(st.requests, g))
    else if result.status == request.status then Next(st, [])
    else if !Finished(result.status) then
      Next(st.(requests := st.requests[g := request.(status := result.status)]), [])
    else if result.status == Success then Succeeded(st, g, result.guid, prefix, remote, now)
    else
      var s1 := st.requests[g := request.(completedTime := Some(now))];
      Next(Store(Stamped(s1, Chain(s1, g), result.status), AfterFail(st.records, g, now)), [])
  }

  /** The node that has just finished with Success: its output is handed on
    * to the next node, then its metrics record completes and its row takes
    * the new status. */
  function Succeeded(st: Store, g: string, resultGuid: string, prefix: string, remote: Remote, now: int): (r: Step)
    requires g in st.requests
    ensures r.Next? ==> r.removed == [] && g in r.store.requests
    ensures r.Next? ==> r.store.requests[g].status == Success && r.store.requests[g].completedTime == Some(now)
  {
    var request := st.requests[g];
    var done := request.(completedTime := Some(now),
                         outputFileName := OutputFileName(g, prefix, request.inputFileName));
    match Advance(st, done, remote, now)
    case None => Abort
    case Some(st1) =>
      Next(Store(st1.requests[g := done.(status := Success)], AfterComplete(st1.records, resultGuid, now, None)), [])
  }

  // -----------------------------------------------------------------------
  // The sweeps
  // -----------------------------------------------------------------------

  /** The outcome of a sweep: the tables, the rows to drop from the list,
    * and whether it ended in an exception. */
  datatype Sweep = Sweep(store: Store, removed: seq<string>, aborted: bool)

  /** No GUID twice, as in a list read from the table. */
  predicate Distinct(list: seq<string>)
  {
    forall i, j :: 0 <= i < j < |list| ==> list[i] != list[j]
  }

  /** Pairwise distinct GUIDs, each a row of the store. */
  predicate Listed(s: Requests, list: seq<string>)
  {
    (forall i :: 0 <= i < |list| ==> list[i] in s) && Distinct(list)
  }

  /** RefreshUserRequests over `list`, having already dropped `removed`. */
  function BatchRun(st: Store, removed: seq<string>, list: seq<string>, remote: Remote, now: int): (r: Sweep)
    requires Listed(st.requests, list)
    ensures removed <= r.removed
    decreases |list|
  {
    if list == [] then Sweep(st, removed, false)
    else
      match BatchStep(st, list[0], remote, now)
      case Abort => Sweep(st, removed, true)
      case Next(st1, rem) =>
        assert Listed(st1.requests, list[1..]) by {
          forall i | 0 <= i < |list[1..]|
            ensures list[1..][i] in st1.requests
          {
            assert list[1..][i] == list[i + 1] != list[0];
          }
        }
        BatchRun(st1, removed + rem, list[1..], remote, now)
  }

  /** One step of BatchRun, when the first request does not abort the
    * sweep. */
  lemma BatchRunStep(st: Store, removed: seq<string>, list: seq<string>, remote: Remote, now: int)
    requires Listed(st.requests, list) && list != []
    requires BatchStep(st, list[0], remote, now).Next?
    ensures Listed(BatchStep(st, list[0], remote, now).store.requests, list[1..])
    ensures var step := BatchStep(st, list[0], remote, now);
            BatchRun(st, removed, list, remote, now)
            == BatchRun(step.store, removed + step.removed, list[1..], remote, now)
  {
    var step := BatchStep(st, list[0], remote, now);
    forall i | 0 <= i < |list[1..]|
      ensures list[1..][i] in step.store.requests
    {
      assert list[1..][i] == list[i + 1] != list[0];
    }
  }

  /** RefreshCompositeRequests over `list`, having already dropped
    * `removed`. */
  function CompositeRun(st: Store, removed: seq<string>, list: seq<string>, remote: Remote, now: int): (r: Sweep)
    ensures removed <= r.removed
    decreases |list|
  {
    if list == [] then Sweep(st, removed, false)
    else
      match CompositeStep(st, list[0], remote, now)
      case Abort => Sweep(st, removed, true)
      case Next(st1, rem) => CompositeRun(st1, removed + rem, list[1..], remote, now)
  }

  /** List.Remove: drop the first occurrence. */
  function RemoveFirst(list: seq<string>, x: string): (r: seq<string>)
    ensures x !in list ==> r == list
    ensures x in list ==> |r| == |list| - 1
  {
    if list == [] then []
    else if list[0] == x then list[1..]
    else [list[0]] + RemoveFirst(list[1..], x)
  }

  /** The caller's list after `foreach (r in removed) list.Remove(r)`. */
  function RemoveEach(list: seq<string>, removed: seq<string>): seq<string>
    decreases |removed|
  {
    if removed == [] then list else RemoveEach(RemoveFirst(list, removed[0]), removed[1..])
  }

  /** The elements of `list` not in `removed`, in order. */
  function Keep(list: seq<string>, removed: seq<string>): (r: seq<string>)
    ensures forall x :: x in r <==> x in list && x !in removed
  {
    if list == [] then []
    else if list[0] in removed then Keep(list[1..], removed)
    else [list[0]] + Keep(list[1..], removed)
  }

  class GeoMarkerApiRequestService {
    const db: UserRequestsDbContext
    const repository: UserRequestRepository
    const metadata: MetadataService

    constructor(db: UserRequestsDbContext, repository: UserRequestRepository, metadata: MetadataService)
      requires repository.db == db && metadata.db == db
      ensures this.db == db && this.repository == repository && this.metadata == metadata
      ensures Wired()
    {
      this.db := db;
      this.repository := repository;
      this.metadata := metadata;
    }

    /** The repository and the metadata service work on this service's
      * context. */
    predicate Wired()
    {
      repository.db == db && metadata.db == db
    }

    /** InvokeStartGetAsync: for a composite job, a start that throws first
      * deletes the chain from `guid`. */
    method InvokeStartGetAsync(t: RequestType, guid: string, nextRequestGuid: string, isComposite: bool,
                               remote: Remote)
      returns (r: Result<Option<Response>, Option<ApiError>>)
      requires Wired()
      modifies db
      ensures r == StartResult(t, nextRequestGuid, remote)
      ensures db.requests == if r.Err? && isComposite then Without(old(db.requests), Chain(old(db.requests), guid))
                             else old(db.requests)
      ensures db.records == old(db.records)
    {
      if !IsService(t) {
        return Ok(Some(Response(Processing, "")));
      }
      match remote.start(t, nextRequestGuid)
      case Started(response) =>
        r := Ok(response);
      case StartFault(api) =>
        if isComposite {
          var _ := repository.DeleteRequestChain(guid);
        }
        r := Err(api);
    }

    /** One pass of the loop of RefreshUserRequests. */
    method RefreshUserRequest(g: string, remote: Remote, now: int) returns (removed: seq<string>, aborted: bool)
      requires Wired() && g in db.requests
      modifies db
      ensures BatchStep(old(Store(db.requests, db.records)), g, remote, now)
              == if aborted then Abort else Next(Store(db.requests, db.records), removed)
      ensures aborted ==> db.requests == old(db.requests) && db.records == old(db.records)
    {
      var request := db.requests[g];
      var t := request.requestType;
      var resultStatus := GetResultStatus(t, remote.status(t, g), g);
      if resultStatus.None? {
        return [], true;
      }
      var rs := resultStatus.value;
      if rs.result.None? {
        return [], false;
      }
      var result := rs.result.value;
      if result.status == Removed {
        db.requests := db.requests - {g};
        return [g], false;
      }
      if result.status != request.status {
        if result.status != Processing && result.status != Queued {
          request := request.(completedTime := Some(now));
          if result.status == Success {
            request := request.(outputFileName := OutputFileName(g, rs.prefix, request.inputFileName));
            metadata.CompleteRecordsProcessed(result.guid, now, None);
          } else if result.status == Failure {
            metadata.FailRecordsProcessed(g, now);
          }
        }
        request := request.(status := result.status);
        db.requests := db.requests[g := request];
      }
      return [], false;
    }

    /** RefreshUserRequests: poll each listed request, write back what
      * changed, and drop the removed ones from the list. An exception
      * leaves the list as it was. */
    method RefreshUserRequests(list: seq<string>, remote: Remote, now: int)
      returns (list': seq<string>, aborted: bool)
      requires Wired() && Listed(db.requests, list)
      modifies db
      ensures var r := BatchRun(old(Store(db.requests, db.records)), [], list, remote, now);
              Store(db.requests, db.records) == r.store && aborted == r.aborted
              && list' == if aborted then list else RemoveEach(list, r.removed)
    {
      ghost var st0 := Store(db.requests, db.records);
      var requestsToRemove: seq<string> := [];
      var i := 0;
      while i < |list|
        invariant 0 <= i <= |list|
        invariant Listed(db.requests, list[i..])
        invariant BatchRun(Store(db.requests, db.records), requestsToRemove, list[i..], remote, now)
                  == BatchRun(st0, [], list, remote, now)
      {
        ghost var before := Store(db.requests, db.records);
        assert list[i..][0] == list[i] && list[i..][1..] == list[i + 1..];
        var removed, failed := RefreshUserRequest(list[i], remote, now);
        if failed {
          return list, true;
        }
        BatchRunStep(before, requestsToRemove, list[i..], remote, now);
        requestsToRemove := requestsToRemove + removed;
        i := i + 1;
      }
      list' := RemoveAll(list, requestsToRemove);
      aborted := false;
    }

    /** The loop of the composite sweep that follows a successful node: it
      * writes the node's edits first, since its own save flushes them. */
    method ProcessChainedRequest(fileName: string, request: UserRequest, content: string, remote: Remote, now: int)
      returns (aborted: bool)
      requires Wired() && AllClosed(db.requests) && KeysMatch(db.requests) && LinkKept(db.requests, request)
      modifies db
      ensures ChainedRequest(old(Store(db.requests, db.records)), fileName, request, content, remote, now)
              == if aborted then None else Some(Store(db.requests, db.records))
      ensures aborted ==> db.requests == old(db.requests) && db.records == old(db.records)
    {
      var nextGuid := request.nextRequest;
      if nextGuid !in db.requests {
        return false;
      }
      var next := db.requests[nextGuid];
      next := next.(inputFileName := FileNameOf(fileName));
      var accepted := SubmitRequest(next, remote);
      if next.requestSubType.None? {
        return true;
      }
      var error := metadata.AddRecordsProcessed(NextCriteria(nextGuid, request, next, content, now), nextGuid);
      if error.Some? {
        return true;
      }
      ghost var s0 := db.requests;
      db.requests := db.requests[request.guid := request];
      EditKeepsLinks(s0, request);
      ghost var s1 := db.requests;
      db.requests := db.requests[nextGuid := next];
      assert LinkKept(s1, next);
      EditKeepsLinks(s1, next);
      SameLinksTrans(s0, s1, db.requests);
      if accepted {
        db.requests := db.requests[nextGuid := next.(status := Processing)];
      } else {
        SameLinksKeepClosed(s0, db.requests);
        repository.ApplyStatusToRequestChain(nextGuid, Failure);
        db.requests := db.requests[nextGuid := next.(status := Failure)];
      }
      return false;
    }

    /** The hand-over after a composite node succeeded: `done` is the node
      * with its unsaved edits. */
    method AdvanceChain(done: UserRequest, remote: Remote, now: int) returns (aborted: bool)
      requires Wired() && AllClosed(db.requests) && KeysMatch(db.requests) && LinkKept(db.requests, done)
      modifies db
      ensures Advance(old(Store(db.requests, db.records)), done, remote, now)
              == if aborted then None else Some(Store(db.requests, db.records))
      ensures aborted ==> db.requests == old(db.requests) && db.records == old(db.records)
    {
      if done.nextRequest == "" {
        return false;
      }
      var next := GetUserRequest(db.requests, done.nextRequest);
      if next.None? || next.value.status != Requested {
        return false;
      }
      var outputFile := GetOutputFile(done, remote);
      if outputFile.FileFault? {
        return true;
      }
      if outputFile.NoFile? {
        return false;
      }
      aborted := ProcessChainedRequest(done.outputFileName, done, outputFile.content, remote, now);
    }

    /** A terminal status other than Success: the node's completion time is
      * saved with the status stamped down its chain, and its record fails. */
    method FailChain(request: UserRequest, status: CommandStatus, now: int)
      requires Wired() && AllClosed(db.requests) && KeysMatch(db.requests) && LinkKept(db.requests, request)
      modifies db
      ensures var s1 := old(db.requests)[request.guid := request];
              db.requests == Stamped(s1, Chain(s1, request.guid), status)
      ensures db.records == AfterFail(old(db.records), request.guid, now)
    {
      ghost var s0 := db.requests;
      db.requests := db.requests[request.guid := request];
      EditKeepsLinks(s0, request);
      SameLinksKeepClosed(s0, db.requests);
      repository.ApplyStatusToRequestChain(request.guid, status);
      metadata.FailRecordsProcessed(request.guid, now);
    }

    /** One pass of the loop of RefreshCompositeRequests. */
    method RefreshCompositeRequest(g: string, remote: Remote, now: int) returns (removed: seq<string>, aborted: bool)
      requires Wired() && AllClosed(db.requests) && KeysMatch(db.requests)
      modifies db
      ensures CompositeStep(old(Store(db.requests, db.records)), g, remote, now)
              == if aborted then Abort else Next(Store(db.requests, db.records), removed)
      ensures aborted ==> db.requests == old(db.requests) && db.records == old(db.records)
    {
      if g !in db.requests {
        return [], false;
      }
      var request := db.requests[g];
      if request.requestSubType.None? {
        return [], true;
      }
      var t := request.requestSubType.value;
      var resultStatus := GetResultStatus(t, remote.status(t, g), g);
      if resultStatus.None? {
        return [], true;
      }
      var rs := resultStatus.value;
      if rs.result.None? || request.status == Requested
         || (request.status != Processing && request.status != Queued && request.completedTime.None?) {
        return [], false;
      }
      var result := rs.result.value;
      if result.status == Removed {
        GuidsOfChain(db.requests, g);
        var rows := repository.DeleteRequestChain(g);
        return GuidsOf(rows), false;
      }
      if result.status == request.status {
        return [], false;
      }
      if result.status == Processing || result.status == Queued {
        db.requests := db.requests[g := request.(status := result.status)];
        return [], false;
      }
      request := request.(completedTime := Some(now));
      if result.status != Success {
        FailChain(request, result.status, now);
        return [], false;
      }
      request := request.(outputFileName := OutputFileName(g, rs.prefix, request.inputFileName));
      aborted := AdvanceChain(request, remote, now);
      if aborted {
        return [], true;
      }
      metadata.CompleteRecordsProcessed(result.guid, now, None);
      db.requests := db.requests[g := request.(status := Success)];
      return [], false;
    }

    /** RefreshCompositeRequests: poll each listed node, advance or stop
      * its chain, and drop the deleted nodes from the list. An exception
      * leaves the list as it was. */
    method RefreshCompositeRequests(list: seq<string>, remote: Remote, now: int)
      returns (list': seq<string>, aborted: bool)
      requires Wired() && AllClosed(db.requests) && KeysMatch(db.requests)
      modifies db
      ensures var r := CompositeRun(old(Store(db.requests, db.records)), [], list, remote, now);
              Store(db.requests, db.records) == r.store && aborted == r.aborted
              && list' == if aborted then list else RemoveEach(list, r.removed)
      ensures AllClosed(db.requests) && KeysMatch(db.requests)
    {
      ghost var st0 := Store(db.requests, db.records);
      var requestsToRemove: seq<string> := [];
      var i := 0;
      while i < |list|
        invariant 0 <= i <= |list|
        invariant AllClosed(db.requests) && KeysMatch(db.requests)
        invariant CompositeRun(Store(db.requests, db.records), requestsToRemove, list[i..], remote, now)
                  == CompositeRun(st0, [], list, remote, now)
      {
        ghost var before := Store(db.requests, db.records);
        assert list[i..][0] == list[i] && list[i..][1..] == list[i + 1..];
        var removed, failed := RefreshCompositeRequest(list[i], remote, now);
        if failed {
          return list, true;
        }
        CompositeStepKeepsClosed(before, list[i], remote, now);
        requestsToRemove := requestsToRemove + removed;
        i := i + 1;
      }
      list' := RemoveAll(list, requestsToRemove);
      aborted := false;
    }
  }

  /** `foreach (var request in requestsToRemove) requests.Remove(request)` */
  method RemoveAll(list: seq<string>, removed: seq<string>) returns (r: seq<string>)
    ensures r == RemoveEach(list, removed)
  {
    r := list;
    var j := 0;
    while j < |removed|
      invariant 0 <= j <= |removed|
      invariant RemoveEach(r, removed[j..]) == RemoveEach(list, removed)
    {
      assert removed[j..][0] == removed[j] && removed[j..][1..] == removed[j + 1..];
      r := RemoveFirst(r, removed[j]);
      j := j + 1;
    }
  }

  /** Rows kept under their own GUIDs give back the chain they were read
    * along. */
  lemma GuidsOfChain(s: Requests, g: string)
    requires KeysMatch(s)
    ensures GuidsOf(Rows(s, Chain(s, g))) == Chain(s, g)
  {
  }

  /** On a list without repeats, removing each dropped GUID in turn keeps
    * exactly the others, in their order. */
  lemma {:induction false} RemoveEachIsKeep(list: seq<string>, removed: seq<string>)
    requires Distinct(list)
    ensures RemoveEach(list, removed) == Keep(list, removed)
    decreases |removed|
  {
    if removed != [] {
      RemoveFirstIsKeep(list, removed[0]);
      KeepDistinct(list, [removed[0]]);
      RemoveEachIsKeep(RemoveFirst(list, removed[0]), removed[1..]);
      KeepKeep(list, [removed[0]], removed[1..]);
      assert [removed[0]] + removed[1..] == removed;
    } else {
      KeepNone(list, removed);
    }
  }

  lemma {:induction false} RemoveFirstIsKeep(list: seq<string>, x: string)
    requires Distinct(list)
    ensures RemoveFirst(list, x) == Keep(list, [x])
  {
    if list != [] {
      assert Distinct(list[1..]) by {
        forall i, j | 0 <= i < j < |list[1..]|
          ensures list[1..][i] != list[1..][j]
        {
          assert list[1..][i] == list[i + 1] && list[1..][j] == list[j + 1];
        }
      }
      if list[0] == x {
        KeepNone(list[1..], [x]);
      } else {
        RemoveFirstIsKeep(list[1..], x);
      }
    }
  }

  lemma {:induction false} KeepNone(list: seq<string>, removed: seq<string>)
    requires forall i :: 0 <= i < |list| ==> list[i] !in removed
    ensures Keep(list, removed) == list
  {
    if list != [] {
      KeepNone(list[1..], removed);
    }
  }

  lemma {:induction false} KeepKeep(list: seq<string>, a: seq<string>, b: seq<string>)
    ensures Keep(Keep(list, a), b) == Keep(list, a + b)
  {
    if list != [] {
      KeepKeep(list[1..], a, b);
    }
  }

  lemma {:induction false} KeepDistinct(list: seq<string>, removed: seq<string>)
    requires Distinct(list)
    ensures Distinct(Keep(list, removed))
  {
    if list != [] {
      assert Distinct(list[1..]) by {
        forall i, j | 0 <= i < j < |list[1..]|
          ensures list[1..][i] != list[1..][j]
        {
          assert list[1..][i] == list[i + 1] && list[1..][j] == list[j + 1];
        }
      }
      KeepDistinct(list[1..], removed);
      assert list[0] !in list[1..];
    }
  }

  /** The GUIDs of rows, in order. */
  function GuidsOf(rows: seq<UserRequest>): (r: seq<string>)
    ensures |r| == |rows| && forall i :: 0 <= i < |rows| ==> r[i] == rows[i].guid
  {
    if rows == [] then [] else [rows[0].guid] + GuidsOf(rows[1..])
  }

  // -----------------------------------------------------------------------
  // Properties of the sweeps
  // -----------------------------------------------------------------------

  /** A composite step edits rows without touching their links, and drops
    * nothing, or deletes the whole chain from the polled node and drops
    * exactly that chain; either way every chain stays closed and every row
    * under its own GUID. */
  lemma CompositeStepKeepsClosed(st: Store, g: string, remote: Remote, now: int)
    requires AllClosed(st.requests) && KeysMatch(st.requests)
    requires CompositeStep(st, g, remote, now).Next?
    ensures var r := CompositeStep(st, g, remote, now);
            (r.removed == [] && SameLinks(st.requests, r.store.requests))
            || (r.removed == Chain(st.requests, g) && r.store.requests == Without(st.requests, Chain(st.requests, g)))
    ensures var st' := CompositeStep(st, g, remote, now).store;
            AllClosed(st'.requests) && KeysMatch(st'.requests)
  {
    if g in st.requests {
      var s := st.requests;
      var request := s[g];
      var t := request.requestSubType.value;
      var rs := GetResultStatus(t, remote.status(t, g), g).value;
      if rs.result.None? || Skipped(request) {
      } else if rs.result.value.status == Removed {
        WalksKeepClosed(s, g, Removed);
      } else if rs.result.value.status == request.status {
      } else if !Finished(rs.result.value.status) {
        EditKeepsLinks(s, request.(status := rs.result.value.status));
        SameLinksKeepClosed(s, s[g := request.(status := rs.result.value.status)]);
      } else if rs.result.value.status == Success {
        var done := request.(completedTime := Some(now),
                             outputFileName := OutputFileName(g, rs.prefix, request.inputFileName));
        var st1 := Advance(st, done, remote, now).value;
        AdvanceKeepsLinks(st, done, remote, now);
        EditKeepsLinks(st1.requests, done.(status := Success));
        SameLinksTrans(s, st1.requests, st1.requests[g := done.(status := Success)]);
        SameLinksKeepClosed(s, st1.requests[g := done.(status := Success)]);
      } else {
        var s1 := s[g := request.(completedTime := Some(now))];
        EditKeepsLinks(s, request.(completedTime := Some(now)));
        StampedKeepsLinks(s1, Chain(s1, g), rs.result.value.status);
        SameLinksTrans(s, s1, Stamped(s1, Chain(s1, g), rs.result.value.status));
        SameLinksKeepClosed(s, Stamped(s1, Chain(s1, g), rs.result.value.status));
      }
    }
  }

  /** The GUIDs a batch run adds to those already dropped are listed ones,
    * and exactly the rows it deleted. */
  lemma {:induction false} BatchRunDrops(st: Store, removed: seq<string>, list: seq<string>, remote: Remote, now: int)
    requires Listed(st.requests, list)
    ensures var r := BatchRun(st, removed, list, remote, now);
            |removed| <= |r.removed| && r.removed[..|removed|] == removed
            && (forall x :: x in r.removed[|removed|..] ==> x in list)
            && r.store.requests.Keys == st.requests.Keys - (set x | x in r.removed[|removed|..])
    decreases |list|
  {
    if list != [] {
      match BatchStep(st, list[0], remote, now)
      case Abort =>
      case Next(st1, rem) =>
        assert Listed(st1.requests, list[1..]) by {
          forall i | 0 <= i < |list[1..]|
            ensures list[1..][i] in st1.requests
          {
            assert list[1..][i] == list[i + 1] != list[0];
          }
        }
        BatchRunDrops(st1, removed + rem, list[1..], remote, now);
        SplitDrops(removed, rem, BatchRun(st1, removed + rem, list[1..], remote, now).removed);
    } else {
      assert BatchRun(st, removed, list, remote, now).removed[|removed|..] == [];
    }
  }

  /** The GUIDs a composite run adds to those already dropped are rows of
    * the store it started from, and exactly the rows it deleted. */
  lemma {:induction false} CompositeRunDrops(st: Store, removed: seq<string>, list: seq<string>, remote: Remote, now: int)
    requires AllClosed(st.requests) && KeysMatch(st.requests)
    ensures var r := CompositeRun(st, removed, list, remote, now);
            |removed| <= |r.removed| && r.removed[..|removed|] == removed
            && (forall x :: x in r.removed[|removed|..] ==> x in st.requests)
            && r.store.requests.Keys == st.requests.Keys - (set x | x in r.removed[|removed|..])
    decreases |list|
  {
    if list != [] {
      var step := CompositeStep(st, list[0], remote, now);
      if step.Next? {
        var st1, rem := step.store, step.removed;
        CompositeStepDrops(st, list[0], remote, now);
        CompositeRunDrops(st1, removed + rem, list[1..], remote, now);
        SplitDrops(removed, rem, CompositeRun(st1, removed + rem, list[1..], remote, now).removed);
      }
    } else {
      assert CompositeRun(st, removed, list, remote, now).removed[|removed|..] == [];
    }
  }

  lemma SplitDrops(removed: seq<string>, rem: seq<string>, all: seq<string>)
    requires |removed + rem| <= |all| && all[..|removed + rem|] == removed + rem
    ensures |removed| <= |all| && all[..|removed|] == removed
    ensures all[|removed|..] == rem + all[|removed + rem|..]
    ensures (set x | x in all[|removed|..]) == (set x | x in rem) + (set x | x in all[|removed + rem|..])
  {
    assert all[..|removed|] == (all[..|removed + rem|])[..|removed|];
    assert all[|removed|..] == rem + all[|removed + rem|..];
  }

  lemma CompositeStepDrops(st: Store, g: string, remote: Remote, now: int)
    requires AllClosed(st.requests) && KeysMatch(st.requests)
    requires CompositeStep(st, g, remote, now).Next?
    ensures var r := CompositeStep(st, g, remote, now);
            r.store.requests.Keys == st.requests.Keys - (set x | x in r.removed)
            && (forall x :: x in r.removed ==> x in st.requests)
            && AllClosed(r.store.requests) && KeysMatch(r.store.requests)
  {
    CompositeStepKeepsClosed(st, g, remote, now);
    WithoutIsRemoval(st.requests, Chain(st.requests, g));
  }

  /** After a batch sweep that did not throw, the list holds, in order,
    * exactly the listed requests whose rows are still stored. */
  lemma BatchListFollowsStore(st: Store, list: seq<string>, remote: Remote, now: int)
    requires Listed(st.requests, list)
    ensures var r := BatchRun(st, [], list, remote, now);
            !r.aborted ==>
              RemoveEach(list, r.removed) == Keep(list, r.removed)
              && forall x :: x in RemoveEach(list, r.removed) <==> x in list && x in r.store.requests
  {
    BatchRunDrops(st, [], list, remote, now);
    RemoveEachIsKeep(list, BatchRun(st, [], list, remote, now).removed);
  }

  /** After a composite sweep that did not throw, the list holds, in order,
    * exactly the listed nodes whose rows are still stored; the rows gone
    * are those of the chains the services reported removed. */
  lemma CompositeListFollowsStore(st: Store, list: seq<string>, remote: Remote, now: int)
    requires AllClosed(st.requests) && KeysMatch(st.requests) && Listed(st.requests, list)
    ensures var r := CompositeRun(st, [], list, remote, now);
            r.store.requests.Keys == st.requests.Keys - (set x | x in r.removed)
            && (!r.aborted ==>
                  RemoveEach(list, r.removed) == Keep(list, r.removed)
                  && forall x :: x in RemoveEach(list, r.removed) <==> x in list && x in r.store.requests)
  {
    CompositeRunDrops(st, [], list, remote, now);
    RemoveEachIsKeep(list, CompositeRun(st, [], list, remote, now).removed);
  }

  // -----------------------------------------------------------------------
  // What one poll does
  // -----------------------------------------------------------------------

  /** The answer the service gives for `g` under `t`, when there is one. */
  function Answer(t: RequestType, g: string, remote: Remote): Option<Response>
  {
    var rs := GetResultStatus(t, remote.status(t, g), g);
    if rs.Some? then rs.value.result else None
  }

  /** In the batch sweep an answer other than Removed ends up in the
    * request's row and nowhere else; a new terminal answer also stamps the
    * completion time, an unchanged one changes nothing, and only Success
    * and Failure touch the metrics. */
  lemma BatchPollWritesAnswer(st: Store, g: string, remote: Remote, now: int)
    requires g in st.requests
    requires var t := st.requests[g].requestType;
             Answer(t, g, remote).Some? && Answer(t, g, remote).value.status != Removed
    ensures var answer := Answer(st.requests[g].requestType, g, remote).value.status;
            var r := BatchStep(st, g, remote, now);
            r.Next? && r.removed == [] && r.store.requests.Keys == st.requests.Keys
            && r.store.requests[g].status == answer
            && (forall h :: h in st.requests && h != g ==> r.store.requests[h] == st.requests[h])
            && (answer == st.requests[g].status ==> r.store == st)
            && (answer != st.requests[g].status && Finished(answer) ==>
                  r.store.requests[g].completedTime == Some(now))
            && (answer != Success && answer != Failure ==> r.store.records == st.records)
  {
  }

  /** A new Success in the batch sweep stores the output path built from
    * the service's prefix and completes the answer's metrics record; a new
    * Failure fails the request's own record. */
  lemma BatchPollFinishes(st: Store, g: string, remote: Remote, now: int)
    requires g in st.requests
    requires var t := st.requests[g].requestType;
             Answer(t, g, remote).Some? && Answer(t, g, remote).value.status != st.requests[g].status
    ensures var t := st.requests[g].requestType;
            var answer := Answer(t, g, remote).value;
            var r := BatchStep(st, g, remote, now);
            (answer.status == Success ==>
               r.Next? && r.store.requests[g].outputFileName
                            == OutputFileName(g, ResultPrefix(t), st.requests[g].inputFileName)
               && r.store.records == AfterComplete(st.records, answer.guid, now, None))
            && (answer.status == Failure ==> r.Next? && r.store.records == AfterFail(st.records, g, now))
  {
  }

  /** A Removed answer deletes the request and drops it from the list. */
  lemma BatchPollRemoves(st: Store, g: string, remote: Remote, now: int)
    requires g in st.requests
    requires var t := st.requests[g].requestType;
             Answer(t, g, remote).Some? && Answer(t, g, remote).value.status == Removed
    ensures BatchStep(st, g, remote, now) == Next(Store(st.requests - {g}, st.records), [g])
  {
  }

  /** A request whose service answers with a client error is finished as
    * Unknown; one of a type with no service reads as Processing for ever. */
  lemma BatchOddAnswers(st: Store, g: string, remote: Remote, now: int)
    requires g in st.requests
    ensures var t := st.requests[g].requestType;
            var r := BatchStep(st, g, remote, now);
            (IsService(t) && remote.status(t, g).ClientError? && st.requests[g].status != CommandStatus.Unknown ==>
               r.Next? && r.store.requests[g].status == CommandStatus.Unknown
               && r.store.requests[g].completedTime == Some(now) && r.store.records == st.records)
            && (!IsService(t) ==>
                  r.Next? && r.store.requests[g].status == Processing && r.store.records == st.records
                  && (st.requests[g].status == Processing ==> r.store == st))
  {
  }

  /** A composite node waiting for its turn, or finished without a
    * completion time, is left as it is, unless the poll itself throws. */
  lemma CompositeWaitingSkipped(st: Store, g: string, remote: Remote, now: int)
    requires g in st.requests && Skipped(st.requests[g]) && st.requests[g].requestSubType.Some?
    requires var t := st.requests[g].requestSubType.value; !(IsService(t) && remote.status(t, g).StatusFault?)
    ensures CompositeStep(st, g, remote, now) == Next(st, [])
  {
  }

  /** A terminal answer other than Success stamps itself on every node of
    * the chain from the polled one, leaves the other rows alone, and fails
    * the node's metrics record. */
  lemma CompositeFailureCascades(st: Store, g: string, remote: Remote, now: int)
    requires g != "" && g in st.requests && !Skipped(st.requests[g]) && st.requests[g].requestSubType.Some?
    requires var t := st.requests[g].requestSubType.value;
             var a := Answer(t, g, remote);
             a.Some? && Finished(a.value.status) && a.value.status != Success && a.value.status != Removed
             && a.value.status != st.requests[g].status
    ensures var answer := Answer(st.requests[g].requestSubType.value, g, remote).value.status;
            var r := CompositeStep(st, g, remote, now);
            r.Next? && r.removed == [] && r.store.requests.Keys == st.requests.Keys
            && (forall h :: h in Chain(st.requests, g) ==> r.store.requests[h].status == answer)
            && (forall h :: h in st.requests && h !in Chain(st.requests, g) ==> r.store.requests[h] == st.requests[h])
            && r.store.requests[g].completedTime == Some(now)
            && r.store.records == AfterFail(st.records, g, now)
  {
    var s := st.requests;
    var answer := Answer(s[g].requestSubType.value, g, remote).value.status;
    var s1 := s[g := s[g].(completedTime := Some(now))];
    assert CompositeStep(st, g, remote, now)
           == Next(Store(Stamped(s1, Chain(s1, g), answer), AfterFail(st.records, g, now)), []);
    assert SameLinks(s, s1);
    LinksDecideChains(s, s1, g);
    assert Chain(s, g)[0] == g;
    StampedRows(s1, Chain(s1, g), answer);
  }

  /** ProcessChainedRequest on an existing next node with a subtype and no
    * metrics record yet: the node that succeeded is written as it is, the
    * next node takes the output's name as its input, and it is Processing
    * when the service accepts it; when the service does not, it and the
    * rest of its chain fail. */
  lemma ChainedRequestHandsOn(st: Store, fileName: string, request: UserRequest, content: string,
                              remote: Remote, now: int)
    requires AllClosed(st.requests) && LinkKept(st.requests, request) && KeysMatch(st.requests)
    requires var n := request.nextRequest;
             n != "" && n in st.requests && st.requests[n].requestSubType.Some? && n !in st.records
    ensures ChainedRequest(st, fileName, request, content, remote, now).Some?
    ensures var r := ChainedRequest(st, fileName, request, content, remote, now).value;
            r.requests.Keys == st.requests.Keys && r.requests[request.guid] == request
            && r.requests[request.nextRequest].inputFileName == FileNameOf(fileName)
            && request.nextRequest in r.records && r.records[request.nextRequest].status == Processing
    ensures var n := request.nextRequest;
            var r := ChainedRequest(st, fileName, request, content, remote, now).value;
            SubmitRequest(st.requests[n].(inputFileName := FileNameOf(fileName)), remote) ==>
              r.requests[n].status == Processing
    ensures var n := request.nextRequest;
            var r := ChainedRequest(st, fileName, request, content, remote, now).value;
            !SubmitRequest(st.requests[n].(inputFileName := FileNameOf(fileName)), remote) ==>
              forall h :: h in Chain(st.requests, n) ==> r.requests[h].status == Failure
  {
    var s := st.requests;
    var n := request.nextRequest;
    assert Chain(s, n)[0] == n;
    if request.guid != "" {
      ClosedNotOnOwnTail(s, request.guid);
    }
    var next := s[n].(inputFileName := FileNameOf(fileName));
    if SubmitRequest(next, remote) {
      HandedOnAccepted(st, fileName, request, content, remote, now);
    } else {
      HandedOnRefused(st, fileName, request, content, remote, now);
    }
  }

  lemma HandedOnAccepted(st: Store, fileName: string, request: UserRequest, content: string,
                         remote: Remote, now: int)
    requires var n := request.nextRequest;
             n != request.guid && n in st.requests && st.requests[n].requestSubType.Some? && n !in st.records
    requires SubmitRequest(st.requests[request.nextRequest].(inputFileName := FileNameOf(fileName)), remote)
    ensures var r := ChainedRequest(st, fileName, request, content, remote, now);
            var n := request.nextRequest;
            r.Some? && r.value.requests.Keys == st.requests.Keys + {request.guid}
            && r.value.requests[request.guid] == request
            && r.value.requests[n] == st.requests[n].(inputFileName := FileNameOf(fileName), status := Processing)
            && n in r.value.records && r.value.records[n].status == Processing
  {
    assert RecordKey(NextCriteria(request.nextRequest, request, st.requests[request.nextRequest], content, now),
                     request.nextRequest) == request.nextRequest;
  }

  lemma HandedOnRefused(st: Store, fileName: string, request: UserRequest, content: string,
                        remote: Remote, now: int)
    requires var n := request.nextRequest;
             n != request.guid && n in st.requests && st.requests[n].requestSubType.Some? && n !in st.records
    requires request.guid !in Chain(st.requests, request.nextRequest)
    requires request.guid in st.requests && st.requests[request.guid].nextRequest == request.nextRequest
             && st.requests[request.guid].guid == request.guid
    requires !SubmitRequest(st.requests[request.nextRequest].(inputFileName := FileNameOf(fileName)), remote)
    ensures var r := ChainedRequest(st, fileName, request, content, remote, now);
            var n := request.nextRequest;
            r.Some? && r.value.requests.Keys == st.requests.Keys
            && r.value.requests[request.guid] == request
            && r.value.requests[n].inputFileName == FileNameOf(fileName)
            && (forall h :: h in Chain(st.requests, n) ==> r.value.requests[h].status == Failure)
            && n in r.value.records && r.value.records[n].status == Processing
  {
    var s := st.requests;
    var n := request.nextRequest;
    var next := s[n].(inputFileName := FileNameOf(fileName));
    var criteria := NextCriteria(n, request, next, content, now);
    assert RecordKey(criteria, n) == n;
    var added := AfterAdd(st.records, criteria, n);
    assert added.Ok? && n in added.value && added.value[n].status == Processing;
    var s1 := s[request.guid := request][n := next];
    assert ChainedRequest(st, fileName, request, content, remote, now)
           == Some(Store(Stamped(s1, Chain(s1, n), Failure)[n := next.(status := Failure)], added.value));
    FailedChainRows(s, request, next);
  }

  /** The rows after a refused hand-over: the finished node and the next
    * one with its edits, and every node of the next one's chain Failure. */
  lemma FailedChainRows(s: Requests, request: UserRequest, next: UserRequest)
    requires var n := request.nextRequest;
             n != request.guid && n in s && request.guid in s && request.guid !in Chain(s, n)
             && s[request.guid].nextRequest == n && s[request.guid].guid == request.guid
             && next.nextRequest == s[n].nextRequest && next.guid == s[n].guid
    ensures var n := request.nextRequest;
            var s1 := s[request.guid := request][n := next];
            var out := Stamped(s1, Chain(s1, n), Failure)[n := next.(status := Failure)];
            out.Keys == s.Keys && out[request.guid] == request && out[n].inputFileName == next.inputFileName
            && forall h :: h in Chain(s, n) ==> out[h].status == Failure
  {
    var n := request.nextRequest;
    var s1 := s[request.guid := request][n := next];
    assert SameLinks(s, s1);
    LinksDecideChains(s, s1, n);
    var c := Chain(s1, n);
    StampedRows(s1, c, Failure);
  }

  /** When a node succeeds and its next node is still Requested and its
    * output can be fetched, the hand-over above happens, and the node
    * itself is saved as Success with its completion time and output. */
  lemma SucceededHandsOn(st: Store, g: string, resultGuid: string, prefix: string, remote: Remote, now: int)
    requires AllClosed(st.requests) && KeysMatch(st.requests) && g in st.requests
    requires var n := st.requests[g].nextRequest;
             n != "" && n in st.requests && st.requests[n].requestType != SingleAddress
             && st.requests[n].status == Requested && st.requests[n].requestSubType.Some?
             && n !in st.records
    requires var request := st.requests[g];
             var output := OutputFileName(g, prefix, request.inputFileName);
             GetOutputFile(request.(completedTime := Some(now), outputFileName := output), remote).Downloaded?
    ensures Succeeded(st, g, resultGuid, prefix, remote, now).Next?
    ensures var request := st.requests[g];
            var output := OutputFileName(g, prefix, request.inputFileName);
            var r := Succeeded(st, g, resultGuid, prefix, remote, now);
            r.removed == [] && r.store.requests.Keys == st.requests.Keys
            && r.store.requests[g] == request.(completedTime := Some(now), outputFileName := output, status := Success)
            && r.store.requests[request.nextRequest].inputFileName == FileNameOf(output)
            && ('/' !in prefix + request.inputFileName ==>
                  r.store.requests[request.nextRequest].inputFileName == prefix + request.inputFileName)
    ensures var request := st.requests[g];
            var n := request.nextRequest;
            var next := st.requests[n].(inputFileName := FileNameOf(OutputFileName(g, prefix, request.inputFileName)));
            var r := Succeeded(st, g, resultGuid, prefix, remote, now);
            SubmitRequest(next, remote) ==> r.store.requests[n].status == Processing
    ensures var request := st.requests[g];
            var n := request.nextRequest;
            var next := st.requests[n].(inputFileName := FileNameOf(OutputFileName(g, prefix, request.inputFileName)));
            var r := Succeeded(st, g, resultGuid, prefix, remote, now);
            !SubmitRequest(next, remote) ==> forall h :: h in Chain(st.requests, n) ==> r.store.requests[h].status == Failure
  {
    var request := st.requests[g];
    var output := OutputFileName(g, prefix, request.inputFileName);
    var done := request.(completedTime := Some(now), outputFileName := output);
    var content := GetOutputFile(done, remote).content;
    assert Advance(st, done, remote, now) == ChainedRequest(st, output, done, content, remote, now);
    ChainedRequestHandsOn(st, output, done, content, remote, now);
    assert Chain(st.requests, request.nextRequest)[0] == request.nextRequest;
    if g != "" {
      ClosedNotOnOwnTail(st.requests, g);
    }
  }

  /** A composite node polled with a new Success goes through Succeeded. */
  lemma CompositeStepSucceeds(st: Store, g: string, remote: Remote, now: int)
    requires g in st.requests && !Skipped(st.requests[g]) && st.requests[g].requestSubType.Some?
    requires var t := st.requests[g].requestSubType.value;
             var a := Answer(t, g, remote);
             a.Some? && a.value.status == Success && st.requests[g].status != Success
    ensures var t := st.requests[g].requestSubType.value;
            var rs := GetResultStatus(t, remote.status(t, g), g).value;
            CompositeStep(st, g, remote, now) == Succeeded(st, g, rs.result.value.guid, rs.prefix, remote, now)
  {
  }
}
