/** The entities the web application keeps in its database: a user request
  * (one DeGauss job, or one node of a composite chain linked through
  * NextRequest) and the metrics record written for each submitted file. */
module WebModels {
  import opened Wrappers
  import opened Commands

  /** DeGaussRequestType, in declaration order. */
  datatype RequestType =
    | GeoCode
    | DriveTime
    | DeprivationIndex
    | CensusBlockGroup
    | SingleAddress
    | Composite
    | Unknown

  /** The enum's underlying values; Unknown is 999. */
  function Ordinal(t: RequestType): (n: nat)
    ensures t != RequestType.Unknown ==> n < 6
  {
    match t
    case GeoCode => 0
    case DriveTime => 1
    case DeprivationIndex => 2
    case CensusBlockGroup => 3
    case SingleAddress => 4
    case Composite => 5
    case Unknown => 999
  }

  /** The order List<DeGaussRequestType>.Sort uses is that of the values. */
  lemma OrdinalInjective(a: RequestType, b: RequestType)
    ensures Ordinal(a) == Ordinal(b) <==> a == b
  {
  }

  /** ToString of a request type: the member's name. */
  function TypeName(t: RequestType): string
  {
    match t
    case GeoCode => "GeoCode"
    case DriveTime => "DriveTime"
    case DeprivationIndex => "DeprivationIndex"
    case CensusBlockGroup => "CensusBlockGroup"
    case SingleAddress => "SingleAddress"
    case Composite => "Composite"
    case Unknown => "Unknown"
  }

  /** The four types backed by a DeGauss service with a typed client. */
  predicate IsService(t: RequestType)
  {
    t == GeoCode || t == DriveTime || t == DeprivationIndex || t == CensusBlockGroup
  }

  /** A UserRequest row. The type is stored as its name, so it is kept here
    * as the enum; `requestSubType` is None for the empty string every
    * non-composite request carries. Instants are ticks. */
  datatype UserRequest = UserRequest(
    guid: string,
    userId: string,
    inputFileName: string,
    outputFileName: string,
    requestType: RequestType,
    requestSubType: Option<RequestType>,
    site: Option<string>,
    year: Option<int>,
    uploadTime: int,
    completedTime: Option<int>,
    status: CommandStatus,
    nextRequest: string)

  /** MetadataSource: where a request came from. */
  datatype MetadataSource = Api | Ui

  /** A RecordsProcessed row; `requestType` is None for the empty name a
    * null type is stored as. */
  datatype RecordsProcessed = RecordsProcessed(
    requestGuid: string,
    requestType: Option<RequestType>,
    format: MetadataSource,
    userId: string,
    uploadTime: int,
    completedTime: int,
    records: int,
    status: CommandStatus)

  type Requests = map<string, UserRequest>
  type Records = map<string, RecordsProcessed>

  /** The two tables, keyed by their primary keys (Guid, RequestGuid). */
  class UserRequestsDbContext {
    var requests: Requests
    var records: Records

    constructor()
      ensures requests == map[] && records == map[]
    {
      requests := map[];
      records := map[];
    }
  }
}
