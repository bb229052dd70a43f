/** ValidateFileName, the attribute on the web upload form's File: the
  * extension, the name pattern, then the reserved word of each selected
  * service, first failure wins. */
module FileNameValidation {
  import opened Wrappers
  import opened Text
  import opened WebModels
  import RequestValidation

  /** The upload form as the attribute sees it: None for a null file name
    * (a null File or FileName). */
  datatype UploadModel = UploadModel(fileName: Option<string>, types: seq<RequestType>)

  /** The ValidationResult returned; Reserved carries the two arguments of
    * the ReservedFileName message (the word and the service's display name). */
  datatype NameResult =
    | Success
    | FileRequired
    | FileNameRequired
    | BadExtension
    | BadName
    | Reserved(word: string, service: string)

  /** The literal message texts. The one of Reserved is "Invalid file
    * name. " followed by the resource text, which is not part of this
    * model. */
  function Message(r: NameResult): Option<string>
  {
    match r
    case Success => None
    case FileRequired => Some("File is required.")
    case FileNameRequired => Some("File name is required.")
    case BadExtension => Some("Invalid file extension. Please upload csv file.")
    case BadName => Some("Invalid file name. File name must be alphanumeric (no spaces or special characters).")
    case Reserved(_, _) => None
  }

  /** The reserved word and label of each service, in the order of the
    * checks; None for the types that reserve nothing. */
  function ReservedWord(t: RequestType): Option<(string, string)>
  {
    match t
    case GeoCode => Some((RequestValidation.ReservedGeocode, "Geocode"))
    case DriveTime => Some((RequestValidation.ReservedDriveTime, "Drive Time"))
    case DeprivationIndex => Some((RequestValidation.ReservedDeprivationIndex, "Deprivation Index"))
    case CensusBlockGroup => Some((RequestValidation.ReservedCensusBlockGroup, "Census Block Group"))
    case _ => None
  }

  const CheckedTypes: seq<RequestType> := [GeoCode, DriveTime, DeprivationIndex, CensusBlockGroup]

  /** Hit by the reserved word of type t: t is selected and the whole file
    * name contains its word, ignoring case. */
  predicate Hit(fileName: string, types: seq<RequestType>, t: RequestType)
  {
    t in types && ReservedWord(t).Some? && ContainsIgnoreCase(fileName, ReservedWord(t).value.0)
  }

  /** No selected service's reserved word is in the name. */
  predicate NoHit(fileName: string, types: seq<RequestType>)
  {
    !Hit(fileName, types, GeoCode) && !Hit(fileName, types, DriveTime)
    && !Hit(fileName, types, DeprivationIndex) && !Hit(fileName, types, CensusBlockGroup)
  }

  /** The four reserved-word checks, GeoCode first. */
  function ReservedCheck(fileName: string, types: seq<RequestType>): (r: NameResult)
    ensures r == Success || r.Reserved?
  {
    if Hit(fileName, types, GeoCode) then Reserved(RequestValidation.ReservedGeocode, "Geocode")
    else if Hit(fileName, types, DriveTime) then Reserved(RequestValidation.ReservedDriveTime, "Drive Time")
    else if Hit(fileName, types, DeprivationIndex) then
      Reserved(RequestValidation.ReservedDeprivationIndex, "Deprivation Index")
    else if Hit(fileName, types, CensusBlockGroup) then
      Reserved(RequestValidation.ReservedCensusBlockGroup, "Census Block Group")
    else Success
  }

  /** IsValid. `model` is None when the object is not the upload form. The
    * extension is compared after ToLower, modelled for ASCII letters. */
  function IsValid(model: Option<UploadModel>): (r: NameResult)
    ensures r == FileRequired <==> model.None?
    ensures r == FileNameRequired <==> model.Some? && model.value.fileName.None?
    ensures r == BadExtension <==>
              model.Some? && model.value.fileName.Some?
              && !EqualsIgnoreCase(GetExtension(model.value.fileName.value), ".csv")
    ensures model.Some? && model.value.fileName.Some? ==>
              var name := model.value.fileName.value;
              (r == BadName ==> !RequestValidation.MatchesNamePattern(GetFileNameWithoutExtension(name)))
              && (r.Reserved? ==> RequestValidation.MatchesNamePattern(GetFileNameWithoutExtension(name)))
  {
    if model.None? then FileRequired
    else if model.value.fileName.None? then FileNameRequired
    else
      var name := model.value.fileName.value;
      if !EqualsIgnoreCase(GetExtension(name), ".csv") then BadExtension
      else if RequestValidation.MatchesNamePattern(GetFileNameWithoutExtension(name)) then
        ReservedCheck(name, model.value.types)
      else BadName
  }

  // -----------------------------------------------------------------------
  // Properties
  // -----------------------------------------------------------------------

  /** Success exactly when every check passes: a file name with a .csv
    * extension in any case, a stem that matches the pattern, and no
    * selected service's reserved word in the name. */
  lemma SuccessIff(model: Option<UploadModel>)
    ensures IsValid(model) == Success <==>
              model.Some? && model.value.fileName.Some?
              && EqualsIgnoreCase(GetExtension(model.value.fileName.value), ".csv")
              && RequestValidation.MatchesNamePattern(GetFileNameWithoutExtension(model.value.fileName.value))
              && NoHit(model.value.fileName.value, model.value.types)
  {
    if model.Some? && model.value.fileName.Some? {
      var name := model.value.fileName.value;
      assert ReservedCheck(name, model.value.types) == Success <==> NoHit(name, model.value.types);
    }
  }

  /** The extension is checked before the pattern: a wrong extension is
    * reported whatever the name looks like. */
  lemma ExtensionFirst(name: string, types: seq<RequestType>)
    requires !EqualsIgnoreCase(GetExtension(name), ".csv")
    ensures IsValid(Some(UploadModel(Some(name), types))) == BadExtension
  {
  }

  /** A name that fails the pattern is refused before any reserved word is
    * looked at. */
  lemma PatternBeforeReserved(name: string, types: seq<RequestType>)
    requires EqualsIgnoreCase(GetExtension(name), ".csv")
    requires !RequestValidation.MatchesNamePattern(GetFileNameWithoutExtension(name))
    ensures IsValid(Some(UploadModel(Some(name), types))) == BadName
  {
  }

  /** A reserved word only matters when its service is selected: with none
    * of the four services selected, the result depends on the extension
    * and the pattern alone. */
  lemma ReservedOnlyWhenSelected(name: string, types: seq<RequestType>)
    requires GeoCode !in types && DriveTime !in types && DeprivationIndex !in types && CensusBlockGroup !in types
    ensures IsValid(Some(UploadModel(Some(name), types))) == IsValid(Some(UploadModel(Some(name), [])))
  {
    assert ReservedCheck(name, types) == Success;
    assert ReservedCheck(name, []) == Success;
  }

  /** A refusal for a reserved word names a selected service whose word the
    * name contains, and every check before it passed. */
  lemma ReservedMeaning(name: string, types: seq<RequestType>, word: string, service: string)
    requires IsValid(Some(UploadModel(Some(name), types))) == Reserved(word, service)
    ensures exists t :: t in CheckedTypes && Hit(name, types, t) && ReservedWord(t) == Some((word, service))
    ensures EqualsIgnoreCase(GetExtension(name), ".csv")
    ensures RequestValidation.MatchesNamePattern(GetFileNameWithoutExtension(name))
  {
    if Hit(name, types, GeoCode) {
      assert ReservedWord(GeoCode) == Some((word, service));
    } else if Hit(name, types, DriveTime) {
      assert ReservedWord(DriveTime) == Some((word, service));
    } else if Hit(name, types, DeprivationIndex) {
      assert ReservedWord(DeprivationIndex) == Some((word, service));
    } else {
      assert ReservedWord(CensusBlockGroup) == Some((word, service));
    }
  }

  /** A file name the attribute accepts also passes the ValidateFileName
    * rule set of DeGaussRequestValidator, and each selected service's
    * reserved-name rule set. */
  lemma AgreesWithRequestValidator(model: Option<UploadModel>, file: RequestValidation.UploadedFile)
    requires IsValid(model) == Success
    requires model.Some? && model.value.fileName == Some(file.fileName)
    ensures RequestValidation.ValidateFileName(file)
    ensures forall t :: t in model.value.types && ReservedWord(t).Some? ==>
              RequestValidation.ReservedNameFree(file.fileName, ReservedWord(t).value.0)
  {
    SuccessIff(model);
    var name := file.fileName;
    var types := model.value.types;
    assert NoHit(name, types);
    forall t | t in types && ReservedWord(t).Some?
      ensures RequestValidation.ReservedNameFree(name, ReservedWord(t).value.0)
    {
      assert t == GeoCode || t == DriveTime || t == DeprivationIndex || t == CensusBlockGroup;
      assert !Hit(name, types, t);
    }
  }

  /** Conversely, a name made of a stem of letters, digits, '-' and '_' and
    * the extension .csv, holding no selected service's reserved word, is
    * accepted; "test.csv", the name of the validator's test files, is one. */
  lemma PlainNameAccepted(stem: string, types: seq<RequestType>)
    requires RequestValidation.AllNameChars(stem)
    requires NoHit(stem + ".csv", types)
    ensures IsValid(Some(UploadModel(Some(stem + ".csv"), types))) == Success
  {
    PlainNameParts(stem);
    assert ReservedCheck(stem + ".csv", types) == Success;
  }

  lemma PlainNameParts(stem: string)
    requires RequestValidation.AllNameChars(stem)
    ensures GetExtension(stem + ".csv") == ".csv"
    ensures GetFileNameWithoutExtension(stem + ".csv") == stem
  {
    assert '.' !in stem && '/' !in stem by {
      forall i | 0 <= i < |stem| ensures stem[i] != '.' && stem[i] != '/' {
        assert RequestValidation.NameChar(stem[i]);
      }
    }
    var dotCsv := "." + "csv";
    assert dotCsv == ".csv";
    assert stem + ".csv" == stem + "." + "csv";
    RequestValidation.StemOf(stem, "csv");
    ExtensionOf(stem, "csv");
    assert GetExtension(stem + "." + "csv") == dotCsv;
  }
}
