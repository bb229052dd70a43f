/** DeGaussCompositeJsonRequestValidator: the rules a JSON composite request
  * (a list of addresses and the services to run on them) must pass, with
  * DeGaussAddressRequestValidator for each address. Both validators stop at
  * the first failing rule. */
module CompositeValidation {
  import opened Wrappers
  import opened Text
  import RequestValidation

  /** One address of the request; None stands for a null Id or Address. */
  datatype AddressRequest = AddressRequest(id: Option<string>, address: Option<string>)

  /** DeGaussCompositeJsonRequest. `addresses` is None for a null list and
    * holds None for a null element; `site` is None for a null Site. */
  datatype CompositeJsonRequest = CompositeJsonRequest(
    addresses: Option<seq<Option<AddressRequest>>>,
    services: seq<string>,
    site: Option<string>,
    year: int)

  /** Membership in the values of DeGaussDrivetimeRequestValidator.SITES,
    * the short codes of the sites, compared exactly. */
  predicate IsSite(s: string)
  {
    s == "mercy" || s == "cmsmc" || s == "cmhk" || s == "cmcb" || s == "cmucbv" ||
    s == "cmo" || s == "cmb" || s == "cmucn" || s == "cmuce" || s == "cmt" ||
    s == "cmhstj" || s == "cmjc" || s == "cmj" || s == "cmwt" || s == "cmgb" ||
    s == "kumc" || s == "indck" || s == "ccocg" || s == "leesm" || s == "ovpk" ||
    s == "stfr" || s == "ww" || s == "fairw" || s == "uso" || s == "scic" ||
    s == "chop" || s == "cchmc" || s == "riley" || s == "seattle" || s == "emory" ||
    s == "jhu" || s == "cc" || s == "levine" || s == "stl" || s == "ohsu" ||
    s == "umich" || s == "al" || s == "nat" || s == "ucla" || s == "bch" ||
    s == "mcw" || s == "stj" || s == "mehc" || s == "nwu" || s == "lccn" ||
    s == "lcclp" || s == "lccu" || s == "lac" || s == "expo" || s == "ucsf" ||
    s == "nicklaus" || s == "musc" || s == "cnmc" || s == "upmc" || s == "methodist" ||
    s == "texas" || s == "arkansas" || s == "primary" || s == "atlanta" ||
    s == "dallas" || s == "packard" || s == "toronto" || s == "cook" || s == "omaha" ||
    s == "colorado" || s == "palmer" || s == "minn" || s == "uva" || s == "dimaggio" ||
    s == "cohen" || s == "dell" || s == "dupont" || s == "rainbow" || s == "unc" ||
    s == "maine"
  }

  /** DeGaussCensusBlockGroupRequestValidator.YEARS. */
  const Years: seq<int> := [1970, 1980, 1990, 2000, 2010, 2020]

  const DriveTimeService := "drivetime"
  const CensusBlockGroupService := "censusblockgroup"

  /** FluentValidation's NotNull().NotEmpty() on a string: not null, not ""
    * and not white space only. */
  predicate Present(s: Option<string>)
  {
    s.Some? && !AllWhiteSpace(s.value)
  }

  // -----------------------------------------------------------------------
  // One address
  // -----------------------------------------------------------------------

  datatype AddressFailure = IdEmpty | AddressEmpty

  /** DeGaussAddressRequestValidator on one element of the list, as
    * RuleForEach(...).SetValidator(...) runs it: the child validator is
    * not run on a null element, so that element passes and the child's own
    * NotNull rule never fires. Otherwise Id, then Address. */
  function ValidateAddress(a: Option<AddressRequest>): (r: Option<AddressFailure>)
    ensures r.None? <==> a.None? || (Present(a.value.id) && Present(a.value.address))
    ensures r == Some(IdEmpty) <==> a.Some? && !Present(a.value.id)
  {
    if a.None? then None
    else if !Present(a.value.id) then Some(IdEmpty)
    else if !Present(a.value.address) then Some(AddressEmpty)
    else None
  }

  /** The first address that fails, with its index. */
  function FirstInvalid(addresses: seq<Option<AddressRequest>>): (r: Option<(nat, AddressFailure)>)
    ensures r.None? <==> forall i :: 0 <= i < |addresses| ==> ValidateAddress(addresses[i]).None?
    ensures r.Some? ==> r.value.0 < |addresses| && ValidateAddress(addresses[r.value.0]) == Some(r.value.1)
    ensures r.Some? ==> forall i :: 0 <= i < r.value.0 ==> ValidateAddress(addresses[i]).None?
  {
    if addresses == [] then None
    else if ValidateAddress(addresses[0]).Some? then Some((0, ValidateAddress(addresses[0]).value))
    else
      match FirstInvalid(addresses[1..])
      case None => None
      case Some((i, f)) => Some((i + 1, f))
  }

  // -----------------------------------------------------------------------
  // The request
  // -----------------------------------------------------------------------

  /** The rule that stopped validation. */
  datatype CompositeFailure =
    | AddressesNull
    | AddressesEmpty
    | TooManyAddresses
    | InvalidAddress(index: nat, failure: AddressFailure)
    | SiteNull
    | SiteEmpty
    | SiteUnknown
    | YearEmpty
    | YearUnknown

  /** The drivetime rules: Site NotNull, NotEmpty, then one of the sites. */
  function ValidateSite(site: Option<string>): Option<CompositeFailure>
  {
    if site.None? then Some(SiteNull)
    else if AllWhiteSpace(site.value) then Some(SiteEmpty)
    else if !IsSite(site.value) then Some(SiteUnknown)
    else None
  }

  /** The censusblockgroup rules on the int Year: NotNull always holds,
    * NotEmpty refuses the default 0, then one of the years. */
  function ValidateYear(year: int): Option<CompositeFailure>
  {
    if year == 0 then Some(YearEmpty)
    else if year !in Years then Some(YearUnknown)
    else None
  }

  /** The validator under CascadeMode.Stop. The per-address rules run only
    * when 0 < count <= MAX_LINES, which the two count rules before them
    * have already ensured. */
  function Validate(r: CompositeJsonRequest): (f: Option<CompositeFailure>)
    ensures f == Some(AddressesNull) <==> r.addresses.None?
    ensures f == Some(AddressesEmpty) <==> r.addresses == Some([])
    ensures f == Some(TooManyAddresses) <==> r.addresses.Some? && |r.addresses.value| > RequestValidation.MaxLines
    ensures f.Some? && f.value.InvalidAddress? ==>
              r.addresses.Some? && f.value.index < |r.addresses.value|
              && ValidateAddress(r.addresses.value[f.value.index]) == Some(f.value.failure)
    ensures f.Some? && (f.value.SiteNull? || f.value.SiteEmpty? || f.value.SiteUnknown?) ==> DriveTimeService in r.services
    ensures f.Some? && (f.value.YearEmpty? || f.value.YearUnknown?) ==> CensusBlockGroupService in r.services
  {
    if r.addresses.None? then Some(AddressesNull)
    else if |r.addresses.value| == 0 then Some(AddressesEmpty)
    else if |r.addresses.value| > RequestValidation.MaxLines then Some(TooManyAddresses)
    else if 0 < |r.addresses.value| <= RequestValidation.MaxLines && FirstInvalid(r.addresses.value).Some? then
      var (i, f) := FirstInvalid(r.addresses.value).value;
      Some(InvalidAddress(i, f))
    else if DriveTimeService in r.services && ValidateSite(r.site).Some? then ValidateSite(r.site)
    else if CensusBlockGroupService in r.services && ValidateYear(r.year).Some? then ValidateYear(r.year)
    else None
  }

  // -----------------------------------------------------------------------
  // Properties
  // -----------------------------------------------------------------------

  /** Every site code starts with a lower-case letter, so no site is empty
    * or white space and membership alone decides a present site. */
  lemma SiteNotBlank(s: string)
    requires IsSite(s)
    ensures s != [] && 'a' <= s[0] <= 'z'
  {
  }

  /** What an accepted request is, stated without the rule order. */
  predicate Acceptable(r: CompositeJsonRequest)
  {
    r.addresses.Some?
    && 1 <= |r.addresses.value| <= RequestValidation.MaxLines
    && (forall i :: 0 <= i < |r.addresses.value| ==>
          var a := r.addresses.value[i];
          a.Some? ==> Present(a.value.id) && Present(a.value.address))
    && (DriveTimeService in r.services ==> r.site.Some? && IsSite(r.site.value))
    && (CensusBlockGroupService in r.services ==> r.year in Years)
  }

  /** The validator accepts exactly the acceptable requests. */
  lemma ValidateAccepts(r: CompositeJsonRequest)
    ensures Validate(r).None? <==> Acceptable(r)
  {
    if r.site.Some? && IsSite(r.site.value) {
      SiteNotBlank(r.site.value);
      assert !IsWhiteSpace(r.site.value[0]);
    }
    if r.addresses.Some? && 1 <= |r.addresses.value| <= RequestValidation.MaxLines {
      var a := r.addresses.value;
      if FirstInvalid(a).None? {
        forall i | 0 <= i < |a| ensures a[i].Some? ==> Present(a[i].value.id) && Present(a[i].value.address) {
          assert ValidateAddress(a[i]).None?;
        }
      }
    }
  }

  /** Over 300 addresses the count rule stops validation, whatever the
    * addresses hold. */
  lemma TooManyStops(r: CompositeJsonRequest)
    requires r.addresses.Some? && |r.addresses.value| > RequestValidation.MaxLines
    ensures Validate(r) == Some(TooManyAddresses)
  {
  }

  /** Without the drivetime and censusblockgroup services, site and year
    * are never looked at. */
  lemma ServicesGateSiteAndYear(r: CompositeJsonRequest, site: Option<string>, year: int)
    requires DriveTimeService !in r.services && CensusBlockGroupService !in r.services
    ensures Validate(r.(site := site, year := year)) == Validate(r)
  {
  }

  /** Without the censusblockgroup service the year is never looked at,
    * whatever else is selected. */
  lemma YearOnlyForCensusBlockGroup(r: CompositeJsonRequest, year: int)
    requires CensusBlockGroupService !in r.services
    ensures Validate(r.(year := year)) == Validate(r)
  {
  }

  /** The failure reported for an address is that of the first bad one. */
  lemma AddressFailureIsFirst(r: CompositeJsonRequest, i: nat, f: AddressFailure)
    requires Validate(r) == Some(InvalidAddress(i, f))
    ensures r.addresses.Some? && i < |r.addresses.value|
    ensures ValidateAddress(r.addresses.value[i]) == Some(f)
    ensures forall k :: 0 <= k < i ==> ValidateAddress(r.addresses.value[k]).None?
  {
  }

  /** The cases of the validator's test data, for any list of well-formed
    * addresses. */
  lemma CompositeTestCases(good: seq<Option<AddressRequest>>)
    requires 1 <= |good| <= RequestValidation.MaxLines
    requires forall i :: 0 <= i < |good| ==> ValidateAddress(good[i]).None?
    ensures Validate(CompositeJsonRequest(Some(good), [], None, 0)) == None
    ensures Validate(CompositeJsonRequest(Some(good), ["censusblockgroup", "deprivationindex", "drivetime"],
                                          Some("mercy"), 2020)) == None
    ensures Validate(CompositeJsonRequest(Some([]), [], None, 0)) == Some(AddressesEmpty)
    ensures Validate(CompositeJsonRequest(None, [], None, 0)) == Some(AddressesNull)
    ensures Validate(CompositeJsonRequest(Some(good), ["drivetime"], None, 0)) == Some(SiteNull)
    ensures Validate(CompositeJsonRequest(Some(good), ["drivetime"], Some("blah"), 0)) == Some(SiteUnknown)
    ensures Validate(CompositeJsonRequest(Some(good), ["censusblockgroup"], None, 0)) == Some(YearEmpty)
    ensures Validate(CompositeJsonRequest(Some(good), ["censusblockgroup"], None, 100)) == Some(YearUnknown)
  {
    var all: seq<string> := ["censusblockgroup", "deprivationindex", "drivetime"];
    assert all[2] == DriveTimeService && all[0] == CensusBlockGroupService;
    assert IsSite("mercy");
    assert !IsWhiteSpace("mercy"[0]);
    assert !IsWhiteSpace("blah"[0]);
    assert !IsSite("blah");
    assert ["drivetime"][0] == DriveTimeService;
    assert DriveTimeService !in ["censusblockgroup"];
    assert ["censusblockgroup"][0] == CensusBlockGroupService;
    assert AllWhiteSpace("");
  }

  /** A null element of the list is not validated: a request whose
    * addresses are all null passes the address rules, and with no
    * services selected it is accepted. */
  lemma {:induction false} NullElementsSkipped(nulls: seq<Option<AddressRequest>>)
    requires 1 <= |nulls| <= RequestValidation.MaxLines
    requires forall i :: 0 <= i < |nulls| ==> nulls[i].None?
    ensures Validate(CompositeJsonRequest(Some(nulls), [], None, 0)) == None
  {
    assert FirstInvalid(nulls).None?;
  }

  /** The test data's requests whose first address has a blank Id, or a
    * blank Address: the first address is reported. */
  lemma BlankFieldTestCases(blankId: seq<Option<AddressRequest>>, blankAddress: seq<Option<AddressRequest>>)
    requires 1 <= |blankId| <= RequestValidation.MaxLines
    requires blankId[0] == Some(AddressRequest(Some(""), Some("a")))
    requires 1 <= |blankAddress| <= RequestValidation.MaxLines
    requires blankAddress[0] == Some(AddressRequest(Some("1"), Some("")))
    ensures Validate(CompositeJsonRequest(Some(blankId), [], None, 0)) == Some(InvalidAddress(0, IdEmpty))
    ensures Validate(CompositeJsonRequest(Some(blankAddress), [], None, 0)) == Some(InvalidAddress(0, AddressEmpty))
  {
    assert AllWhiteSpace("");
    assert !IsWhiteSpace("1"[0]);
  }
}
