/** DeGaussRequestValidator: the rules an uploaded CSV file must pass before
  * a DeGauss job is started. The file is modelled by its content type, its
  * text (what a StreamReader over OpenReadStream reads), its length in
  * bytes and its file name. */
module RequestValidation {
  import opened Wrappers
  import opened Text

  /** The parts of an IFormFile the rules read; `contentType` is None for a
    * null ContentType. */
  datatype UploadedFile = UploadedFile(
    contentType: Option<string>,
    content: string,
    length: int,
    fileName: string)

  const MaxLines := 300
  const DefaultExpectedFileSize := 25_000_000
  const ContentTypes: seq<string> := ["text/csv"]

  /** The size limit: the configured MaxFileSizeInBytes when it is positive,
    * the built-in default otherwise. */
  function ExpectedFileSize(configured: int): (limit: int)
    ensures limit > 0
    ensures configured > 0 ==> limit == configured
    ensures configured <= 0 ==> limit == DefaultExpectedFileSize
  {
    if configured > 0 then configured else DefaultExpectedFileSize
  }

  // -----------------------------------------------------------------------
  // Row counts
  // -----------------------------------------------------------------------

  /** RecordCountBelowMax: counts the lines, then compares the count with
    * MAX_LINES + 1 (a header and at most 300 rows). */
  method RecordCountBelowMax(file: UploadedFile) returns (ok: bool)
    ensures ok <==> |Lines(file.content)| <= MaxLines + 1
  {
    var counter := CountLines(file.content);
    ok := counter <= MaxLines + 1;
  }

  /** RecordCountAboveMin: two ReadLine calls both return a line. */
  function RecordCountAboveMin(file: UploadedFile): (ok: bool)
    ensures ok <==> |Lines(file.content)| >= 2
  {
    match ReadLine(file.content)
    case None => false
    case Some((_, rest)) => ReadLine(rest).Some?
  }

  /** Hence an empty file, or one of a single line, is refused, and a file
    * that passes has at least two characters. */
  lemma AboveMinNeedsTwoLines(file: UploadedFile)
    ensures Lines(file.content) == [] ==> !RecordCountAboveMin(file)
    ensures RecordCountAboveMin(file) ==> |file.content| >= 2
  {
    if RecordCountAboveMin(file) {
      var (_, rest) := ReadLine(file.content).value;
      assert ReadLine(rest).Some?;
    }
  }

  /** A header and 300 rows pass the row limit; a header and 301 rows do
    * not. */
  lemma RowLimitBoundary(header: string, row: string)
    requires forall c :: c in header ==> !IsLineBreak(c)
    requires forall c :: c in row ==> !IsLineBreak(c)
    ensures |Lines(Terminated([header] + seq(MaxLines, _ => row)))| <= MaxLines + 1
    ensures |Lines(Terminated([header] + seq(MaxLines + 1, _ => row)))| > MaxLines + 1
  {
    var ok := [header] + seq(MaxLines, _ => row);
    var over := [header] + seq(MaxLines + 1, _ => row);
    LinesOfTerminated(ok);
    LinesOfTerminated(over);
  }

  // -----------------------------------------------------------------------
  // The header
  // -----------------------------------------------------------------------

  /** The comma-separated fields of the first line, None for an empty file. */
  function HeaderFields(content: string): (r: Option<seq<string>>)
    ensures r.None? <==> Lines(content) == []
    ensures r.Some? ==> r.value == Split(Lines(content)[0], ',')
  {
    match FirstLine(content)
    case None => None
    case Some(header) => Some(Split(header, ','))
  }

  /** A file written as "\n"-terminated lines whose first line joins the
    * given fields with commas has exactly those header fields. */
  lemma HeaderOfCsv(fields: seq<string>, rows: seq<string>)
    requires |fields| >= 1
    requires forall i :: 0 <= i < |fields| ==> PlainWord(fields[i])
    requires forall i :: 0 <= i < |rows| ==> forall c :: c in rows[i] ==> !IsLineBreak(c)
    ensures Lines(Terminated([Join(fields, ',')] + rows)) == [Join(fields, ',')] + rows
    ensures HeaderFields(Terminated([Join(fields, ',')] + rows)) == Some(fields)
  {
    var lines := [Join(fields, ',')] + rows;
    JoinPlain(fields);
    forall i | 0 <= i < |lines|
      ensures forall c :: c in lines[i] ==> !IsLineBreak(c)
    {
      if i > 0 {
        assert lines[i] == rows[i - 1];
      }
    }
    LinesOfTerminated(lines);
    SplitJoin(fields, ',');
  }

  /** A header field with no comma and no line break. */
  predicate PlainWord(w: string)
  {
    ',' !in w && '\n' !in w && '\r' !in w
  }

  /** Plain fields joined with commas make a line with no line break. */
  lemma {:induction false} JoinPlain(fields: seq<string>)
    requires forall i :: 0 <= i < |fields| ==> PlainWord(fields[i])
    ensures forall c :: c in Join(fields, ',') ==> !IsLineBreak(c)
    decreases |fields|
  {
    if |fields| > 1 {
      var rest := fields[1..];
      assert forall i :: 0 <= i < |rest| ==> rest[i] == fields[i + 1];
      JoinPlain(rest);
      assert Join(fields, ',') == fields[0] + [','] + Join(rest, ',');
    } else if |fields| == 1 {
      assert PlainWord(fields[0]);
    }
  }

  function Elements(s: seq<string>): set<string>
  {
    set x | x in s
  }

  predicate NoDuplicates(s: seq<string>)
  {
    forall i, j :: 0 <= i < j < |s| ==> s[i] != s[j]
  }

  /** A sequence with one more field has no repeats exactly when the
    * shorter one has none and the new field is not in it. */
  lemma AppendNoDuplicates(p: seq<string>, last: string)
    ensures NoDuplicates(p + [last]) <==> NoDuplicates(p) && last !in p
  {
    var s := p + [last];
    if last in p {
      var i :| 0 <= i < |p| && p[i] == last;
      assert s[i] == s[|s| - 1];
    }
    if NoDuplicates(s) {
      forall i, j | 0 <= i < j < |p| ensures p[i] != p[j] {
        assert p[i] == s[i] && p[j] == s[j];
      }
    }
    if NoDuplicates(p) && last !in p {
      forall i, j | 0 <= i < j < |s| ensures s[i] != s[j] {
        assert s[i] == p[i];
        if j < |p| {
          assert s[j] == p[j];
        }
      }
    }
  }

  /** headerArray.Distinct().Count() == headerArray.Count() exactly when no
    * field repeats. */
  lemma {:induction false} DistinctCount(s: seq<string>)
    ensures |Elements(s)| <= |s|
    ensures |Elements(s)| == |s| <==> NoDuplicates(s)
    decreases |s|
  {
    if s != [] {
      var p := s[..|s| - 1];
      var last := s[|s| - 1];
      DistinctCount(p);
      assert s == p + [last];
      AppendNoDuplicates(p, last);
      assert Elements(s) == Elements(p) + {last};
      if last in p {
        assert Elements(s) == Elements(p);
      } else {
        assert last !in Elements(p);
      }
    }
  }

  /** RecordHeaderHasNoDuplicates: the file has a header and its fields,
    * compared exactly, are pairwise distinct. */
  function RecordHeaderHasNoDuplicates(file: UploadedFile): (ok: bool)
    ensures ok <==> HeaderFields(file.content).Some? && NoDuplicates(HeaderFields(file.content).value)
  {
    match FirstLine(file.content)
    case None => false
    case Some(header) =>
      var fields := Split(header, ',');
      DistinctCount(fields);
      |Elements(fields)| == |fields|
  }

  /** RecordSchemaGeocoded: the header has lat and lon, ignoring case. */
  predicate SchemaGeocoded(fields: seq<string>)
  {
    HasIgnoreCase(fields, "lat") && HasIgnoreCase(fields, "lon")
  }

  /** RecordSchemaGetGeocodeHasColumns: ID ignoring case, and "address"
    * exactly as written. */
  predicate GeocodeHasColumns(fields: seq<string>)
  {
    HasIgnoreCase(fields, "ID") && "address" in fields
  }

  /** RecordSchemaGetGeocodeDoesNotHaveColumns: none of the columns the
    * geocoder adds, ignoring case. */
  predicate GeocodeDoesNotHaveColumns(fields: seq<string>)
  {
    !HasIgnoreCase(fields, "lat") && !HasIgnoreCase(fields, "lon")
    && !HasIgnoreCase(fields, "score") && !HasIgnoreCase(fields, "precision")
  }

  /** Each schema rule reads the comma-split first line of the file, and
    * refuses a file without one. */
  function RecordSchemaGeocoded(file: UploadedFile): (ok: bool)
    ensures ok <==> Lines(file.content) != [] && SchemaGeocoded(Split(Lines(file.content)[0], ','))
  {
    match HeaderFields(file.content)
    case None => false
    case Some(fields) => SchemaGeocoded(fields)
  }

  function RecordSchemaGetGeocodeHasColumns(file: UploadedFile): (ok: bool)
    ensures ok <==> Lines(file.content) != [] && GeocodeHasColumns(Split(Lines(file.content)[0], ','))
  {
    match HeaderFields(file.content)
    case None => false
    case Some(fields) => GeocodeHasColumns(fields)
  }

  function RecordSchemaGetGeocodeDoesNotHaveColumns(file: UploadedFile): (ok: bool)
    ensures ok <==> Lines(file.content) != [] && GeocodeDoesNotHaveColumns(Split(Lines(file.content)[0], ','))
  {
    match HeaderFields(file.content)
    case None => false
    case Some(fields) => GeocodeDoesNotHaveColumns(fields)
  }

  /** No file passes both the Geocoded rule set and the second Geocode rule:
    * a geocoded file cannot be geocoded again. */
  lemma GeocodedExcludesGeocode(file: UploadedFile)
    ensures !(RecordSchemaGeocoded(file) && RecordSchemaGetGeocodeDoesNotHaveColumns(file))
  {
  }

  /** The Geocode schema on concrete headers: ID may be in any case, address
    * may not, and a column the geocoder adds is refused in any case. */
  lemma GeocodeSchemaExamples()
    ensures GeocodeHasColumns(["id", "address"])
    ensures !GeocodeHasColumns(["ID", "Address"])
    ensures GeocodeDoesNotHaveColumns(["ID", "address"])
    ensures !GeocodeDoesNotHaveColumns(["ID", "address", "Score"])
    ensures SchemaGeocoded(["ID", "LAT", "Lon"])
  {
    assert EqualsIgnoreCase(["id", "address"][0], "ID");
    assert ["ID", "Address"][1] != "address";
    assert !HasIgnoreCase(["ID", "address"], "lat") by {
      assert !EqualsIgnoreCase("ID", "lat") && !EqualsIgnoreCase("address", "lat");
    }
    assert !HasIgnoreCase(["ID", "address"], "lon") by {
      assert !EqualsIgnoreCase("ID", "lon") && !EqualsIgnoreCase("address", "lon");
    }
    assert !HasIgnoreCase(["ID", "address"], "score") by {
      assert !EqualsIgnoreCase("ID", "score") && !EqualsIgnoreCase("address", "score");
    }
    assert !HasIgnoreCase(["ID", "address"], "precision") by {
      assert !EqualsIgnoreCase("ID", "precision") && !EqualsIgnoreCase("address", "precision");
    }
    assert EqualsIgnoreCase(["ID", "address", "Score"][2], "score");
    assert EqualsIgnoreCase(["ID", "LAT", "Lon"][1], "lat");
    assert EqualsIgnoreCase(["ID", "LAT", "Lon"][2], "lon");
  }

  // -----------------------------------------------------------------------
  // Size and name
  // -----------------------------------------------------------------------

  /** MaxFileSize: strictly below the limit the validator was built with,
    * from the configured MaxFileSizeInBytes. */
  function MaxFileSize(file: UploadedFile, configured: int): (ok: bool)
    ensures configured > 0 ==> (ok <==> file.length < configured)
    ensures configured <= 0 ==> (ok <==> file.length < 25_000_000)
  {
    file.length < ExpectedFileSize(configured)
  }

  /** A file of exactly the limit is refused, one byte less is accepted. */
  lemma SizeBoundary(file: UploadedFile, configured: int)
    ensures MaxFileSize(file.(length := ExpectedFileSize(configured) - 1), configured)
    ensures !MaxFileSize(file.(length := ExpectedFileSize(configured)), configured)
  {
  }

  /** The characters of [a-zA-Z0-9-_]: the '-' after the range 0-9 is a
    * literal dash. */
  predicate NameChar(c: char)
  {
    ('a' <= c <= 'z') || ('A' <= c <= 'Z') || ('0' <= c <= '9') || c == '-' || c == '_'
  }

  predicate AllNameChars(s: string)
  {
    forall i :: 0 <= i < |s| ==> NameChar(s[i])
  }

  /** Regex("^[a-zA-Z0-9-_]*$").IsMatch(s). Without the Multiline option `$`
    * also matches just before a final '\n', so a name that ends in one line
    * feed passes too. */
  predicate MatchesNamePattern(s: string)
  {
    AllNameChars(s) || (|s| > 0 && s[|s| - 1] == '\n' && AllNameChars(s[..|s| - 1]))
  }

  /** The pattern refuses spaces, dots, path separators and every other
    * character outside the class, except one final line feed. */
  lemma NamePatternMeaning(s: string)
    ensures MatchesNamePattern(s) <==>
              forall i :: 0 <= i < |s| ==> NameChar(s[i]) || (i == |s| - 1 && s[i] == '\n')
  {
    if forall i :: 0 <= i < |s| ==> NameChar(s[i]) || (i == |s| - 1 && s[i] == '\n') {
      if !AllNameChars(s) {
        var i :| 0 <= i < |s| && !NameChar(s[i]);
        assert i == |s| - 1 && s[i] == '\n';
        var t := s[..|s| - 1];
        assert AllNameChars(t) by {
          forall k | 0 <= k < |t| ensures NameChar(t[k]) {
            assert t[k] == s[k];
          }
        }
      }
    }
    if MatchesNamePattern(s) && !AllNameChars(s) {
      forall i | 0 <= i < |s| ensures NameChar(s[i]) || (i == |s| - 1 && s[i] == '\n') {
        if i < |s| - 1 {
          assert s[..|s| - 1][i] == s[i];
        }
      }
    }
  }

  /** ValidateFileName: the name without directory and extension matches
    * the pattern. */
  function ValidateFileName(file: UploadedFile): (ok: bool)
    ensures var stem := GetFileNameWithoutExtension(file.fileName);
            ok <==> forall i :: 0 <= i < |stem| ==> NameChar(stem[i]) || (i == |stem| - 1 && stem[i] == '\n')
  {
    var stem := GetFileNameWithoutExtension(file.fileName);
    NamePatternMeaning(stem);
    MatchesNamePattern(stem)
  }

  /** The stem is all that is tested: any extension may follow a stem that
    * matches. */
  lemma StemAccepted(file: UploadedFile, stem: string, ext: string)
    requires AllNameChars(stem) && '.' !in ext && '/' !in ext && '.' !in stem && '/' !in stem
    ensures ValidateFileName(file.(fileName := stem + "." + ext))
  {
    StemOf(stem, ext);
  }

  /** A stem holding a character outside the class (a space, say) and not
    * ending in a line feed never passes, whatever the extension. */
  lemma StemRefused(file: UploadedFile, stem: string, ext: string, i: int)
    requires '.' !in ext && '/' !in ext && '.' !in stem && '/' !in stem
    requires 0 <= i < |stem| && !NameChar(stem[i]) && stem[|stem| - 1] != '\n'
    ensures !ValidateFileName(file.(fileName := stem + "." + ext))
  {
    StemOf(stem, ext);
    OutsideClass(stem, i);
  }

  /** One character outside the class, and no final line feed, is enough to
    * fail the pattern. */
  lemma OutsideClass(s: string, i: int)
    requires 0 <= i < |s| && !NameChar(s[i]) && s[|s| - 1] != '\n'
    ensures !MatchesNamePattern(s)
  {
  }

  /** The stem of "stem.ext" when neither part holds a '.' or a '/'. */
  lemma StemOf(stem: string, ext: string)
    requires '.' !in ext && '/' !in ext && '.' !in stem && '/' !in stem
    ensures GetFileNameWithoutExtension(stem + "." + ext) == stem
  {
    var path := stem + "." + ext;
    assert '/' !in path;
    LastIndexOfAbsent(path, '/');
    assert FileNameOf(path) == path;
    LastIndexOfAt(path, '.', |stem|);
    assert path[..|stem|] == stem;
  }

  lemma {:induction false} LastIndexOfAbsent(s: string, c: char)
    requires c !in s
    ensures LastIndexOf(s, c) == -1
    decreases |s|
  {
    if s != [] {
      assert c !in s[..|s| - 1];
      LastIndexOfAbsent(s[..|s| - 1], c);
    }
  }

  lemma {:induction false} LastIndexOfAt(s: string, c: char, k: int)
    requires 0 <= k < |s| && s[k] == c && c !in s[k + 1..]
    ensures LastIndexOf(s, c) == k
    decreases |s|
  {
    if k < |s| - 1 {
      assert s[|s| - 1] in s[k + 1..];
      assert s[..|s| - 1][k + 1..] == s[k + 1..|s| - 1];
      LastIndexOfAt(s[..|s| - 1], c, k);
    }
  }

  // -----------------------------------------------------------------------
  // Reserved names
  // -----------------------------------------------------------------------

  /** The output-file prefixes a name may not contain for each service. */
  const ReservedGeocode := "geocoder"
  const ReservedDriveTime := "drivetime"
  const ReservedDeprivationIndex := "dep_index"
  const ReservedCensusBlockGroup := "census_block_group"

  /** The ValidateFileName<Service> rule sets: the whole file name must not
    * contain the reserved word, ignoring case. */
  predicate ReservedNameFree(fileName: string, reserved: string)
  {
    !ContainsIgnoreCase(fileName, reserved)
  }

  /** A reserved word anywhere in the name, in any case, is refused. */
  lemma ReservedCaught(prefix: string, word: string, suffix: string, reserved: string)
    requires EqualsIgnoreCase(word, reserved)
    ensures !ReservedNameFree(prefix + word + suffix, reserved)
  {
    var s := prefix + word + suffix;
    assert s[|prefix|..|prefix| + |reserved|] == word;
    assert MatchesAt(s, reserved, |prefix|);
  }

  /** A name shorter than the reserved word always passes its rule. */
  lemma ShortNameFree(fileName: string, reserved: string)
    requires |fileName| < |reserved|
    ensures ReservedNameFree(fileName, reserved)
  {
  }

  // -----------------------------------------------------------------------
  // The Base rule set
  // -----------------------------------------------------------------------

  /** The rule of the Base set that stopped validation, in rule order. */
  datatype BaseFailure =
    | FileMissing
    | ContentTypeMissing
    | ContentTypeEmpty
    | ContentTypeNotAccepted
    | FileEmpty
    | DuplicateHeaders

  /** The Base rule set under CascadeMode.Stop: the first failing rule ends
    * validation. NotEmpty on a string refuses "" and white space only. */
  function ValidateBase(file: Option<UploadedFile>): (r: Option<BaseFailure>)
    ensures r == Some(FileMissing) <==> file.None?
    ensures r == Some(ContentTypeMissing) <==> file.Some? && file.value.contentType.None?
    ensures r.None? ==> file.Some? && file.value.contentType.Some? && file.value.contentType.value in ContentTypes
    ensures r.None? ==> RecordCountAboveMin(file.value) && RecordHeaderHasNoDuplicates(file.value)
  {
    if file.None? then Some(FileMissing)
    else
      var f := file.value;
      if f.contentType.None? then Some(ContentTypeMissing)
      else if AllWhiteSpace(f.contentType.value) then Some(ContentTypeEmpty)
      else if f.contentType.value !in ContentTypes then Some(ContentTypeNotAccepted)
      else if !RecordCountAboveMin(f) then Some(FileEmpty)
      else if !RecordHeaderHasNoDuplicates(f) then Some(DuplicateHeaders)
      else None
  }

  /** The Base set accepts exactly a text/csv file of at least two lines
    * whose header fields are distinct. */
  lemma BaseAccepts(file: Option<UploadedFile>)
    ensures ValidateBase(file).None? <==>
              file.Some? && file.value.contentType == Some("text/csv")
              && |Lines(file.value.content)| >= 2
              && NoDuplicates(HeaderFields(file.value.content).value)
  {
    assert !IsWhiteSpace("text/csv"[0]);
    if file.Some? && file.value.contentType == Some("text/csv") {
      assert !AllWhiteSpace(file.value.contentType.value);
      if |Lines(file.value.content)| >= 2 {
        assert HeaderFields(file.value.content).Some?;
      }
    }
  }

  /** Each failure names a rule that the file really breaks. */
  lemma BaseFailureMeaning(file: Option<UploadedFile>)
    ensures ValidateBase(file) == Some(FileMissing) <==> file.None?
    ensures ValidateBase(file) == Some(FileEmpty) ==> |Lines(file.value.content)| < 2
    ensures ValidateBase(file) == Some(DuplicateHeaders) ==>
              !NoDuplicates(HeaderFields(file.value.content).value)
    ensures ValidateBase(file) == Some(ContentTypeNotAccepted) ==>
              file.value.contentType.Some? && file.value.contentType.value != "text/csv"
  {
  }

  /** On a text/csv file of a header and at least one row, the Base set
    * decides on the header's fields alone. */
  lemma BaseOnCsv(fields: seq<string>, rows: seq<string>, name: string)
    requires |fields| >= 1 && |rows| >= 1
    requires forall i :: 0 <= i < |fields| ==> PlainWord(fields[i])
    requires forall i :: 0 <= i < |rows| ==> forall c :: c in rows[i] ==> !IsLineBreak(c)
    ensures ValidateBase(Some(UploadedFile(Some("text/csv"), Terminated([Join(fields, ',')] + rows), 0, name)))
            == if NoDuplicates(fields) then None else Some(DuplicateHeaders)
  {
    HeaderOfCsv(fields, rows);
    assert !IsWhiteSpace("text/csv"[0]);
  }

  /** The cases of the validator's test data: a header and rows pass, an
    * empty file, a null file and a repeated header column do not. */
  lemma ValidFileTestCase(rows: seq<string>, name: string)
    requires |rows| >= 1
    requires forall i :: 0 <= i < |rows| ==> forall c :: c in rows[i] ==> !IsLineBreak(c)
    ensures ValidateBase(Some(UploadedFile(Some("text/csv"), Terminated(["ID,address"] + rows), 0, name))) == None
  {
    var two: seq<string> := ["ID", "address"];
    JoinTwo();
    HeaderWords();
    assert two[0] == "ID" && two[1] == "address";
    assert NoDuplicates(two) by {
      assert two[0] != two[1] by { assert two[0][0] != two[1][0]; }
    }
    forall i | 0 <= i < |two|
      ensures PlainWord(two[i])
    {
      assert i == 0 || two[i] == "address";
    }
    BaseOnCsv(two, rows, name);
  }

  lemma EmptyFileTestCase(name: string)
    ensures ValidateBase(Some(UploadedFile(Some("text/csv"), "", 0, name))) == Some(FileEmpty)
    ensures ValidateBase(None) == Some(FileMissing)
  {
    assert !IsWhiteSpace("text/csv"[0]);
  }

  lemma DuplicateHeaderTestCase(rows: seq<string>, name: string)
    requires |rows| >= 1
    requires forall i :: 0 <= i < |rows| ==> forall c :: c in rows[i] ==> !IsLineBreak(c)
    ensures ValidateBase(Some(UploadedFile(Some("text/csv"), Terminated(["ID,address,address"] + rows), 0, name)))
            == Some(DuplicateHeaders)
  {
    var three: seq<string> := ["ID", "address", "address"];
    JoinThree();
    HeaderWords();
    assert three[0] == "ID" && three[1] == "address" && three[2] == "address";
    assert !NoDuplicates(three);
    forall i | 0 <= i < |three|
      ensures PlainWord(three[i])
    {
      assert i == 0 || three[i] == "address";
    }
    BaseOnCsv(three, rows, name);
  }

  /** The column names of the test files are plain words. */
  lemma HeaderWords()
    ensures PlainWord("ID") && PlainWord("address")
  {
  }

  lemma JoinTwo()
    ensures Join(["ID", "address"], ',') == "ID,address"
  {
    var two: seq<string> := ["ID", "address"];
    assert two[1..] == ["address"];
    assert "ID" + [','] + "address" == "ID,address";
  }

  lemma JoinThree()
    ensures Join(["ID", "address", "address"], ',') == "ID,address,address"
  {
    var three: seq<string> := ["ID", "address", "address"];
    assert three[1..] == ["address", "address"];
    assert three[1..][1..] == ["address"];
    assert Join(three[1..], ',') == "address,address";
    assert "ID" + [','] + "address,address" == "ID,address,address";
  }
}
