/** Lesson upload: the checks a ZIP archive must pass before it becomes an
    uploaded lesson, and the extraction of the lesson folder's files.

    The archive is given by its entry paths, in the order the ZIP library
    lists them; a folder is an entry whose path ends in '/'. The contents of
    the files are not modelled, only which files are taken and how each is
    classified. The metadata file's parsed contents are an input. */
module ContentUpload {
  import opened Strings

  const ZipRejected := "Please upload a ZIP file"
  const NoMetadata := "No metadata.json found. Please ensure the ZIP contains a valid lesson structure."
  const BadStructure := "Invalid folder structure. Expected: grade-X/subject/quarter-Y/topic-name/\nFound: "
  const MetadataNotInFolder := "metadata.json not found in lesson folder"
  const RequiredFiles: seq<string> := ["metadata.json", "content.md", "practice.json"]

  datatype Result<T> = Ok(value: T) | Err(message: string)

  /** `JSON.parse` of metadata.json: its `topicName` (absent or present,
      possibly empty), or the parser's error message. */
  datatype MetadataParse = Parsed(topicName: Option<string>) | ParseError(message: string)

  datatype UploadedFile = UploadedFile(path: string, binary: bool)

  datatype UploadedLesson = UploadedLesson(
    id: string,
    grade: nat,
    subject: string,
    quarter: nat,
    topicName: string,
    displayName: string,
    files: seq<UploadedFile>)

  /** What the upload handler ends with: no file chosen, an error message,
      or the lesson it saves and the success message. */
  datatype Outcome = NoFile | Failed(message: string) | Uploaded(lesson: UploadedLesson, message: string)

  /** The folder layout read off the archive: `grade-X/subject/quarter-Y/topic`. */
  datatype Layout = Layout(
    lessonPath: string,
    gradePart: string,
    subject: string,
    quarterPart: string,
    topicName: string,
    gradeDigits: string,
    quarterDigits: string)

  // ---------------------------------------------------------------------
  // Locating the lesson folder
  // ---------------------------------------------------------------------

  /** `files.find(f => f.includes(t))`, as an index. */
  function FindContaining(files: seq<string>, t: string): (r: Option<nat>)
    ensures r.Some? ==> r.value < |files| && Contains(files[r.value], t)
                        && forall j :: 0 <= j < r.value ==> !Contains(files[j], t)
    ensures r.None? ==> forall j :: 0 <= j < |files| ==> !Contains(files[j], t)
  {
    if files == [] then None
    else if Contains(files[0], t) then Some(0)
    else match FindContaining(files[1..], t)
      case None => None
      case Some(i) => Some(i + 1)
  }

  /** `f.substring(0, f.lastIndexOf('/'))`: the part before the last '/',
      or the empty string when there is none. */
  function FolderOf(f: string): (r: string)
    ensures |r| <= |f| && r == f[..|r|]
    ensures (exists j :: 0 <= j < |f| && f[j] == '/') ==>
              |r| < |f| && f[|r|] == '/' && forall j :: |r| < j < |f| ==> f[j] != '/'
    ensures (forall j :: 0 <= j < |f| ==> f[j] != '/') ==> r == []
  {
    match LastIndexOf(f, '/')
    case None => []
    case Some(i) => f[..i]
  }

  // ---------------------------------------------------------------------
  // `/prefix(\d+)/`
  // ---------------------------------------------------------------------

  /** `prefix` at `i`, followed by at least one digit. */
  predicate NumberedAt(s: string, prefix: string, i: nat) {
    OccursAt(s, prefix, i) && i + |prefix| < |s| && IsDigit(s[i + |prefix|])
  }

  /** The longest run of digits at the start of `s`. */
  function DigitRun(s: string): (r: string)
    ensures |r| <= |s| && r == s[..|r|] && AllDigits(r)
    ensures |r| < |s| ==> !IsDigit(s[|r|])
  {
    if s != [] && IsDigit(s[0]) then [s[0]] + DigitRun(s[1..]) else []
  }

  function FindNumbered(s: string, prefix: string, i: nat): (r: Option<nat>)
    decreases |s| - i
    ensures r.Some? ==> i <= r.value && NumberedAt(s, prefix, r.value)
                        && forall j :: i <= j < r.value ==> !NumberedAt(s, prefix, j)
    ensures r.None? ==> forall j :: i <= j ==> !NumberedAt(s, prefix, j)
  {
    if i + |prefix| >= |s| then None
    else if NumberedAt(s, prefix, i) then Some(i)
    else FindNumbered(s, prefix, i + 1)
  }

  /** `s.match(/prefix(\d+)/)[1]`: the digits after the leftmost `prefix`
      that is followed by a digit, taken greedily. */
  function MatchNumbered(s: string, prefix: string): (r: Option<string>)
    ensures r.Some? ==> r.value != [] && AllDigits(r.value)
    ensures r.None? <==> forall j :: !NumberedAt(s, prefix, j)
  {
    match FindNumbered(s, prefix, 0)
    case None => None
    case Some(i) => Some(DigitRun(s[i + |prefix|..]))
  }

  /** A segment that is exactly `prefix` and digits matches with those
      digits. */
  lemma MatchNumberedExact(prefix: string, digits: string)
    requires digits != [] && AllDigits(digits)
    ensures MatchNumbered(prefix + digits, prefix) == Some(digits)
  {
    var s := prefix + digits;
    assert s[..|prefix|] == prefix;
    assert NumberedAt(s, prefix, 0);
    assert s[|prefix|..] == digits;
    DigitRunAll(digits);
  }

  lemma {:induction false} DigitRunAll(s: string)
    requires AllDigits(s)
    ensures DigitRun(s) == s
  {
    if s != [] {
      DigitRunAll(s[1..]);
      assert [s[0]] + s[1..] == s;
    }
  }

  // ---------------------------------------------------------------------
  // Validation
  // ---------------------------------------------------------------------

  function BadGradeOrQuarter(gradePart: string, quarterPart: string): string {
    "Invalid grade or quarter format. Grade: " + gradePart + ", Quarter: " + quarterPart
  }

  /** The lesson folder the archive describes: the folder of the first
      entry naming metadata.json, which must have exactly four segments,
      the first containing `grade-<digits>` and the third
      `quarter-<digits>`. */
  function ReadLayout(files: seq<string>): (r: Result<Layout>)
    ensures r.Ok? ==>
              var l := r.value;
              && FindContaining(files, "metadata.json").Some?
              && l.lessonPath == FolderOf(files[FindContaining(files, "metadata.json").value])
              && Split(l.lessonPath, '/') == [l.gradePart, l.subject, l.quarterPart, l.topicName]
              && MatchNumbered(l.gradePart, "grade-") == Some(l.gradeDigits)
              && MatchNumbered(l.quarterPart, "quarter-") == Some(l.quarterDigits)
    ensures FindContaining(files, "metadata.json").None? ==> r == Err(NoMetadata)
    ensures FindContaining(files, "metadata.json").Some? ==>
              var lessonPath := FolderOf(files[FindContaining(files, "metadata.json").value]);
              |Split(lessonPath, '/')| != 4 ==> r == Err(BadStructure + lessonPath)
    ensures FindContaining(files, "metadata.json").Some? ==>
              var lessonPath := FolderOf(files[FindContaining(files, "metadata.json").value]);
              var parts := Split(lessonPath, '/');
              |parts| == 4 ==>
                && (MatchNumbered(parts[0], "grade-").None? || MatchNumbered(parts[2], "quarter-").None? ==>
                      r == Err(BadGradeOrQuarter(parts[0], parts[2])))
                && (MatchNumbered(parts[0], "grade-").Some? && MatchNumbered(parts[2], "quarter-").Some? ==>
                      r.Ok?)
  {
    match FindContaining(files, "metadata.json")
    case None => Err(NoMetadata)
    case Some(i) =>
      var lessonPath := FolderOf(files[i]);
      var parts := Split(lessonPath, '/');
      if |parts| != 4 then Err(BadStructure + lessonPath)
      else
        var gradeMatch := MatchNumbered(parts[0], "grade-");
        var quarterMatch := MatchNumbered(parts[2], "quarter-");
        if gradeMatch.None? || quarterMatch.None? then
          Err(BadGradeOrQuarter(parts[0], parts[2]))
        else
          Ok(Layout(lessonPath, parts[0], parts[1], parts[2], parts[3], gradeMatch.value, quarterMatch.value))
  }

  /** `requiredFiles.filter(f => !zip.files[`${lessonPath}/${f}`])`. */
  function MissingFiles(files: seq<string>, lessonPath: string, required: seq<string>): (r: seq<string>)
    ensures forall x :: x in r <==> x in required && lessonPath + "/" + x !in files
    ensures |r| <= |required|
  {
    if required == [] then []
    else
      var rest := MissingFiles(files, lessonPath, required[1..]);
      if lessonPath + "/" + required[0] in files then rest else [required[0]] + rest
  }

  // ---------------------------------------------------------------------
  // Extraction
  // ---------------------------------------------------------------------

  /** Whether an entry belongs to the lesson: `startsWith(lessonPath)` and
      not a folder. */
  predicate Taken(f: string, lessonPath: string) {
    StartsWith(f, lessonPath) && !EndsWith(f, "/")
  }

  /** `filePath.substring(lessonPath.length + 1)`; empty when the path is
      not that long. */
  function RelativePath(f: string, lessonPath: string): (r: string)
    ensures |lessonPath| + 1 <= |f| ==> r == f[|lessonPath| + 1..]
    ensures |lessonPath| + 1 > |f| ==> r == []
  {
    if |lessonPath| + 1 <= |f| then f[|lessonPath| + 1..] else []
  }

  /** `/\.(png|jpg|jpeg|gif|mp4|webm|pdf)$/i`. */
  predicate IsBinary(path: string) {
    var l := Lower(path);
    || EndsWith(l, ".png") || EndsWith(l, ".jpg") || EndsWith(l, ".jpeg") || EndsWith(l, ".gif")
    || EndsWith(l, ".mp4") || EndsWith(l, ".webm") || EndsWith(l, ".pdf")
  }

  /** The extension test ignores case. */
  lemma IsBinaryIgnoresCase(path: string)
    ensures IsBinary(Lower(path)) == IsBinary(path)
  {
    LowerIdempotent(path);
  }

  function FileOf(f: string, lessonPath: string): UploadedFile {
    var rel := RelativePath(f, lessonPath);
    UploadedFile(rel, IsBinary(rel))
  }

  /** The files the upload keeps, in archive order. */
  function Extracted(files: seq<string>, lessonPath: string): seq<UploadedFile>
  {
    if files == [] then []
    else
      var init := Extracted(files[..|files| - 1], lessonPath);
      var f := files[|files| - 1];
      if Taken(f, lessonPath) then init + [FileOf(f, lessonPath)] else init
  }

  /** The extraction `for` loop. */
  method ExtractFiles(files: seq<string>, lessonPath: string) returns (uploaded: seq<UploadedFile>)
    ensures uploaded == Extracted(files, lessonPath)
  {
    uploaded := [];
    var i := 0;
    while i < |files|
      invariant 0 <= i <= |files|
      invariant uploaded == Extracted(files[..i], lessonPath)
    {
      assert files[..i + 1][..i] == files[..i];
      var filePath := files[i];
      if StartsWith(filePath, lessonPath) && !EndsWith(filePath, "/") {
        var relativePath := RelativePath(filePath, lessonPath);
        var isBinary := IsBinary(relativePath);
        uploaded := uploaded + [UploadedFile(relativePath, isBinary)];
      }
      i := i + 1;
    }
    assert files[..i] == files;
  }

  /** Exactly the taken entries are extracted, each under its relative path
      and with its classification; nothing is added. */
  lemma {:induction false} ExtractedSpec(files: seq<string>, lessonPath: string)
    ensures |Extracted(files, lessonPath)| <= |files|
    ensures forall u :: u in Extracted(files, lessonPath) <==>
              exists j :: 0 <= j < |files| && Taken(files[j], lessonPath) && u == FileOf(files[j], lessonPath)
  {
    if files != [] {
      var init := files[..|files| - 1];
      ExtractedSpec(init, lessonPath);
      assert forall j :: 0 <= j < |init| ==> init[j] == files[j];
      forall u | u in Extracted(files, lessonPath)
        ensures exists j :: 0 <= j < |files| && Taken(files[j], lessonPath) && u == FileOf(files[j], lessonPath)
      {
        if u !in Extracted(init, lessonPath) {
          assert u == FileOf(files[|files| - 1], lessonPath);
        }
      }
      forall u | exists j :: 0 <= j < |files| && Taken(files[j], lessonPath) && u == FileOf(files[j], lessonPath)
        ensures u in Extracted(files, lessonPath)
      {
        var j :| 0 <= j < |files| && Taken(files[j], lessonPath) && u == FileOf(files[j], lessonPath);
        if j < |init| {
          assert Taken(init[j], lessonPath) && u == FileOf(init[j], lessonPath);
        }
      }
    }
  }

  /** The prefix test has no '/' after the lesson path, so the files of a
      sibling folder whose name extends the topic's (`topic-a` and
      `topic-ab`) are extracted with the lesson. */
  lemma SiblingFolderTaken(lessonPath: string, rest: string, name: string)
    requires name != [] && name[|name| - 1] != '/'
    ensures Taken(lessonPath + rest + "/" + name, lessonPath)
    ensures FileOf(lessonPath + rest + "/" + name, lessonPath) in Extracted([lessonPath + rest + "/" + name], lessonPath)
  {
    var f := lessonPath + rest + "/" + name;
    assert f[..|lessonPath|] == lessonPath;
    assert f[|f| - 1] == name[|name| - 1];
    assert Extracted([f], lessonPath) == Extracted([], lessonPath) + [FileOf(f, lessonPath)] by {
      var files: seq<string> := [f];
      assert files[..0] == [];
    }
  }

  // ---------------------------------------------------------------------
  // The upload handler
  // ---------------------------------------------------------------------

  /** The lesson record: id `{gradePart}-{subject}-q{quarter}-{topicName}`
      with the quarter printed as a number, and the metadata's topic name
      as display name unless it is missing or empty. */
  function MakeLesson(l: Layout, topicName: Option<string>, files: seq<UploadedFile>): (r: UploadedLesson)
    requires AllDigits(l.gradeDigits) && AllDigits(l.quarterDigits)
    ensures r.id == l.gradePart + "-" + l.subject + "-q" + NatToString(ParseDigits(l.quarterDigits)) + "-" + l.topicName
    ensures r.grade == ParseDigits(l.gradeDigits) && r.quarter == ParseDigits(l.quarterDigits)
    ensures r.displayName == if topicName.Some? && topicName.value != [] then topicName.value else l.topicName
    ensures r.subject == l.subject && r.topicName == l.topicName && r.files == files
  {
    var quarter := ParseDigits(l.quarterDigits);
    UploadedLesson(
      l.gradePart + "-" + l.subject + "-q" + NatToString(quarter) + "-" + l.topicName,
      ParseDigits(l.gradeDigits), l.subject, quarter, l.topicName,
      if topicName.Some? && topicName.value != [] then topicName.value else l.topicName,
      files)
  }

  /** The success message; a missing topic name prints as `undefined`. */
  function SuccessMessage(topicName: Option<string>, grade: nat, subject: string, quarter: nat): string
  {
    "Successfully uploaded: " + (if topicName.Some? then topicName.value else "undefined")
    + " (Grade " + NatToString(grade) + ", " + subject + ", Q" + NatToString(quarter) + ")"
  }

  /** `handleFileUpload`, as a function of the chosen file's name, the
      archive's entries and the parsed metadata. */
  function Upload(fileName: Option<string>, files: seq<string>, metadata: MetadataParse): Outcome
  {
    if fileName.None? then NoFile
    else if !EndsWith(fileName.value, ".zip") then Failed(ZipRejected)
    else
      match ReadLayout(files)
      case Err(message) => Failed(message)
      case Ok(l) =>
        if l.lessonPath + "/metadata.json" !in files then Failed(MetadataNotInFolder)
        else if metadata.ParseError? then Failed(metadata.message)
        else
          var missing := MissingFiles(files, l.lessonPath, RequiredFiles);
          if missing != [] then Failed("Missing required files: " + Join(missing, ", "))
          else
            var lesson := MakeLesson(l, metadata.topicName, Extracted(files, l.lessonPath));
            Uploaded(lesson, SuccessMessage(metadata.topicName, lesson.grade, l.subject, lesson.quarter))
  }

  /** The handler itself, with the extraction loop. */
  method HandleFileUpload(fileName: Option<string>, files: seq<string>, metadata: MetadataParse)
    returns (outcome: Outcome)
    ensures outcome == Upload(fileName, files, metadata)
    ensures outcome.Uploaded? ==>
              && EndsWith(fileName.value, ".zip") && ReadLayout(files).Ok? && metadata.Parsed?
              && forall f :: f in RequiredFiles ==> ReadLayout(files).value.lessonPath + "/" + f in files
  {
    if fileName.None? {
      return NoFile;
    }
    if !EndsWith(fileName.value, ".zip") {
      return Failed(ZipRejected);
    }
    var layout := ReadLayout(files);
    if layout.Err? {
      return Failed(layout.message);
    }
    var l := layout.value;
    if l.lessonPath + "/metadata.json" !in files {
      return Failed(MetadataNotInFolder);
    }
    if metadata.ParseError? {
      return Failed(metadata.message);
    }
    var missing := MissingFiles(files, l.lessonPath, RequiredFiles);
    if missing != [] {
      return Failed("Missing required files: " + Join(missing, ", "));
    }
    var uploaded := ExtractFiles(files, l.lessonPath);
    var lesson := MakeLesson(l, metadata.topicName, uploaded);
    outcome := Uploaded(lesson, SuccessMessage(metadata.topicName, lesson.grade, l.subject, lesson.quarter));
  }

  // ---------------------------------------------------------------------
  // Properties
  // ---------------------------------------------------------------------

  /** A file whose name does not end in `.zip` is refused before its
      contents are looked at. */
  lemma NonZipRejected(fileName: string, files: seq<string>, metadata: MetadataParse)
    requires !EndsWith(fileName, ".zip")
    ensures Upload(Some(fileName), files, metadata) == Failed("Please upload a ZIP file")
  {
  }

  /** Past the name and layout checks, the upload aborts when metadata.json
      is not in the lesson folder, when it does not parse, and when a
      required file is missing, in that order. */
  lemma UploadRejects(fileName: string, files: seq<string>, metadata: MetadataParse)
    requires EndsWith(fileName, ".zip") && ReadLayout(files).Ok?
    ensures var lp := ReadLayout(files).value.lessonPath;
            var outcome := Upload(Some(fileName), files, metadata);
            && (lp + "/metadata.json" !in files ==> outcome == Failed(MetadataNotInFolder))
            && (lp + "/metadata.json" in files && metadata.ParseError? ==> outcome == Failed(metadata.message))
            && (lp + "/metadata.json" in files && metadata.Parsed? && MissingFiles(files, lp, RequiredFiles) != [] ==>
                  outcome == Failed("Missing required files: " + Join(MissingFiles(files, lp, RequiredFiles), ", ")))
  {
  }

  /** Because the metadata file is checked first, a missing-files error
      only ever names content.md and practice.json, in that order. */
  lemma MissingNamesOnlyContentAndPractice(files: seq<string>, lessonPath: string)
    requires lessonPath + "/metadata.json" in files
    ensures MissingFiles(files, lessonPath, RequiredFiles)
            == (if lessonPath + "/content.md" in files then [] else ["content.md"])
               + (if lessonPath + "/practice.json" in files then [] else ["practice.json"])
  {
    var req1: seq<string> := ["content.md", "practice.json"];
    var req2: seq<string> := ["practice.json"];
    assert RequiredFiles[1..] == req1 && req1[1..] == req2 && req2[1..] == [];
    assert lessonPath + "/" + "practice.json" == lessonPath + "/practice.json";
    assert lessonPath + "/" + "content.md" == lessonPath + "/content.md";
    var m2 := MissingFiles(files, lessonPath, req2);
    assert m2 == (if lessonPath + "/practice.json" in files then [] else ["practice.json"]);
    var m1 := MissingFiles(files, lessonPath, req1);
    assert m1 == (if lessonPath + "/content.md" in files then [] else ["content.md"]) + m2;
    assert lessonPath + "/" + "metadata.json" == lessonPath + "/metadata.json";
    assert MissingFiles(files, lessonPath, RequiredFiles) == m1;
  }

  /** An uploaded lesson's id carries the quarter digits exactly as the
      folder names them, when they have no leading zero. */
  lemma LessonIdKeepsQuarter(l: Layout, topicName: Option<string>, files: seq<UploadedFile>)
    requires AllDigits(l.gradeDigits) && AllDigits(l.quarterDigits) && l.quarterDigits != []
    requires |l.quarterDigits| > 1 ==> l.quarterDigits[0] != '0'
    ensures MakeLesson(l, topicName, files).id == l.gradePart + "-" + l.subject + "-q" + l.quarterDigits + "-" + l.topicName
  {
    NatToStringParse(l.quarterDigits);
  }

  predicate NoSlash(s: string) {
    forall i :: 0 <= i < |s| ==> s[i] != '/'
  }

  lemma NumberedNoSlash(prefix: string, digits: string)
    requires NoSlash(prefix) && AllDigits(digits)
    ensures NoSlash(prefix + digits)
  {
    assert forall i :: |prefix| <= i < |prefix + digits| ==> (prefix + digits)[i] == digits[i - |prefix|];
  }

  /** The folder of `lp/metadata.json` is `lp`. */
  lemma FolderOfMetadata(lp: string)
    ensures FolderOf(lp + "/metadata.json") == lp
  {
    var f := lp + "/metadata.json";
    var m := "/metadata.json";
    assert f[|lp|] == '/';
    assert forall j :: |lp| < j < |f| ==> f[j] == m[j - |lp|];
  }

  lemma SplitFour(a: string, b: string, c: string, d: string)
    requires NoSlash(a) && NoSlash(b) && NoSlash(c) && NoSlash(d)
    ensures Split(a + "/" + b + "/" + c + "/" + d, '/') == [a, b, c, d]
  {
    var cd := c + "/" + d;
    var bcd := b + "/" + cd;
    SplitWithout(d, '/');
    SplitPrefix(c, '/', d);
    SplitPrefix(b, '/', cd);
    SplitPrefix(a, '/', bcd);
    JoinedRight(a, b, c, d);
  }

  /** `a/b/c/d` built left to right is the same string built right to left. */
  lemma JoinedRight(a: string, b: string, c: string, d: string)
    ensures a + "/" + (b + "/" + (c + "/" + d)) == a + "/" + b + "/" + c + "/" + d
  {
  }

  lemma FirstEntryNamesMetadata(lp: string, others: seq<string>)
    ensures FindContaining([lp + "/metadata.json"] + others, "metadata.json") == Some(0)
  {
    var first := lp + "/metadata.json";
    assert first[|lp| + 1..] == "metadata.json";
    assert OccursAt(first, "metadata.json", |lp| + 1);
    ContainsIff(first, "metadata.json");
  }

  /** The layout read off an archive whose first entry naming
      metadata.json is `lp/metadata.json`, for a four-segment `lp` whose
      first and third segments hold the grade and quarter numbers. */
  lemma LayoutOfFirstEntry(lp: string, others: seq<string>, a: string, b: string, c: string, d: string, g: string, q: string)
    requires Split(lp, '/') == [a, b, c, d]
    requires MatchNumbered(a, "grade-") == Some(g) && MatchNumbered(c, "quarter-") == Some(q)
    ensures ReadLayout([lp + "/metadata.json"] + others) == Ok(Layout(lp, a, b, c, d, g, q))
  {
    FirstEntryNamesMetadata(lp, others);
    FolderOfMetadata(lp);
  }

  lemma WellFormedLayout(g: string, subject: string, q: string, topic: string, others: seq<string>)
    requires g != [] && AllDigits(g) && q != [] && AllDigits(q)
    requires NoSlash(subject) && NoSlash(topic)
    ensures var gp, qp := "grade-" + g, "quarter-" + q;
            var lp := gp + "/" + subject + "/" + qp + "/" + topic;
            ReadLayout([lp + "/metadata.json"] + others) == Ok(Layout(lp, gp, subject, qp, topic, g, q))
  {
    NumberedNoSlash("grade-", g);
    NumberedNoSlash("quarter-", q);
    MatchNumberedExact("grade-", g);
    MatchNumberedExact("quarter-", q);
    var gp, qp := "grade-" + g, "quarter-" + q;
    SplitFour(gp, subject, qp, topic);
    LayoutOfFirstEntry(gp + "/" + subject + "/" + qp + "/" + topic, others, gp, subject, qp, topic, g, q);
  }

  /** A well-formed archive is accepted: the first entry naming
      metadata.json is `grade-G/subject/quarter-Q/topic/metadata.json`,
      the three required files are present and the metadata parses. The
      lesson then has grade G and quarter Q and holds every file of its
      folder. */
  lemma WellFormedAccepted(name: string, g: string, subject: string, q: string, topic: string,
                           others: seq<string>, topicName: Option<string>)
    requires EndsWith(name, ".zip")
    requires g != [] && AllDigits(g) && q != [] && AllDigits(q)
    requires NoSlash(subject) && NoSlash(topic)
    requires var lp := "grade-" + g + "/" + subject + "/quarter-" + q + "/" + topic;
             lp + "/content.md" in others && lp + "/practice.json" in others
    ensures var lp := "grade-" + g + "/" + subject + "/quarter-" + q + "/" + topic;
            var files := [lp + "/metadata.json"] + others;
            var out := Upload(Some(name), files, Parsed(topicName));
            && out.Uploaded?
            && out.lesson.grade == ParseDigits(g) && out.lesson.quarter == ParseDigits(q)
            && out.lesson.subject == subject && out.lesson.topicName == topic
            && out.lesson.files == Extracted(files, lp)
  {
    var gp, qp := "grade-" + g, "quarter-" + q;
    var lp := "grade-" + g + "/" + subject + "/quarter-" + q + "/" + topic;
    LayoutPath(g, subject, q, topic);
    var files := [lp + "/metadata.json"] + others;
    WellFormedLayout(g, subject, q, topic, others);
    MissingNamesOnlyContentAndPractice(files, lp);
    UploadAccepts(name, files, Layout(lp, gp, subject, qp, topic, g, q), topicName);
  }

  lemma LayoutPath(g: string, subject: string, q: string, topic: string)
    ensures "grade-" + g + "/" + subject + "/quarter-" + q + "/" + topic
            == ("grade-" + g) + "/" + subject + "/" + ("quarter-" + q) + "/" + topic
  {
  }

  /** Past the layout, the metadata-location and the required-file checks,
      the handler uploads the lesson built from the layout. */
  lemma UploadAccepts(name: string, files: seq<string>, l: Layout, topicName: Option<string>)
    requires EndsWith(name, ".zip") && ReadLayout(files) == Ok(l)
    requires l.lessonPath + "/metadata.json" in files
    requires MissingFiles(files, l.lessonPath, RequiredFiles) == []
    ensures Upload(Some(name), files, Parsed(topicName)).Uploaded?
    ensures Upload(Some(name), files, Parsed(topicName)).lesson
            == MakeLesson(l, topicName, Extracted(files, l.lessonPath))
  {
  }
}
