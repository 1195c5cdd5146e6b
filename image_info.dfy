/** The decision logic of "image info": the query filters, the three outcomes
    by result count, and the layout of the single-image report. Printing is
    the returned sequence of lines (one element per print call, without its
    newline); sys.exit(1) is an outcome that carries exit code 1. */
module ImageInfo {
  import opened Format
  import opened Sizes
  import opened Images
  import opened ImageListing

  /** The command line of "image info FILENAME [--sha256 [VALUE]]" and the
      global --json flag. A bare --sha256 gives no value (None). */
  datatype InfoArgs = InfoArgs(filename: string, sha256: Option<string>, json: bool)

  /** What the single-lookup call returns: the total count of matches and the
      records themselves. */
  datatype Response = Response(count: int, results: seq<Image>)

  datatype InfoOutcome =
    | Exit(lines: seq<string>, code: int)   // lines printed, then sys.exit(code)
    | Report(lines: seq<string>)            // the detail report, normal return
    | JsonRecord(record: Image)             // JSON mode: the record, no report text
    | IndexError                            // results[0] of an empty results list
    | TimestampError                        // utcfromtimestamp raised: mtime out of range

  /** Python truthiness of the optional --sha256 value. */
  predicate Truthy(s: Option<string>)
  {
    s.Some? && s.value != ""
  }

  /** The query filters: file_name always, sha256 only when a non-empty value
      was given, and nothing else. */
  function Filters(filename: string, sha256: Option<string>): (f: map<string, string>)
    ensures "file_name" in f && f["file_name"] == filename
    ensures "sha256" in f <==> sha256.Some? && sha256.value != ""
    ensures "sha256" in f ==> f["sha256"] == sha256.value
    ensures f.Keys <= {"file_name", "sha256"}
  {
    var f := map["file_name" := filename];
    if Truthy(sha256) then f["sha256" := sha256.value] else f
  }

  /** The three ways the count of matches is read. Every count that is neither
      0 nor above 1 (1, and also a negative count) takes the single-image path. */
  datatype Match = NotFound | Ambiguous | Single

  function Classify(count: int): Match
  {
    if count == 0 then NotFound else if count > 1 then Ambiguous else Single
  }

  const AmbiguityMessage := "More than one image with that name, use --sha256 to specify."

  /** Width of the label column of the report ('{0:15} {1}'). */
  const LabelColumn: nat := 15
  /** Width of the label column of the checksums block (' {0:7} {1}'). */
  const ChecksumColumn: nat := 7

  function Field(title: string, value: string): string
  {
    LeftJustify(title, LabelColumn) + " " + value
  }

  function Checksum(title: string, value: string): string
  {
    " " + LeftJustify(title, ChecksumColumn) + " " + value
  }

  /** The "Used in composes" block: only when there is at least one compose,
      a heading then one " * c" line per compose in order. */
  function ComposesBlock(composes: seq<string>): (lines: seq<string>)
  {
    if composes == [] then []
    else ["\nUsed in composes:"] + seq(|composes|, i requires 0 <= i < |composes| => " * " + composes[i])
  }

  /** The detail report of one image. mtimeText is the text of
      datetime.utcfromtimestamp(mtime), whose calendar arithmetic is not
      modelled. */
  function ReportLines(image: Image, mtimeText: string): (lines: seq<string>)
    ensures |lines| >= 15
  {
    [ Field("File Name", image.fileName),
      Field("Image Type", image.imageType),
      Field("Image Format", image.imageFormat),
      Field("Arch", image.arch),
      Field("Disc", IntToString(image.discNumber) + " / " + IntToString(image.discCount)),
      Field("Modified", IntToString(image.mtime) + " (" + mtimeText + ")"),
      Field("Size", NatToString(image.size) + " (" + SizeText(image.size) + ")"),
      Field("Bootable", if image.bootable then "yes" else "no"),
      Field("Volume ID", image.volumeId),
      Field("Implant MD5", image.implantMd5),
      Field("Subvariant", image.subvariant),
      "\nChecksums:",
      Checksum("MD5", image.md5),
      Checksum("SHA1", image.sha1),
      Checksum("SHA256", image.sha256)
    ] + ComposesBlock(image.composes)
  }

  /** The response of the lookup made with the filters of args. */
  function Query(args: InfoArgs, lookup: map<string, string> -> Response): Response
  {
    lookup(Filters(args.filename, args.sha256))
  }

  /** image_info: query, then dispatch on the count of matches. utc gives
      the text of datetime.utcfromtimestamp for an epoch, or None where that
      call raises (an epoch outside the years 1 to 9999); it runs before the
      first report line is printed. */
  function Info(args: InfoArgs, lookup: map<string, string> -> Response, utc: int -> Option<string>): (r: InfoOutcome)
    ensures r.Exit? <==> Classify(Query(args, lookup).count) != Single
    ensures r.Exit? ==> r.code == 1
    ensures r.IndexError? <==> Classify(Query(args, lookup).count) == Single && Query(args, lookup).results == []
    ensures r.JsonRecord? ==> args.json && r.record == Query(args, lookup).results[0]
    ensures r.TimestampError? <==>
      && Classify(Query(args, lookup).count) == Single && Query(args, lookup).results != []
      && !args.json && utc(Query(args, lookup).results[0].mtime).None?
    ensures r.Report? ==> !args.json
  {
    var response := Query(args, lookup);
    match Classify(response.count)
    case NotFound => Exit(["Not found"], 1)
    case Ambiguous => Exit([AmbiguityMessage] + ListingLines(response.results, true), 1)
    case Single =>
      if response.results == [] then IndexError
      else if args.json then JsonRecord(response.results[0])
      else
        match utc(response.results[0].mtime)
        case None => TimestampError
        case Some(mtimeText) => Report(ReportLines(response.results[0], mtimeText))
  }

  /** The text of a line from the given column on (empty for a shorter line). */
  function From(line: string, column: nat): string
  {
    if column <= |line| then line[column..] else ""
  }

  /** The text of a line before the given column (the whole of a shorter line). */
  function Upto(line: string, column: nat): string
  {
    if column <= |line| then line[..column] else line
  }

  /** The labelled prefix '{label:15} ' of a report line. */
  function LabelPrefix(title: string): string
  {
    LeftJustify(title, LabelColumn) + " "
  }

  /** The labelled prefix ' {label:7} ' of a checksum line. */
  function ChecksumPrefix(title: string): string
  {
    " " + LeftJustify(title, ChecksumColumn) + " "
  }

  /** A report line read back: a label no wider than its column is padded
      with spaces to exactly 15 characters and followed by one space, so the
      value starts at column 16. */
  lemma {:induction false} FieldReadsBack(title: string, value: string)
    requires |title| <= LabelColumn
    ensures |Field(title, value)| == LabelColumn + 1 + |value|
    ensures Field(title, value)[..LabelColumn + 1] == LeftJustify(title, LabelColumn) + " "
    ensures Field(title, value)[..|title|] == title
    ensures forall i :: |title| <= i <= LabelColumn ==> Field(title, value)[i] == ' '
    ensures Upto(Field(title, value), LabelColumn + 1) == LabelPrefix(title)
    ensures From(Field(title, value), LabelColumn + 1) == value
  {
    var padded := LeftJustify(title, LabelColumn);
    assert Field(title, value) == padded + (" " + value);
    assert |padded| == LabelColumn;
  }

  /** A checksum line read back: a space, the label padded with spaces to
      7 characters and a space, so the checksum starts at column 9. */
  lemma {:induction false} ChecksumReadsBack(title: string, value: string)
    requires |title| <= ChecksumColumn
    ensures |Checksum(title, value)| == ChecksumColumn + 2 + |value|
    ensures Checksum(title, value)[..ChecksumColumn + 2] == " " + LeftJustify(title, ChecksumColumn) + " "
    ensures Checksum(title, value)[0] == ' ' && Checksum(title, value)[1..|title| + 1] == title
    ensures forall i :: |title| < i < ChecksumColumn + 2 ==> Checksum(title, value)[i] == ' '
    ensures Upto(Checksum(title, value), ChecksumColumn + 2) == ChecksumPrefix(title)
    ensures From(Checksum(title, value), ChecksumColumn + 2) == value
  {
    var padded := LeftJustify(title, ChecksumColumn);
    assert Checksum(title, value) == (" " + padded + " ") + value;
    assert |" " + padded + " "| == ChecksumColumn + 2;
  }

  /** Every label fits its 15-column field, so in each labelled line the
      value starts at column 16, after the padded label and a space. These
      are the identity lines. */
  lemma ReportIdentity(image: Image, mtimeText: string)
    ensures |ReportLines(image, mtimeText)| >= 15
    ensures Upto(ReportLines(image, mtimeText)[0], LabelColumn + 1) == LabelPrefix("File Name")
    ensures Upto(ReportLines(image, mtimeText)[1], LabelColumn + 1) == LabelPrefix("Image Type")
    ensures Upto(ReportLines(image, mtimeText)[2], LabelColumn + 1) == LabelPrefix("Image Format")
    ensures Upto(ReportLines(image, mtimeText)[3], LabelColumn + 1) == LabelPrefix("Arch")
    ensures From(ReportLines(image, mtimeText)[0], LabelColumn + 1) == image.fileName
    ensures From(ReportLines(image, mtimeText)[1], LabelColumn + 1) == image.imageType
    ensures From(ReportLines(image, mtimeText)[2], LabelColumn + 1) == image.imageFormat
    ensures From(ReportLines(image, mtimeText)[3], LabelColumn + 1) == image.arch
  {
    FieldReadsBack("File Name", image.fileName);
    FieldReadsBack("Image Type", image.imageType);
    FieldReadsBack("Image Format", image.imageFormat);
    FieldReadsBack("Arch", image.arch);
  }

  /** The disc position, the modification time and the size follow at
      column 16: "N / M"; the raw epoch, then the UTC time in parentheses; the
      raw byte count, then size_format's text in parentheses. */
  lemma ReportMeasures(image: Image, mtimeText: string)
    ensures |ReportLines(image, mtimeText)| >= 15
    ensures Upto(ReportLines(image, mtimeText)[4], LabelColumn + 1) == LabelPrefix("Disc")
    ensures Upto(ReportLines(image, mtimeText)[5], LabelColumn + 1) == LabelPrefix("Modified")
    ensures Upto(ReportLines(image, mtimeText)[6], LabelColumn + 1) == LabelPrefix("Size")
    ensures From(ReportLines(image, mtimeText)[4], LabelColumn + 1) ==
      IntToString(image.discNumber) + " / " + IntToString(image.discCount)
    ensures From(ReportLines(image, mtimeText)[5], LabelColumn + 1) ==
      IntToString(image.mtime) + " (" + mtimeText + ")"
    ensures From(ReportLines(image, mtimeText)[6], LabelColumn + 1) ==
      NatToString(image.size) + " (" + SizeText(image.size) + ")"
  {
    FieldReadsBack("Disc", IntToString(image.discNumber) + " / " + IntToString(image.discCount));
    FieldReadsBack("Modified", IntToString(image.mtime) + " (" + mtimeText + ")");
    FieldReadsBack("Size", NatToString(image.size) + " (" + SizeText(image.size) + ")");
  }

  /** The Bootable line reads yes exactly for a bootable image, and the
      volume ID, implant MD5 and subvariant follow at column 16. */
  lemma ReportFlags(image: Image, mtimeText: string)
    ensures |ReportLines(image, mtimeText)| >= 15
    ensures Upto(ReportLines(image, mtimeText)[7], LabelColumn + 1) == LabelPrefix("Bootable")
    ensures Upto(ReportLines(image, mtimeText)[8], LabelColumn + 1) == LabelPrefix("Volume ID")
    ensures Upto(ReportLines(image, mtimeText)[9], LabelColumn + 1) == LabelPrefix("Implant MD5")
    ensures Upto(ReportLines(image, mtimeText)[10], LabelColumn + 1) == LabelPrefix("Subvariant")
    ensures From(ReportLines(image, mtimeText)[7], LabelColumn + 1) == (if image.bootable then "yes" else "no")
    ensures From(ReportLines(image, mtimeText)[8], LabelColumn + 1) == image.volumeId
    ensures From(ReportLines(image, mtimeText)[9], LabelColumn + 1) == image.implantMd5
    ensures From(ReportLines(image, mtimeText)[10], LabelColumn + 1) == image.subvariant
  {
    FieldReadsBack("Bootable", if image.bootable then "yes" else "no");
    FieldReadsBack("Volume ID", image.volumeId);
    FieldReadsBack("Implant MD5", image.implantMd5);
    FieldReadsBack("Subvariant", image.subvariant);
  }

  /** The checksums block: its heading after an empty line, then MD5, SHA1
      and SHA256, each starting at column 9. */
  lemma ReportChecksums(image: Image, mtimeText: string)
    ensures |ReportLines(image, mtimeText)| >= 15
    ensures ReportLines(image, mtimeText)[11] == "\nChecksums:"
    ensures Upto(ReportLines(image, mtimeText)[12], ChecksumColumn + 2) == ChecksumPrefix("MD5")
    ensures Upto(ReportLines(image, mtimeText)[13], ChecksumColumn + 2) == ChecksumPrefix("SHA1")
    ensures Upto(ReportLines(image, mtimeText)[14], ChecksumColumn + 2) == ChecksumPrefix("SHA256")
    ensures From(ReportLines(image, mtimeText)[12], ChecksumColumn + 2) == image.md5
    ensures From(ReportLines(image, mtimeText)[13], ChecksumColumn + 2) == image.sha1
    ensures From(ReportLines(image, mtimeText)[14], ChecksumColumn + 2) == image.sha256
  {
    ChecksumReadsBack("MD5", image.md5);
    ChecksumReadsBack("SHA1", image.sha1);
    ChecksumReadsBack("SHA256", image.sha256);
  }

  /** After the fifteen fixed lines comes the composes block, present only
      when there are composes: its heading, then each compose in order. */
  lemma ReportComposes(image: Image, mtimeText: string)
    ensures var lines := ReportLines(image, mtimeText);
      && |lines| == 15 + (if image.composes == [] then 0 else 1 + |image.composes|)
      && (image.composes != [] ==> lines[15] == "\nUsed in composes:")
      && (forall i :: 0 <= i < |image.composes| ==> lines[16 + i] == " * " + image.composes[i])
  {
  }

  /** Zero matches: the single line "Not found" and exit code 1. */
  lemma InfoNotFound(args: InfoArgs, lookup: map<string, string> -> Response, utc: int -> Option<string>)
    requires Query(args, lookup).count == 0
    ensures Info(args, lookup, utc) == Exit(["Not found"], 1)
  {
  }

  /** More than one match: the ambiguity message, then the candidates listed
      with their SHA256 (header, empty line, one row per result), exit code 1. */
  lemma InfoAmbiguous(args: InfoArgs, lookup: map<string, string> -> Response, utc: int -> Option<string>)
    requires Query(args, lookup).count > 1
    ensures var r := Info(args, lookup, utc);
      var results := Query(args, lookup).results;
      && r.Exit? && r.code == 1
      && r.lines[0] == AmbiguityMessage
      && (results == [] ==> r.lines == [AmbiguityMessage])
      && (results != [] ==>
            && |r.lines| == |results| + 3
            && r.lines[1] == Row("File-Name", "SHA256", true)
            && r.lines[2] == ""
            && forall i :: 0 <= i < |results| ==> r.lines[i + 3] == Row(results[i].fileName, results[i].sha256, true))
  {
    ListingShape(Query(args, lookup).results, true);
  }

  /** The single-image path (count 1, and also a negative count): the record
      itself in JSON mode and no report text; else nothing at all when the
      modification time cannot be converted, and otherwise the report, which
      runs past its fifteen fixed lines exactly when the record names at
      least one compose. */
  lemma InfoSingle(args: InfoArgs, lookup: map<string, string> -> Response, utc: int -> Option<string>)
    requires Classify(Query(args, lookup).count) == Single && Query(args, lookup).results != []
    ensures var image := Query(args, lookup).results[0];
      var r := Info(args, lookup, utc);
      && (args.json ==> r == JsonRecord(image))
      && (!args.json && utc(image.mtime).None? ==> r == TimestampError)
      && (!args.json && utc(image.mtime).Some? ==>
            && r == Report(ReportLines(image, utc(image.mtime).value))
            && (|r.lines| > 15 <==> image.composes != []))
  {
    var image := Query(args, lookup).results[0];
    if utc(image.mtime).Some? {
      ReportComposes(image, utc(image.mtime).value);
    }
  }
}
