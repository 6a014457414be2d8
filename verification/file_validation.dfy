/** The client-side check a dropped file must pass before it may be
    uploaded, and the two small view helpers that describe a selected file:
    its icon and a rough processing-time estimate. */
module FileValidation {
  import opened Text

  const MiB: nat := 1024 * 1024
  /** Files above this many bytes are refused. */
  const MaxSize: nat := 50 * MiB
  /** Files above this many bytes (and within the limit) draw a warning. */
  const LargeFileSize: nat := 10 * MiB
  /** Names longer than this draw a warning. */
  const MaxNameLength: nat := 100

  const AllowedTypes: seq<string> := [
    "application/pdf",
    "application/msword",
    "application/vnd.openxmlformats-officedocument.wordprocessingml.document"
  ]
  const AllowedExtensions: seq<string> := [".pdf", ".doc", ".docx"]

  /** What the browser reports about a file: its name, size in bytes and declared MIME type. */
  datatype FileInfo = FileInfo(name: string, size: nat, mimeType: string)

  /** The three reasons a file is refused. The size figure in the too-large
      message is floating-point formatting and is not modelled. */
  datatype FileError = TooLarge | UnsupportedType(extension: string) | EmptyFile

  datatype FileWarning = LongName | LargeFile

  datatype Validation = Validation(isValid: bool, errors: seq<FileError>, warnings: seq<FileWarning>)

  /** The order in which the checks report errors. */
  function ErrorRank(e: FileError): nat {
    match e
    case TooLarge => 0
    case UnsupportedType(_) => 1
    case EmptyFile => 2
  }

  /** The order in which the checks report warnings. */
  function WarningRank(w: FileWarning): nat {
    match w
    case LongName => 0
    case LargeFile => 1
  }

  /** The text the view shows for a warning. */
  function WarningText(w: FileWarning): string {
    match w
    case LongName => "File name is very long and may be truncated in display."
    case LargeFile => "Large files may take several minutes to process."
  }

  /** `'.' + name.split('.').pop().toLowerCase()`: a dot followed by the
      lower-cased text after the last dot, or the whole name when it has none. */
  function Extension(name: string): (r: string)
    ensures |r| >= 1 && r[0] == '.'
    ensures '.' !in name ==> r == "." + Lower(name)
  {
    "." + Lower(LastPiece(name, '.'))
  }

  /** The type check passes when either the declared MIME type or the extension is allowed. */
  predicate TypeAccepted(f: FileInfo) {
    f.mimeType in AllowedTypes || Extension(f.name) in AllowedExtensions
  }

  predicate SortedErrors(es: seq<FileError>) {
    forall i, j :: 0 <= i < j < |es| ==> ErrorRank(es[i]) < ErrorRank(es[j])
  }

  predicate SortedWarnings(ws: seq<FileWarning>) {
    forall i, j :: 0 <= i < j < |ws| ==> WarningRank(ws[i]) < WarningRank(ws[j])
  }

  /** `validateFile`: each error and each warning is reported exactly when
      its condition holds, errors in the order size, type, empty and
      warnings in the order name, size; the file is valid exactly when no
      error was reported. */
  function ValidateFile(f: FileInfo): (v: Validation)
    ensures v.isValid <==> v.errors == []
    ensures TooLarge in v.errors <==> f.size > MaxSize
    ensures EmptyFile in v.errors <==> f.size == 0
    ensures UnsupportedType(Extension(f.name)) in v.errors <==> !TypeAccepted(f)
    ensures forall e :: e in v.errors && e.UnsupportedType? ==> e.extension == Extension(f.name)
    ensures SortedErrors(v.errors) && |v.errors| <= 2
    ensures LongName in v.warnings <==> |f.name| > MaxNameLength
    ensures LargeFile in v.warnings <==> LargeFileSize < f.size <= MaxSize
    ensures SortedWarnings(v.warnings)
  {
    var errors := Errors(f);
    ErrorsReported(f);
    ErrorsOrdered(f);
    Validation(|errors| == 0, errors, Warnings(f))
  }

  /** The errors in the order the checks run: size, type, empty. A file
      cannot be both too large and empty, so at most two are reported. */
  function Errors(f: FileInfo): (es: seq<FileError>)
    ensures |es| <= 2
  {
    var typeErrors := if TypeAccepted(f) then [] else [UnsupportedType(Extension(f.name))];
    if f.size > MaxSize then [TooLarge] + typeErrors
    else if f.size == 0 then typeErrors + [EmptyFile]
    else typeErrors
  }

  /** Each error is reported exactly when its condition holds. */
  lemma ErrorsReported(f: FileInfo)
    ensures TooLarge in Errors(f) <==> f.size > MaxSize
    ensures EmptyFile in Errors(f) <==> f.size == 0
    ensures UnsupportedType(Extension(f.name)) in Errors(f) <==> !TypeAccepted(f)
  {
    var accepted := TypeAccepted(f);
    var typeError := UnsupportedType(Extension(f.name));
    ErrorMembership(typeError, accepted, f.size > MaxSize, f.size == 0);
  }

  lemma ErrorMembership(typeError: FileError, accepted: bool, tooLarge: bool, empty: bool)
    requires typeError.UnsupportedType? && !(tooLarge && empty)
    ensures var typeErrors := if accepted then [] else [typeError];
      var es := if tooLarge then [TooLarge] + typeErrors
                else if empty then typeErrors + [EmptyFile]
                else typeErrors;
      (TooLarge in es <==> tooLarge) && (EmptyFile in es <==> empty) && (typeError in es <==> !accepted)
  {
  }

  /** The errors come in check order, and the type error names the extension. */
  lemma ErrorsOrdered(f: FileInfo)
    ensures forall e :: e in Errors(f) && e.UnsupportedType? ==> e.extension == Extension(f.name)
    ensures SortedErrors(Errors(f))
  {
    var typeErrors := if TypeAccepted(f) then [] else [UnsupportedType(Extension(f.name))];
    ErrorShape(typeErrors, f.size > MaxSize, f.size == 0);
  }

  lemma ErrorShape(typeErrors: seq<FileError>, tooLarge: bool, empty: bool)
    requires typeErrors == [] || (|typeErrors| == 1 && typeErrors[0].UnsupportedType?)
    requires !(tooLarge && empty)
    ensures var es := if tooLarge then [TooLarge] + typeErrors
                      else if empty then typeErrors + [EmptyFile]
                      else typeErrors;
      SortedErrors(es) && forall e :: e in es && e.UnsupportedType? ==> e in typeErrors
  {
  }

  /** The warnings in the order the checks run: name, then size. */
  function Warnings(f: FileInfo): (ws: seq<FileWarning>)
    ensures LongName in ws <==> |f.name| > MaxNameLength
    ensures LargeFile in ws <==> LargeFileSize < f.size <= MaxSize
    ensures SortedWarnings(ws)
  {
    var nameWarnings := if |f.name| > MaxNameLength then [LongName] else [];
    var sizeWarnings := if f.size > LargeFileSize && f.size <= MaxSize then [LargeFile] else [];
    nameWarnings + sizeWarnings
  }

  /** A file is accepted exactly when it is non-empty, within the size limit
      and of an accepted type; warnings play no part in the verdict. */
  lemma ValidExactly(f: FileInfo)
    ensures ValidateFile(f).isValid <==> 0 < f.size <= MaxSize && TypeAccepted(f)
  {
    var v := ValidateFile(f);
    if !TypeAccepted(f) {
      assert UnsupportedType(Extension(f.name)) in v.errors;
    }
  }

  /** A name without any dot is its own extension, so a file named just
      `pdf` (or `DOCX`) passes the type check whatever its MIME type. */
  lemma DotlessNameIsItsOwnExtension(f: FileInfo)
    requires '.' !in f.name && Lower(f.name) in ["pdf", "doc", "docx"]
    ensures TypeAccepted(f)
  {
    var lowered := Lower(f.name);
    var e := Extension(f.name);
    assert e == "." + lowered;
    assert e == ".pdf" || e == ".doc" || e == ".docx" by {
      if lowered == "pdf" {
        assert "." + "pdf" == ".pdf";
      } else if lowered == "doc" {
        assert "." + "doc" == ".doc";
      } else {
        assert "." + "docx" == ".docx";
      }
    }
    assert AllowedExtensions == [".pdf", ".doc", ".docx"];
  }

  /** Only the text after the last dot counts: a name such as
      `report.pdf.exe` is judged by `.exe` alone, so it passes only on its
      MIME type. */
  lemma OnlyLastPieceCounts(f: FileInfo, stem: string, suffix: string)
    requires f.name == stem + "." + suffix && '.' !in suffix
    ensures Extension(f.name) == "." + Lower(suffix)
    ensures TypeAccepted(f) <==> f.mimeType in AllowedTypes || "." + Lower(suffix) in AllowedExtensions
  {
    LastPieceAfterSep(stem, '.', suffix);
  }

  datatype Icon = PageIcon | MemoIcon

  /** `getFileIcon`: the memo icon for Word documents, the page icon for PDF
      and for every other extension. */
  function FileIcon(name: string): (r: Icon)
    ensures r == MemoIcon <==> Extension(name) in [".doc", ".docx"]
  {
    var piece := Lower(LastPiece(name, '.'));
    WordPiece(piece);
    if piece == "doc" || piece == "docx" then MemoIcon else PageIcon
  }

  /** A piece names a Word document exactly when the extension built from
      it does. */
  lemma WordPiece(piece: string)
    ensures piece == "doc" || piece == "docx" <==> "." + piece in [".doc", ".docx"]
  {
    assert ("." + piece)[1..] == piece;
    assert ".doc"[1..] == "doc" && ".docx"[1..] == "docx";
    assert "." + "doc" == ".doc" && "." + "docx" == ".docx";
  }

  /** The four buckets `getProcessingEstimate` can answer. */
  datatype Estimate = HalfMinuteToMinute | OneToTwoMinutes | TwoToFiveMinutes | FiveToTenMinutes

  function EstimateText(e: Estimate): string {
    match e
    case HalfMinuteToMinute => "30-60 seconds"
    case OneToTwoMinutes => "1-2 minutes"
    case TwoToFiveMinutes => "2-5 minutes"
    case FiveToTenMinutes => "5-10 minutes"
  }

  function EstimateRank(e: Estimate): nat {
    match e
    case HalfMinuteToMinute => 0
    case OneToTwoMinutes => 1
    case TwoToFiveMinutes => 2
    case FiveToTenMinutes => 3
  }

  /** `getProcessingEstimate`: the bucket is chosen by the thresholds 1, 5
      and 20 MiB, each threshold belonging to the bucket above it. */
  function ProcessingEstimate(size: nat): (r: Estimate)
    ensures r == HalfMinuteToMinute <==> size < MiB
    ensures r == OneToTwoMinutes <==> MiB <= size < 5 * MiB
    ensures r == TwoToFiveMinutes <==> 5 * MiB <= size < 20 * MiB
    ensures r == FiveToTenMinutes <==> 20 * MiB <= size
  {
    if size < MiB then HalfMinuteToMinute
    else if size < 5 * MiB then OneToTwoMinutes
    else if size < 20 * MiB then TwoToFiveMinutes
    else FiveToTenMinutes
  }

  /** A larger file never gets a shorter estimate. */
  lemma EstimateMonotone(a: nat, b: nat)
    requires a <= b
    ensures EstimateRank(ProcessingEstimate(a)) <= EstimateRank(ProcessingEstimate(b))
  {
  }
}
