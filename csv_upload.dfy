/** The CSV upload page: the checks a chosen file must pass, the expected
    files list, duplicate-name marking, the error banner and the change
    handler of `#fileToUpload`. */
module CsvUpload {
  import opened Optional
  import opened UploadCommon

  /** `MAX_CSV_FILESIZE`: 100 MB, in bytes. */
  const MaxCsvFileSize: nat := 100000000

  /** `csvFileSizeOK`: a legacy browser (`ie < 10`) cannot see the size and
      lets every file through; otherwise the size must not exceed the limit. */
  function CsvFileSizeOK(ie: int, fileSize: int): (ok: bool)
    ensures ok <==> ie < 10 || fileSize <= MaxCsvFileSize
  {
    if ie < 10 then true
    else if fileSize > MaxCsvFileSize then false
    else true
  }

  /** The limit itself is accepted, one byte more is not; a legacy browser
      accepts any size. */
  lemma CsvFileSizeBoundary(ie: int)
    ensures CsvFileSizeOK(ie, MaxCsvFileSize)
    ensures ie >= 10 ==> !CsvFileSizeOK(ie, MaxCsvFileSize + 1)
  {
  }

  /** The four reasons `validateFile` rejects a file, in the order it checks them. */
  datatype CsvRejection = InvalidCharacters | NotCsv | TooLarge | NotInList

  const InvalidCharactersMessage: string :=
    "Choose a different file &ndash; the file's name can't contain invalid characters"
  const NotCsvMessage: string :=
    "This file isn’t a .csv file, choose a different file"
  const TooLargeMessage: string :=
    "This file is larger than " + DecimalString(MaxCsvFileSize / 1000000)
    + "MB &ndash; choose a different file or email <a href='mailto:shareschemes@hmrc.gsi.gov.uk'>"
    + "shareschemes@hmrc.gsi.gov.uk</a> and we’ll help you submit your return"
  const NotInListMessage: string :=
    "This isn’t a file that you said you needed to upload, choose a different file"

  /** The message `validateFile` shows for each rejection. */
  function CsvMessage(r: CsvRejection): string
  {
    match r
    case InvalidCharacters => InvalidCharactersMessage
    case NotCsv => NotCsvMessage
    case TooLarge => TooLargeMessage
    case NotInList => NotInListMessage
  }

  /** The shown message tells the four rejections apart. */
  lemma CsvMessagesDistinct(r1: CsvRejection, r2: CsvRejection)
    requires r1 != r2
    ensures CsvMessage(r1) != CsvMessage(r2)
  {
  }

  /** The decision of `validateFile`, given the outcome of each check: None
      when the file passes, otherwise the first check that fails. */
  function CsvCheck(validName: bool, isCsv: bool, sizeOk: bool, listed: bool): Option<CsvRejection>
  {
    if !validName then Some(InvalidCharacters)
    else if !isCsv then Some(NotCsv)
    else if !sizeOk then Some(TooLarge)
    else if !listed then Some(NotInList)
    else None
  }

  /** First failure wins: a check decides the outcome exactly when every check
      before it passed and it failed, and the file passes exactly when all do. */
  lemma CsvFirstFailureWins(validName: bool, isCsv: bool, sizeOk: bool, listed: bool)
    ensures CsvCheck(validName, isCsv, sizeOk, listed) == None <==> validName && isCsv && sizeOk && listed
    ensures CsvCheck(validName, isCsv, sizeOk, listed) == Some(InvalidCharacters) <==> !validName
    ensures CsvCheck(validName, isCsv, sizeOk, listed) == Some(NotCsv) <==> validName && !isCsv
    ensures CsvCheck(validName, isCsv, sizeOk, listed) == Some(TooLarge) <==> validName && isCsv && !sizeOk
    ensures CsvCheck(validName, isCsv, sizeOk, listed) == Some(NotInList)
            <==> validName && isCsv && sizeOk && !listed
  {
  }

  /** The name `duplicateFileName` reads from one `.files` input: nothing for
      an empty input, otherwise the parsed path on a legacy browser and the
      first selected file's name on a modern one. Where it reads a name, it
      is the name the change handler reads; on an input the browser keeps
      consistent it reads one exactly when a file is selected. */
  function HeldName(input: FileInput, ie: int): (r: Option<string>)
    ensures r.Some? ==> r == ChosenName(input, ie)
    ensures r.None? <==> input.value == "" || ChosenName(input, ie).None?
    ensures WellFormed(input) ==> (r.None? <==> input.value == "")
  {
    if input.value == "" then None
    else if ie < 10 then Some(LegacyFileName(input.value))
    else if input.files == [] then None
    else Some(input.files[0].name)
  }

  predicate Holds(input: FileInput, name: string, ie: int)
  {
    HeldName(input, ie) == Some(name)
  }

  /** How many of `inputs` hold `name`: the final `duplicateNameCount`. */
  function MatchCount(inputs: seq<FileInput>, name: string, ie: int): nat
  {
    if inputs == [] then 0
    else MatchCount(inputs[..|inputs| - 1], name, ie)
         + (if Holds(inputs[|inputs| - 1], name, ie) then 1 else 0)
  }

  /** The indices `duplicateFileName` marks: a match once the count already
      reached one. */
  function Marked(inputs: seq<FileInput>, name: string, ie: int): set<nat>
  {
    set i | 0 <= i < |inputs| && Holds(inputs[i], name, ie) && MatchCount(inputs[..i], name, ie) >= 1
  }

  /** The divs that become `fileAlert` when the inputs at `indices` are marked. */
  function ParentDivs(inputs: seq<FileInput>, indices: set<nat>): set<DivId>
  {
    set i | i in indices && i < |inputs| && inputs[i].parentDiv.Some? :: inputs[i].parentDiv.value
  }

  /** The divs among `parents`: the parents of the `.input-csv-file-name` elements. */
  function DivsOf(parents: seq<Option<DivId>>): set<DivId>
  {
    if parents == [] then {}
    else
      var last := parents[|parents| - 1];
      DivsOf(parents[..|parents| - 1]) + (if last.Some? then {last.value} else {})
  }

  /** No input holds the name exactly when the count is zero. */
  lemma {:induction false} NoMatchIffZero(inputs: seq<FileInput>, name: string, ie: int)
    ensures MatchCount(inputs, name, ie) == 0
            <==> forall j | 0 <= j < |inputs| :: !Holds(inputs[j], name, ie)
  {
    if inputs != [] {
      var p := inputs[..|inputs| - 1];
      NoMatchIffZero(p, name, ie);
      assert forall j | 0 <= j < |p| :: p[j] == inputs[j];
    }
  }

  lemma MarkedSnoc(p: seq<FileInput>, x: FileInput, name: string, ie: int)
    ensures Marked(p + [x], name, ie)
            == Marked(p, name, ie) + (if Holds(x, name, ie) && MatchCount(p, name, ie) >= 1 then {|p|} else {})
  {
    var s := p + [x];
    var extra: set<nat> := if Holds(x, name, ie) && MatchCount(p, name, ie) >= 1 then {|p|} else {};
    forall i: nat ensures i in Marked(s, name, ie) <==> i in Marked(p, name, ie) + extra {
      if i < |p| {
        assert s[..i] == p[..i] && s[i] == p[i];
      } else if i == |p| {
        assert s[..i] == p && s[i] == x;
      }
    }
    assert Marked(s, name, ie) == Marked(p, name, ie) + extra;
  }

  /** The divs `duplicateFileName` marks, input by input. */
  function MarkedDivs(inputs: seq<FileInput>, name: string, ie: int): set<DivId>
  {
    if inputs == [] then {}
    else
      var p, x := inputs[..|inputs| - 1], inputs[|inputs| - 1];
      MarkedDivs(p, name, ie)
      + (if Holds(x, name, ie) && MatchCount(p, name, ie) >= 1 && x.parentDiv.Some? then {x.parentDiv.value} else {})
  }

  lemma MarkedStep(inputs: seq<FileInput>, k: nat, name: string, ie: int)
    requires k < |inputs|
    ensures MatchCount(inputs[..k + 1], name, ie)
            == MatchCount(inputs[..k], name, ie) + (if Holds(inputs[k], name, ie) then 1 else 0)
    ensures MarkedDivs(inputs[..k + 1], name, ie)
            == MarkedDivs(inputs[..k], name, ie)
               + (if Holds(inputs[k], name, ie) && MatchCount(inputs[..k], name, ie) >= 1 && inputs[k].parentDiv.Some?
                  then {inputs[k].parentDiv.value} else {})
  {
    assert inputs[..k + 1][..k] == inputs[..k];
  }

  /** The divs marked input by input are the parents of the marked inputs. */
  lemma {:induction false} MarkedDivsAreParents(inputs: seq<FileInput>, name: string, ie: int)
    ensures MarkedDivs(inputs, name, ie) == ParentDivs(inputs, Marked(inputs, name, ie))
  {
    if inputs != [] {
      var p, x := inputs[..|inputs| - 1], inputs[|inputs| - 1];
      assert inputs == p + [x];
      MarkedDivsAreParents(p, name, ie);
      MarkedSnoc(p, x, name, ie);
      assert ParentDivs(p, Marked(p, name, ie)) == ParentDivs(inputs, Marked(p, name, ie)) by {
        forall i | i in Marked(p, name, ie) ensures i < |p| && inputs[i] == p[i] {
        }
      }
    }
  }

  /** A file is marked exactly when it holds the name and an earlier input
      holds it too: the first holder is never marked, every later one is. */
  lemma MarkedExactly(inputs: seq<FileInput>, name: string, ie: int, i: nat)
    requires i < |inputs|
    ensures i in Marked(inputs, name, ie)
            <==> Holds(inputs[i], name, ie) && exists j | 0 <= j < i :: Holds(inputs[j], name, ie)
  {
    NoMatchIffZero(inputs[..i], name, ie);
    assert forall j | 0 <= j < i :: inputs[..i][j] == inputs[j];
  }

  /** All but the first holder are marked, so marking happens exactly when the
      name is held more than once. */
  lemma {:induction false} MarkedCount(inputs: seq<FileInput>, name: string, ie: int)
    ensures |Marked(inputs, name, ie)| == if MatchCount(inputs, name, ie) == 0 then 0 else MatchCount(inputs, name, ie) - 1
  {
    if inputs == [] {
      assert Marked(inputs, name, ie) == {};
    } else {
      var p, x := inputs[..|inputs| - 1], inputs[|inputs| - 1];
      assert inputs == p + [x];
      MarkedSnoc(p, x, name, ie);
      MarkedCount(p, name, ie);
      assert |p| !in Marked(p, name, ie);
    }
  }

  /** The fields of the CSV page that its change handler updates: the
      `errors` counter, the `fileAlert` divs, the summary view and the trace
      of page-level operations. */
  datatype Batch = Batch(errors: int, alerts: set<DivId>, summary: SummaryView, trace: seq<Notice>)

  /** The CSV page. Constants are the parts of the page the scripts only read
      and the helpers they call but that are not part of this model; fields
      are what the scripts change. */
  class CsvPage {
    /** The `.files` inputs (the expected files list and their selections). */
    const filesInputs: seq<FileInput>
    /** The elements `$("#fileToUpload")` matches, in document order. An id
        selector matches at most one element; the model allows any number,
        so the single-element `.each` is the case of a one-element sequence. */
    const uploads: seq<FileInput>
    /** The parents of the `.input-csv-file-name` elements. */
    const csvNameParents: seq<Option<DivId>>
    /** The browser version indicator `ie`; a modern browser counts as 10 or more. */
    const ie: int
    /** The names the page's `validFileName` accepts. */
    const validNames: iset<string>
    /** The names whose extension, as `getFileNameExtension` reports it, is `csv`. */
    const csvNames: iset<string>

    /** The global `errors` counter. */
    var errors: int
    /** The divs carrying the `fileAlert` class. */
    var alerts: set<DivId>
    /** The banners, the upload button, the validation summary and the form's error class. */
    var summary: SummaryView
    /** The page-level operations performed so far. */
    ghost var trace: seq<Notice>

    ghost predicate Valid()
      reads this
    {
      |summary.banners| <= 1 &&
      forall i | 0 <= i < |filesInputs| :: WellFormed(filesInputs[i])
    }

    constructor (filesInputs: seq<FileInput>, uploads: seq<FileInput>, csvNameParents: seq<Option<DivId>>,
                 ie: int, validNames: iset<string>, csvNames: iset<string>,
                 banner: Option<string>)
      requires forall i | 0 <= i < |filesInputs| :: WellFormed(filesInputs[i])
      ensures Valid()
      ensures this.filesInputs == filesInputs && this.uploads == uploads
      ensures this.csvNameParents == csvNameParents && this.ie == ie
      ensures this.validNames == validNames && this.csvNames == csvNames
      ensures errors == 0 && alerts == {} && trace == []
      ensures summary == SummaryView(if banner.Some? then [banner.value] else [], false, banner.Some?, "", banner.Some?)
    {
      this.filesInputs, this.uploads, this.csvNameParents := filesInputs, uploads, csvNameParents;
      this.ie, this.validNames, this.csvNames := ie, validNames, csvNames;
      errors, alerts, trace := 0, {}, [];
      summary := SummaryView(if banner.Some? then [banner.value] else [], false, banner.Some?, "", banner.Some?);
    }

    /** Some `.files` element has `data-file-name` equal to the name. */
    predicate Listed(fileName: string)
    {
      exists i | 0 <= i < |filesInputs| :: filesInputs[i].dataFileName == Some(fileName)
    }

    /** The outcome of `validateFile` for a name and size. */
    function Verdict(fileName: string, fileSize: int): Option<CsvRejection>
    {
      CsvCheck(fileName in validNames, fileName in csvNames, CsvFileSizeOK(ie, fileSize), Listed(fileName))
    }

    /** The message `validateFile` shows for a name and size, if any. */
    function Outcome(fileName: string, fileSize: int): Option<string>
    {
      match Verdict(fileName, fileSize)
      case None => None
      case Some(r) => Some(CsvMessage(r))
    }

    /** `isValidCSVFile`: counts the `.files` elements whose `data-file-name`
        is the name and answers whether there is one. */
    method IsValidCsvFile(fileName: string) returns (valid: bool)
      ensures valid <==> exists i | 0 <= i < |filesInputs| :: filesInputs[i].dataFileName == Some(fileName)
    {
      var matchCount := 0;
      var k := 0;
      while k < |filesInputs|
        invariant 0 <= k <= |filesInputs|
        invariant 0 <= matchCount
        invariant matchCount > 0 <==> exists i | 0 <= i < k :: filesInputs[i].dataFileName == Some(fileName)
      {
        if filesInputs[k].dataFileName == Some(fileName) {
          matchCount := matchCount + 1;
        }
        k := k + 1;
      }
      valid := matchCount > 0;
    }

    /** `duplicateFileName`: counts the non-empty `.files` inputs holding the
        name, marks the parent div of the second and every later one, and
        answers whether the name is held more than once. */
    method DuplicateFileName(fileName: string) returns (duplicate: bool)
      requires Valid()
      modifies this`alerts
      ensures Valid()
      ensures duplicate <==> MatchCount(filesInputs, fileName, ie) > 1
      ensures alerts == old(alerts) + ParentDivs(filesInputs, Marked(filesInputs, fileName, ie))
    {
      var duplicateNameCount := 0;
      var k := 0;
      while k < |filesInputs|
        invariant 0 <= k <= |filesInputs|
        invariant duplicateNameCount == MatchCount(filesInputs[..k], fileName, ie)
        invariant alerts == old(alerts) + MarkedDivs(filesInputs[..k], fileName, ie)
      {
        var input := filesInputs[k];
        MarkedStep(filesInputs, k, fileName, ie);
        if HeldName(input, ie) == Some(fileName) {
          duplicateNameCount := duplicateNameCount + 1;
          if duplicateNameCount > 1 && input.parentDiv.Some? {
            alerts := alerts + {input.parentDiv.value};
          }
        }
        k := k + 1;
      }
      assert filesInputs[..k] == filesInputs;
      MarkedDivsAreParents(filesInputs, fileName, ie);
      duplicate := duplicateNameCount > 1;
    }

    /** `removeFileAlert`: clears `fileAlert` from the parent div of every
        `.input-csv-file-name` element. */
    method RemoveFileAlert()
      requires Valid()
      modifies this`alerts
      ensures Valid()
      ensures alerts == old(alerts) - DivsOf(csvNameParents)
    {
      var k := 0;
      while k < |csvNameParents|
        invariant 0 <= k <= |csvNameParents|
        invariant alerts == old(alerts) - DivsOf(csvNameParents[..k])
      {
        assert csvNameParents[..k + 1][..k] == csvNameParents[..k];
        if csvNameParents[k].Some? {
          alerts := alerts - {csvNameParents[k].value};
        }
        k := k + 1;
      }
      assert csvNameParents[..k] == csvNameParents;
    }

    /** `showCSVErrorMsg`: replaces the banner by one holding the message and
        marks the page as failing. */
    method ShowCsvErrorMsg(msg: string)
      requires Valid()
      modifies this`summary, this`trace
      ensures Valid()
      ensures summary == AfterError(old(summary), msg)
      ensures summary.banners == [msg] && summary.uploadDisabled && summary.summaryVisible
      ensures summary.linkText == msg && summary.formError
      ensures trace == old(trace) + [ShowError(msg)]
    {
      if summary.banners != [] {
        summary := summary.(banners := summary.banners[1..]);
        summary := summary.(summaryVisible := false);
        summary := summary.(formError := false);
      }
      summary := summary.(uploadDisabled := true);
      summary := summary.(summaryVisible := true);
      summary := summary.(banners := summary.banners + [msg]);
      summary := summary.(linkText := msg);
      summary := summary.(formError := true);
      trace := trace + [ShowError(msg)];
    }

    /** `validateFile`: runs the four checks in order; on the first failure it
        shows that check's message and increments `errors`, otherwise it
        changes nothing. */
    method ValidateFile(fileName: string, fileSize: int) returns (ok: bool)
      requires Valid()
      modifies this`errors, this`summary, this`trace
      ensures Valid()
      ensures ok <==> Verdict(fileName, fileSize) == None
      ensures ok ==> errors == old(errors) && summary == old(summary) && trace == old(trace)
      ensures ok <==> Outcome(fileName, fileSize) == None
      ensures !ok ==> var msg := Outcome(fileName, fileSize).value;
                      msg == CsvMessage(Verdict(fileName, fileSize).value)
                      && errors == old(errors) + 1 && summary == AfterError(old(summary), msg)
                      && trace == old(trace) + [ShowError(msg)]
    {
      if fileName in validNames {
        if fileName in csvNames {
          if CsvFileSizeOK(ie, fileSize) {
            var listed := IsValidCsvFile(fileName);
            if listed {
              ok := true;
            } else {
              ShowCsvErrorMsg(CsvMessage(NotInList));
              errors := errors + 1;
              ok := false;
            }
          } else {
            ShowCsvErrorMsg(CsvMessage(TooLarge));
            errors := errors + 1;
            ok := false;
          }
        } else {
          ShowCsvErrorMsg(CsvMessage(NotCsv));
          errors := errors + 1;
          ok := false;
        }
      } else {
        ShowCsvErrorMsg(CsvMessage(InvalidCharacters));
        errors := errors + 1;
        ok := false;
      }
    }

    /** The size the change handler passes on: unknown (and never looked at)
        on a legacy browser. */
    function UploadSize(input: FileInput): int
    {
      if ie < 10 || input.files == [] then 0 else input.files[0].size
    }

    /** The message `validateFile` shows for one upload input, if any. */
    function Failure(input: FileInput): Option<string>
    {
      match ChosenName(input, ie)
      case None => None
      case Some(name) => Outcome(name, UploadSize(input))
    }

    /** The messages shown for a sequence of upload inputs, in order. */
    function Failures(inputs: seq<FileInput>): seq<string>
    {
      if inputs == [] then []
      else
        var x := inputs[|inputs| - 1];
        Failures(inputs[..|inputs| - 1]) + (if Failure(x).Some? then [Failure(x).value] else [])
    }

    /** How many upload inputs the handler gets through: it stops at the
        first one whose `files[0].name` raises a TypeError. */
    function Reached(inputs: seq<FileInput>): (r: nat)
      ensures r <= |inputs|
      ensures forall j | 0 <= j < r :: ChosenName(inputs[j], ie).Some?
      ensures r < |inputs| ==> ChosenName(inputs[r], ie).None?
    {
      if inputs == [] || ChosenName(inputs[0], ie).None? then 0
      else 1 + Reached(inputs[1..])
    }

    /** The fields the change handler updates. */
    ghost function Snapshot(): Batch
      reads this
    {
      Batch(errors, alerts, summary, trace)
    }

    /** What the `.each` callback does to the fields for one input that has a
        name: nothing when it passes; otherwise one more error, its message
        shown, the `.input-csv-file-name` alerts cleared and its own parent
        div marked. */
    ghost function Step(b: Batch, input: FileInput): Batch
    {
      match Failure(input)
      case None => b
      case Some(msg) =>
        Batch(b.errors + 1,
              (b.alerts - DivsOf(csvNameParents)) + (if input.parentDiv.Some? then {input.parentDiv.value} else {}),
              AfterError(b.summary, msg),
              b.trace + [ShowError(msg)])
    }

    /** The fields after the callback has run on a sequence of inputs, in order. */
    ghost function Run(b: Batch, inputs: seq<FileInput>): Batch
    {
      if inputs == [] then b else Step(Run(b, inputs[..|inputs| - 1]), inputs[|inputs| - 1])
    }

    lemma RunStep(b: Batch, inputs: seq<FileInput>, k: nat)
      requires k < |inputs|
      ensures Run(b, inputs[..k + 1]) == Step(Run(b, inputs[..k]), inputs[k])
    {
      assert inputs[..k + 1][..k] == inputs[..k];
    }

    /** A run counts one error per failing input, shows their messages in
        order (the banner and summary ending as `AfterErrors` says) and does
        nothing else to the page's trace. */
    lemma {:induction false} RunShowsFailures(b: Batch, inputs: seq<FileInput>)
      ensures Run(b, inputs).errors == b.errors + |Failures(inputs)|
      ensures Run(b, inputs).summary == AfterErrors(b.summary, Failures(inputs))
      ensures Run(b, inputs).trace == b.trace + Shows(Failures(inputs))
    {
      if inputs != [] {
        var p, x := inputs[..|inputs| - 1], inputs[|inputs| - 1];
        RunShowsFailures(b, p);
        var r, msgs := Run(b, p), Failures(p);
        assert Run(b, inputs) == Step(r, x);
        match Failure(x)
        case None =>
          assert Failures(inputs) == msgs;
        case Some(msg) =>
          assert Failures(inputs) == msgs + [msg];
          AfterErrorsSnoc(b.summary, msgs, msg);
          assert Step(r, x).summary == AfterError(r.summary, msg);
          assert Step(r, x).trace == r.trace + [ShowError(msg)];
      }
    }

    /** When no input fails, the callbacks leave every field of the batch as
        it was: the counter, the alerts, the summary view and the trace. */
    lemma {:induction false} PassingCallbacksChangeNothing(b: Batch, inputs: seq<FileInput>)
      requires Failures(inputs) == []
      ensures Run(b, inputs) == b
    {
      if inputs != [] {
        PassingCallbacksChangeNothing(b, inputs[..|inputs| - 1]);
      }
    }

    /** The parent div of the last input that fails carries `fileAlert` once
        the batch is handled. */
    lemma {:induction false} LastFailureMarked(b: Batch, inputs: seq<FileInput>, i: nat)
      requires i < |inputs| && Failure(inputs[i]).Some? && inputs[i].parentDiv.Some?
      requires forall j | i < j < |inputs| :: Failure(inputs[j]).None?
      ensures inputs[i].parentDiv.value in Run(b, inputs).alerts
    {
      if i < |inputs| - 1 {
        LastFailureMarked(b, inputs[..|inputs| - 1], i);
      }
    }

    /** The `.each` callback of the change handler for one input that has a
        name: validate it and, when it fails, clear the other alerts and mark
        its own div. */
    method CheckUpload(input: FileInput)
      requires Valid() && ChosenName(input, ie).Some?
      modifies this`errors, this`alerts, this`summary, this`trace
      ensures Valid()
      ensures Snapshot() == Step(old(Snapshot()), input)
    {
      ghost var b := Snapshot();
      var fileName := ChosenName(input, ie).value;
      var fileSize := UploadSize(input);
      ghost var f := Failure(input);
      assert f == Outcome(fileName, fileSize);
      var ok := ValidateFile(fileName, fileSize);
      if !ok {
        RemoveFileAlert();
        if input.parentDiv.Some? {
          alerts := alerts + {input.parentDiv.value};
        }
        assert Snapshot() == Step(b, input) by {
          assert f.Some? && summary == AfterError(b.summary, f.value);
        }
      } else {
        assert f.None? && Snapshot() == b;
      }
    }

    /** The change handler of `#fileToUpload`: resets `errors`, validates
        each matched input and, when every input was handled and none failed,
        clears the alerts and calls `removeErrorMsg`. A TypeError on an input
        without a selected file ends the handler there. What `removeErrorMsg`
        leaves of the summary view is not known here: it is the `cleared`
        argument, taken to keep at most one banner. */
    method OnChange(cleared: SummaryView)
      requires Valid() && |cleared.banners| <= 1
      modifies this`errors, this`alerts, this`summary, this`trace
      ensures Valid()
      ensures var run := Run(old(Snapshot()).(errors := 0), uploads[..Reached(uploads)]);
              Snapshot() == if Reached(uploads) == |uploads| && run.errors == 0
                            then run.(alerts := run.alerts - DivsOf(csvNameParents), summary := cleared,
                                      trace := run.trace + [RemoveErrorMsg])
                            else run
    {
      errors := 0;
      ghost var b0 := Snapshot();
      var k := 0;
      while k < |uploads|
        invariant 0 <= k <= Reached(uploads)
        invariant Valid()
        invariant Snapshot() == Run(b0, uploads[..k])
      {
        var input := uploads[k];
        if ie >= 10 && input.files == [] {
          break;
        }
        RunStep(b0, uploads, k);
        CheckUpload(input);
        k := k + 1;
      }
      if k == |uploads| && errors == 0 {
        RemoveFileAlert();
        summary := cleared;
        trace := trace + [RemoveErrorMsg];
      }
    }

    /** After callbacks of which some failed, exactly one banner is left,
        holding the message of the last failure, which is also the link text,
        and the page is marked as failing. The counter grows by the number of
        failures, so after the handler's reset it is not zero and the handler
        does not go on to call `removeErrorMsg`. */
    lemma BatchLeavesOneBanner(b: Batch, inputs: seq<FileInput>)
      requires |b.summary.banners| <= 1 && Failures(inputs) != []
      ensures var msgs, r := Failures(inputs), Run(b, inputs);
              r.summary.banners == [msgs[|msgs| - 1]] && r.summary.linkText == msgs[|msgs| - 1]
              && r.summary.uploadDisabled && r.summary.summaryVisible && r.summary.formError
              && r.errors == b.errors + |msgs| && r.errors != b.errors
    {
      RunShowsFailures(b, inputs);
      LastErrorWins(b.summary, Failures(inputs));
    }
  }
}
