/** The ODS upload page: the checks a chosen file must pass, the error banner
    and the change handler of `#fileToUpload`, which always displays the
    chosen name whatever the checks decide. */
module OdsUpload {
  import opened Optional
  import opened UploadCommon

  /** The four reasons the change handler rejects a file, in the order it
      checks them. */
  datatype OdsRejection = InvalidCharacters | NameTooLong | NotOds | TooLarge

  /** The decision of the change handler, given the outcome of each check:
      None when the file passes, otherwise the first check that fails. The
      length check is inclusive. */
  function OdsCheck(validName: bool, nameLength: nat, maxLength: nat, isOds: bool, sizeOk: bool)
    : Option<OdsRejection>
  {
    if !validName then Some(InvalidCharacters)
    else if !(nameLength <= maxLength) then Some(NameTooLong)
    else if !isOds then Some(NotOds)
    else if !sizeOk then Some(TooLarge)
    else None
  }

  /** Each rejection happens exactly when the checks before it pass and its
      own check fails; a file passes exactly when all four pass. */
  lemma OdsFirstFailureWins(validName: bool, nameLength: nat, maxLength: nat, isOds: bool, sizeOk: bool)
    ensures OdsCheck(validName, nameLength, maxLength, isOds, sizeOk) == None
            <==> validName && nameLength <= maxLength && isOds && sizeOk
    ensures OdsCheck(validName, nameLength, maxLength, isOds, sizeOk) == Some(InvalidCharacters) <==> !validName
    ensures OdsCheck(validName, nameLength, maxLength, isOds, sizeOk) == Some(NameTooLong)
            <==> validName && nameLength > maxLength
    ensures OdsCheck(validName, nameLength, maxLength, isOds, sizeOk) == Some(NotOds)
            <==> validName && nameLength <= maxLength && !isOds
    ensures OdsCheck(validName, nameLength, maxLength, isOds, sizeOk) == Some(TooLarge)
            <==> validName && nameLength <= maxLength && isOds && !sizeOk
  {
  }

  /** A valid name exactly as long as the limit passes the length check; one
      unit longer is rejected for its length, whatever the later checks say. */
  lemma NameLengthBoundary(maxLength: nat, isOds: bool, sizeOk: bool)
    ensures OdsCheck(true, maxLength, maxLength, isOds, sizeOk) != Some(NameTooLong)
    ensures OdsCheck(true, maxLength + 1, maxLength, isOds, sizeOk) == Some(NameTooLong)
  {
  }

  const InvalidCharactersMessage: string := "The filename contains invalid characters"
  const NameTooLongHead: string := "The filename must contain "
  const NameTooLongTail: string := " characters or less"
  const NotOdsMessage: string := "This file isn’t a .ods file, choose a different file"
  const TooLargeHead: string := "This file is larger than "
  const TooLargeTail: string :=
    "MB &ndash; choose a different file or email <a href='mailto:shareschemes@hmrc.gsi.gov.uk'>"
    + "shareschemes@hmrc.gsi.gov.uk</a> and we’ll help you submit your return"

  /** The fields of the ODS page that its change handler updates: the summary
      view, whether `#file-wrapper` carries `fileAlert`, the text of
      `#file-name`, whether `#file-header-bar` and `#remove-file-link` are
      shown, and the trace of page-level operations. */
  datatype OdsView = OdsView(
    summary: SummaryView,
    wrapperAlert: bool,
    fileNameText: string,
    headerBarShown: bool,
    removeLinkShown: bool,
    trace: seq<Notice>)

  /** The ODS page. Constants are the parts of the page the script only reads
      and the helpers and globals it uses that are not part of this model;
      fields are what the script changes. */
  class OdsPage {
    /** The first element with id `fileToUpload`. */
    const upload: FileInput
    /** The browser version indicator `ie`; a modern browser counts as 10 or more. */
    const ie: int
    /** The names the page's `validFileName` accepts. */
    const validNames: iset<string>
    /** The names whose extension, as `getFileNameExtension` reports it, is `ods`. */
    const odsNames: iset<string>
    /** `MAX_FILENAME_LENGTH`. */
    const maxFileNameLength: nat
    /** `MAX_FILESIZE`, in whole megabytes of 1000000 bytes. */
    const maxFileSizeMb: nat

    var summary: SummaryView
    var wrapperAlert: bool
    var fileNameText: string
    var headerBarShown: bool
    var removeLinkShown: bool
    ghost var trace: seq<Notice>

    ghost predicate Valid()
      reads this
    {
      |summary.banners| <= 1
    }

    constructor (upload: FileInput, ie: int, validNames: iset<string>, odsNames: iset<string>,
                 maxFileNameLength: nat, maxFileSizeMb: nat, banner: Option<string>)
      ensures Valid()
      ensures this.upload == upload && this.ie == ie
      ensures this.validNames == validNames && this.odsNames == odsNames
      ensures this.maxFileNameLength == maxFileNameLength && this.maxFileSizeMb == maxFileSizeMb
      ensures summary == SummaryView(if banner.Some? then [banner.value] else [], false, banner.Some?, "", banner.Some?)
      ensures !wrapperAlert && fileNameText == "" && !headerBarShown && !removeLinkShown && trace == []
    {
      this.upload, this.ie, this.validNames, this.odsNames := upload, ie, validNames, odsNames;
      this.maxFileNameLength, this.maxFileSizeMb := maxFileNameLength, maxFileSizeMb;
      summary := SummaryView(if banner.Some? then [banner.value] else [], false, banner.Some?, "", banner.Some?);
      wrapperAlert, fileNameText, headerBarShown, removeLinkShown := false, "", false, false;
      trace := [];
    }

    /** The message the change handler shows for each rejection. */
    function OdsMessage(r: OdsRejection): (msg: string)
      ensures r == NameTooLong ==>
                |msg| == |NameTooLongHead| + |DecimalString(maxFileNameLength)| + |NameTooLongTail|
                && msg[|NameTooLongHead|..|msg| - |NameTooLongTail|] == DecimalString(maxFileNameLength)
      ensures r == TooLarge ==>
                |msg| == |TooLargeHead| + |DecimalString(maxFileSizeMb)| + |TooLargeTail|
                && msg[|TooLargeHead|..|msg| - |TooLargeTail|] == DecimalString(maxFileSizeMb)
    {
      match r
      case InvalidCharacters => InvalidCharactersMessage
      case NameTooLong => NameTooLongHead + DecimalString(maxFileNameLength) + NameTooLongTail
      case NotOds => NotOdsMessage
      case TooLarge => TooLargeHead + DecimalString(maxFileSizeMb) + TooLargeTail
    }

    /** The outcome of the checks for a name, given what `fileSizeOK()` answers. */
    function Verdict(fileName: string, sizeOk: bool): Option<OdsRejection>
    {
      OdsCheck(fileName in validNames, Utf16Length(fileName), maxFileNameLength, fileName in odsNames, sizeOk)
    }

    ghost function Snapshot(): OdsView
      reads this
    {
      OdsView(summary, wrapperAlert, fileNameText, headerBarShown, removeLinkShown, trace)
    }

    /** What the checks of the change handler do to the fields: either
        `removeErrorMsg` is called, leaving the summary view `cleared` and
        `#file-wrapper` marked or not as `clearedAlert` says, or the first
        failing check's message is shown with `#file-wrapper` marked. */
    ghost function Checked(v: OdsView, fileName: string, sizeOk: bool, cleared: SummaryView, clearedAlert: bool)
      : OdsView
    {
      match Verdict(fileName, sizeOk)
      case None => v.(summary := cleared, wrapperAlert := clearedAlert, trace := v.trace + [RemoveErrorMsg])
      case Some(r) =>
        v.(summary := AfterError(v.summary, OdsMessage(r)), wrapperAlert := true,
           trace := v.trace + [ShowError(OdsMessage(r))])
    }

    /** What the change handler does to the fields once it has a name: the
        checks, then the name displayed and the header bar and the remove link
        shown. */
    ghost function Handle(v: OdsView, fileName: string, sizeOk: bool, cleared: SummaryView, clearedAlert: bool)
      : OdsView
    {
      Checked(v, fileName, sizeOk, cleared, clearedAlert)
        .(fileNameText := fileName, headerBarShown := true, removeLinkShown := true)
    }

    /** Every change that reaches the checks performs exactly one page-level
        operation: `removeErrorMsg` when the file passes, otherwise the
        message of the first failing check; the chosen name is displayed and
        the header bar and the remove link are shown in both cases. */
    lemma HandleOutcome(v: OdsView, fileName: string, sizeOk: bool, cleared: SummaryView, clearedAlert: bool)
      ensures var w := Handle(v, fileName, sizeOk, cleared, clearedAlert);
              && |w.trace| == |v.trace| + 1 && w.trace[..|v.trace|] == v.trace
              && (w.trace[|v.trace|] == RemoveErrorMsg <==> Verdict(fileName, sizeOk) == None)
              && (Verdict(fileName, sizeOk).Some? ==>
                    w.trace[|v.trace|] == ShowError(OdsMessage(Verdict(fileName, sizeOk).value)))
              && w.fileNameText == fileName && w.headerBarShown && w.removeLinkShown
    {
      var w := Handle(v, fileName, sizeOk, cleared, clearedAlert);
      assert w.trace[..|v.trace|] == v.trace;
    }

    /** A failing file leaves exactly one banner, holding its message, with
        the page and `#file-wrapper` marked, whatever `removeErrorMsg` would
        have left. */
    lemma HandleBanner(v: OdsView, fileName: string, sizeOk: bool, cleared: SummaryView, clearedAlert: bool)
      requires |v.summary.banners| <= 1 && Verdict(fileName, sizeOk).Some?
      ensures var w, r := Handle(v, fileName, sizeOk, cleared, clearedAlert), Verdict(fileName, sizeOk).value;
              w.summary.banners == [OdsMessage(r)] && w.summary.linkText == OdsMessage(r)
              && w.summary.uploadDisabled && w.summary.summaryVisible && w.summary.formError
              && w.wrapperAlert
    {
      SingleBanner(v.summary.banners, OdsMessage(Verdict(fileName, sizeOk).value));
    }

    /** `showODSErrorMsg`: replaces the banner by one holding the message,
        marks `#file-wrapper` and marks the page as failing. */
    method ShowOdsErrorMsg(msg: string)
      requires Valid()
      modifies this`summary, this`wrapperAlert, this`trace
      ensures Valid()
      ensures summary == AfterError(old(summary), msg) && wrapperAlert
      ensures summary.banners == [msg] && summary.linkText == msg
      ensures trace == old(trace) + [ShowError(msg)]
    {
      if summary.banners != [] {
        summary := summary.(banners := summary.banners[1..]);
        summary := summary.(summaryVisible := false);
        summary := summary.(formError := false);
      }
      summary := summary.(uploadDisabled := true);
      summary := summary.(summaryVisible := true);
      wrapperAlert := true;
      summary := summary.(banners := summary.banners + [msg]);
      summary := summary.(linkText := msg);
      summary := summary.(formError := true);
      trace := trace + [ShowError(msg)];
    }

    /** The checks of the change handler, in the order it makes them. */
    method CheckFile(fileName: string, sizeOk: bool, cleared: SummaryView, clearedAlert: bool)
      requires Valid() && |cleared.banners| <= 1
      modifies this`summary, this`wrapperAlert, this`trace
      ensures Valid()
      ensures Snapshot() == Checked(old(Snapshot()), fileName, sizeOk, cleared, clearedAlert)
    {
      if fileName in validNames {
        if Utf16Length(fileName) <= maxFileNameLength {
          if fileName in odsNames {
            if sizeOk {
              summary, wrapperAlert := cleared, clearedAlert;
              trace := trace + [RemoveErrorMsg];
            } else {
              ShowOdsErrorMsg(OdsMessage(TooLarge));
            }
          } else {
            ShowOdsErrorMsg(OdsMessage(NotOds));
          }
        } else {
          ShowOdsErrorMsg(OdsMessage(NameTooLong));
        }
      } else {
        ShowOdsErrorMsg(OdsMessage(InvalidCharacters));
      }
    }

    /** The change handler of `#fileToUpload`, given what `fileSizeOK()`
        answers and what `removeErrorMsg` leaves of the summary view and
        `#file-wrapper` (taken to keep at most one banner). On a modern
        browser with no file selected, reading `files[0].name` raises a
        TypeError and the handler changes nothing. */
    method OnChange(sizeOk: bool, cleared: SummaryView, clearedAlert: bool)
      requires Valid() && |cleared.banners| <= 1
      modifies this`summary, this`wrapperAlert, this`fileNameText, this`headerBarShown,
               this`removeLinkShown, this`trace
      ensures Valid()
      ensures Snapshot() == match ChosenName(upload, ie)
                            case None => old(Snapshot())
                            case Some(name) => Handle(old(Snapshot()), name, sizeOk, cleared, clearedAlert)
    {
      var fileName;
      if ie < 10 {
        fileName := LegacyFileName(upload.value);
      } else {
        if upload.files == [] {
          return;
        }
        fileName := upload.files[0].name;
      }
      CheckFile(fileName, sizeOk, cleared, clearedAlert);
      fileNameText := fileName;
      headerBarShown := true;
      removeLinkShown := true;
    }
  }
}
