# ERS returns frontend: upload checks and form toggling in Dafny

This project models the client-side and server-side checks that the ERS
(employment-related securities) returns service applies to an uploaded
return, and the toggling of the company details form.

- **CSV upload page** (`CsvUpload`, built on `UploadCommon`). The
  `#fileToUpload` change handler resets the global `errors` counter and
  validates every matching input.
  - `validateFile` runs four checks in a fixed order: name characters, the
    `csv` extension, the 100 MB size limit and membership in the expected
    files list. It shows the message of the first check that fails and
    counts the error.
  - A failing input clears the `.input-csv-file-name` alerts and marks its
    own `Div`.
  - On a modern browser, an input with no selected file raises a TypeError
    when its `files[0].name` is read, which ends the handler there.
  - When every input was handled and none failed, the alerts are cleared
    and `removeErrorMsg` is called.
  - `duplicateFileName` counts the inputs that hold a name and marks every
    holder after the first.
- **ODS upload page** (`OdsUpload`). The change handler runs four checks in
  order: name characters, a name length of at most `MAX_FILENAME_LENGTH`
  UTF-16 units, the `ods` extension and `fileSizeOK()`.
  - On a modern browser with no file selected, reading `files[0].name`
    raises a TypeError and the handler changes nothing.
  - When a name is read, it performs exactly one page-level operation:
    `removeErrorMsg` or `showODSErrorMsg`.
  - When a name is read, whatever the checks decide, it then displays the
    file name and shows the header bar and the remove link.
- **Error banner** (`UploadCommon`). Both pages replace the `#error-summary`
  banner rather than adding one, so a page holding at most one banner keeps
  exactly one, with the latest message.
- **`ZipUtils.unpackToOutputFolder`** (`ZipUtils`).
  - An archive is refused (the Java method's `null`) when any entry's name
    matches the executable pattern.
  - Otherwise a second pass over a reopened stream finds the first
    `content.xml`. Its bytes are copied through a 1024-byte buffer into a
    fresh file, which is returned even when no such entry exists.
  - The input stream (`ZipReader`) and the output file (`OutputFile`) are
    classes whose methods update their fields. The method is proved against `HasExe`,
    `ContentData` and `Chunks`.
- **Company details toggler** (`CompanyToggle`).
  - The overseas radio shows only the country group. A stale `UK` country
    is cleared together with the postcode.
  - The UK radio shows the other three groups and sets the country to `UK`.
  - Loading the script hides the country group. It then clicks the UK
    radio for a country of `UK` or none, and the overseas radio otherwise.

How the model stands for the page:
- Each page is a class.
  - Its constants are the DOM parts the scripts only read, plus the helpers
    defined elsewhere. `validFileName` and `getFileNameExtension` are given
    as the sets of names they accept.
  - Its fields are what the scripts change.
  - A ghost trace records the page-level operations in order.
- Each handler is proved against a function on values: `Run`/`Step` for the
  CSV page, `Handle` for the ODS page, `OverseasStep`/`UkStep`/`Loaded` for
  the company form.
- `removeErrorMsg` is defined outside these files. What it leaves is an
  argument of the handler that calls it, so the proofs hold whatever it
  does (see "Left out").
- Lemmas state what those functions promise.

## Model

| member | source | states |
|---|---|---|
| UploadCommon.LastIndexOf | public/javascripts/ers_csv_scripts.js:113 | `lastIndexOf` for one character: a position holding it with no occurrence after it, or -1 when it occurs nowhere |
| UploadCommon.LegacyFileName | public/javascripts/ers_csv_scripts.js:113 | the legacy-browser name is a suffix of the value with no backslash, preceded by a backslash when shorter than the value, and the whole value when it has no backslash |
| UploadCommon.ChosenName | public/javascripts/ers_csv_scripts.js:112-116 | the name both change handlers read: the parsed path on a legacy browser, `files[0].name` otherwise; with a browser-consistent input, the TypeError (None) happens exactly on a modern browser with no file selected |
| UploadCommon.LegacyNameOfPath | public/javascripts/ers_ods_scripts.js:28-29 | the legacy name of `dir\name` is `name`, whatever the directory part holds |
| UploadCommon.Utf16Length | public/javascripts/ers_ods_scripts.js:37 | JavaScript's `length` lies between the number of characters and twice it, and equals it for a name inside the Basic Multilingual Plane |
| UploadCommon.DecimalString | public/javascripts/ers_ods_scripts.js:50 | the printed number is a non-empty string of digits with no leading zero |
| UploadCommon.DecimalRoundTrip | public/javascripts/ers_ods_scripts.js:50 | reading the printed number back as decimal gives the number |
| UploadCommon.ReplaceBanner | public/javascripts/ers_csv_scripts.js:63-70 | after the replacement the last banner holds the message, and the number of banners stays as it was (one when there was none) |
| UploadCommon.SingleBanner | public/javascripts/ers_csv_scripts.js:63-70 | from a page with at most one banner, the replacement leaves exactly the new one |
| UploadCommon.AfterError | public/javascripts/ers_csv_scripts.js:62-72 | showing a message replaces the banner, disables the upload button, shows the summary, sets the link text to the message and marks the form |
| UploadCommon.LastErrorWins | public/javascripts/ers_csv_scripts.js:62-74 | after any non-empty series of messages the page has one banner holding the last message, with the button disabled, the summary shown, the link text set and the form marked |
| UploadCommon.BannerInvariant | public/javascripts/ers_csv_scripts.js:62-74 | a series of messages keeps at most one banner on the page |
| UploadCommon.AfterErrorsSnoc | public/javascripts/ers_csv_scripts.js:62-74 | one more message extends both the summary fold and the notice trace by one step |
| CsvUpload.CsvFileSizeOK | public/javascripts/ers_csv_scripts.js:7-17 | the size check passes exactly on a legacy browser or for at most `MAX_CSV_FILESIZE` bytes |
| CsvUpload.CsvFileSizeBoundary | public/javascripts/ers_csv_scripts.js:5-17 | the limit of 100000000 bytes itself passes, and one byte more fails on a modern browser |
| CsvUpload.CsvMessagesDistinct | public/javascripts/ers_csv_scripts.js:87-103 | the four rejection messages are pairwise different |
| CsvUpload.CsvFirstFailureWins | public/javascripts/ers_csv_scripts.js:76-107 | a rejection is reported exactly when every earlier check passed and its own failed; the file passes exactly when all four checks pass |
| CsvUpload.HeldName | public/javascripts/ers_csv_scripts.js:35-46 | the name `duplicateFileName` compares is the name the change handler would read, and there is one exactly when the input's value is non-empty |
| CsvUpload.NoMatchIffZero | public/javascripts/ers_csv_scripts.js:32-54 | the duplicate count is zero exactly when no input holds the name |
| CsvUpload.MarkedExactly | public/javascripts/ers_csv_scripts.js:32-48 | an input is marked exactly when it holds the name and an earlier input holds it too, so the first holder is never marked |
| CsvUpload.MarkedCount | public/javascripts/ers_csv_scripts.js:32-54 | every holder but the first is marked |
| CsvUpload.MarkedDivsAreParents | public/javascripts/ers_csv_scripts.js:34-48 | the divs marked input by input are the parent divs of the marked inputs |
| CsvUpload.CsvPage.IsValidCsvFile | public/javascripts/ers_csv_scripts.js:19-29 | true exactly when some `.files` element has `data-file-name` equal to the name |
| CsvUpload.CsvPage.DuplicateFileName | public/javascripts/ers_csv_scripts.js:32-54 | true exactly when more than one non-empty input holds the name; adds `fileAlert` to the parent divs of the marked inputs and to nothing else |
| CsvUpload.CsvPage.RemoveFileAlert | public/javascripts/ers_csv_scripts.js:56-60 | removes `fileAlert` from the parent div of every `.input-csv-file-name` element and leaves the other alerts |
| CsvUpload.CsvPage.ShowCsvErrorMsg | public/javascripts/ers_csv_scripts.js:62-74 | afterwards exactly one banner exists and holds the message, the button is disabled, the summary is shown, the link text is the message and the form is marked |
| CsvUpload.CsvPage.ValidateFile | public/javascripts/ers_csv_scripts.js:76-107 | true exactly when every check passes, leaving `errors` and the page unchanged; otherwise `errors` grows by one and the first failing check's message is shown once |
| CsvUpload.CsvPage.Reached | public/javascripts/ers_csv_scripts.js:111-117 | the handler gets through exactly the inputs before the first one whose `files[0].name` raises a TypeError |
| CsvUpload.CsvPage.CheckUpload | public/javascripts/ers_csv_scripts.js:112-123 | one input's callback changes the page exactly as `Step` says: nothing when it passes, or one error, its message, cleared alerts and its own div marked |
| CsvUpload.CsvPage.OnChange | public/javascripts/ers_csv_scripts.js:109-129 | resets `errors`, runs the callback over the inputs it reaches and, when it reaches them all and none failed, clears the alerts and calls `removeErrorMsg`, the summary view then being whatever that helper leaves |
| CsvUpload.CsvPage.RunShowsFailures | public/javascripts/ers_csv_scripts.js:110-124 | a batch counts one error per failing input and shows their messages in order, ending as `AfterErrors` says |
| CsvUpload.CsvPage.PassingCallbacksChangeNothing | public/javascripts/ers_csv_scripts.js:111-124 | the callbacks change nothing (counter, alerts, summary view, trace) when no input fails |
| CsvUpload.CsvPage.LastFailureMarked | public/javascripts/ers_csv_scripts.js:119-122 | the parent div of the last failing input carries `fileAlert` after the batch |
| CsvUpload.CsvPage.BatchLeavesOneBanner | public/javascripts/ers_csv_scripts.js:111-128 | after callbacks with a failure, exactly one banner holds the last failure's message, which is also the link text, the page is marked as failing and the counter is not zero, so `removeErrorMsg` is not reached |
| OdsUpload.OdsFirstFailureWins | public/javascripts/ers_ods_scripts.js:35-54 | a rejection is reported exactly when every earlier check passed and its own failed; the file passes exactly when all four pass |
| OdsUpload.NameLengthBoundary | public/javascripts/ers_ods_scripts.js:37 | a valid name of exactly the maximum length passes the length check, one unit longer is rejected for its length |
| OdsUpload.OdsPage.OdsMessage | public/javascripts/ers_ods_scripts.js:44-53 | the length message prints `MAX_FILENAME_LENGTH` and the size message prints the limit in megabytes, at the places the texts put them |
| OdsUpload.OdsPage.HandleOutcome | public/javascripts/ers_ods_scripts.js:35-66 | a change that reaches the checks performs exactly one page-level operation, `removeErrorMsg` exactly when the file passes and otherwise the first failure's message; then it displays the name and shows the header bar and the remove link |
| OdsUpload.OdsPage.HandleBanner | public/javascripts/ers_ods_scripts.js:9-22 | a failure leaves exactly one banner holding its message, with the button disabled, the summary shown, the link text set, the form and `#file-wrapper` marked, whatever `removeErrorMsg` would have left |
| OdsUpload.OdsPage.ShowOdsErrorMsg | public/javascripts/ers_ods_scripts.js:9-22 | afterwards exactly one banner exists and holds the message, `#file-wrapper` has `fileAlert`, and the rest of the summary view is as `AfterError` says |
| OdsUpload.OdsPage.CheckFile | public/javascripts/ers_ods_scripts.js:34-54 | the nested checks change the summary view, `#file-wrapper` and the trace exactly as `Checked` says: the first failure's message, or what `removeErrorMsg` leaves |
| OdsUpload.OdsPage.OnChange | public/javascripts/ers_ods_scripts.js:25-67 | changes nothing when `files[0].name` raises a TypeError, and otherwise changes the page exactly as `Handle` says for the extracted name, with what `removeErrorMsg` leaves as given |
| ZipUtils.IsExeName | app/utils/ZipUtils.java:17-22 | the regex `([^\s]+(\.(?i)(exe))$)`, read as the engine backtracks through `+`, accepts exactly the names of at least five characters ending in `.exe` in any case with no whitespace before that suffix |
| ZipUtils.ExeNameParts | app/utils/ZipUtils.java:17-22 | a stem followed by a four-character extension matches exactly when the stem is non-empty and free of whitespace and the extension is `.exe` in any case |
| ZipUtils.ExeNamesMatchAnyCase | app/utils/ZipUtils.java:17-22 | `a.exe`, `RUN.EXE` and `a.ExE` match: only the extension's case is ignored |
| ZipUtils.ExeNamesMatchThroughDots | app/utils/ZipUtils.java:17-22 | `d/r.exe` and `a.b.exe` match: slashes and earlier dots belong to `[^\s]+` |
| ZipUtils.ExeNamesUnmatched | app/utils/ZipUtils.java:17-22 | `.exe`, `my setup.exe`, `setup.exe.txt`, `setup.exe ` and `content.xml` do not match |
| ZipUtils.HasExe | app/utils/ZipUtils.java:20-28 | the first pass, entry by entry, answers yes exactly when some entry at any position has an executable's name |
| ZipUtils.ContentIndex | app/utils/ZipUtils.java:35-37 | the search stops at the first entry named exactly `content.xml`, or past the end when there is none |
| ZipUtils.ContentDataFirst | app/utils/ZipUtils.java:35-47 | the copied bytes are those of the first `content.xml` entry; later entries, and earlier ones with other names, do not matter |
| ZipUtils.NoContentEntry | app/utils/ZipUtils.java:35-53 | an archive without `content.xml` yields an empty file, not a missing one |
| ZipUtils.ChunksCover | app/utils/ZipUtils.java:44-47 | the chunks written add up to the whole entry, and each one holds between 1 and 1024 bytes |
| ZipUtils.FullChunks | app/utils/ZipUtils.java:13-47 | when every read from the `k`-th on is granted a full buffer, all chunks but the last are 1024 bytes, and there are `n / 1024` of them rounded up |
| ZipUtils.ZipReader.GetNextEntry | app/utils/ZipUtils.java:20-36 | returns the entries in order and opens each with nothing read, then answers None and opens nothing |
| ZipUtils.ZipReader.Read | app/utils/ZipUtils.java:45 | copies the next chunk of the open entry to the front of the buffer and returns its size, and returns -1 at the end of the entry or when no entry is open; the buffer past the chunk, and the whole buffer when nothing is delivered, stays as it was |
| ZipUtils.ZipReader.CloseEntry | app/utils/ZipUtils.java:29 | `closeEntry` leaves no entry open (also at lines 23 and 50) |
| ZipUtils.ZipReader.Close | app/utils/ZipUtils.java:30 | `close` leaves the stream closed (also at lines 24 and 51) |
| ZipUtils.OutputFile.Write | app/utils/ZipUtils.java:46 | `write(buffer, 0, len)` appends exactly the first `len` bytes of the buffer to the file |
| ZipUtils.ScanForExe | app/utils/ZipUtils.java:19-28 | the first pass finds an executable exactly when some entry's name matches the pattern |
| ZipUtils.SeekContent | app/utils/ZipUtils.java:32-37 | the second pass leaves the first `content.xml` open with nothing read, or no entry open when there is none |
| ZipUtils.CopyChunk | app/utils/ZipUtils.java:45-46 | one round of the copy loop: a read that delivers nothing happens exactly at the end of the entry and writes nothing; otherwise the file grows by the bytes read, which are the next chunk `Chunks` gives |
| ZipUtils.CopyEntry | app/utils/ZipUtils.java:42-47 | the copy loop writes the whole open entry, in the chunks `Chunks` gives, and stops at the first read that delivers nothing |
| ZipUtils.UnpackToOutputFolder | app/utils/ZipUtils.java:11-54 | null exactly when some entry is an executable, even if `content.xml` is present; otherwise a file holding exactly the bytes of the first `content.xml`, or an empty one |
| CompanyToggle.Visible | public/javascripts/ers_company.js:4-23 | overseas shows the country group alone; UK shows the postcode, company-reg and corporation-ref groups and hides the country group |
| CompanyToggle.OverseasClickEffect | public/javascripts/ers_company.js:4-14 | an overseas click shows only the country group; a `UK` country is cleared with the postcode and `Select...` becomes selected; any other country keeps both values |
| CompanyToggle.UkClickEffect | public/javascripts/ers_company.js:16-23 | a UK click hides the country group, shows the other three, selects `UK` and sets the country to `UK`, keeping the postcode |
| CompanyToggle.ClickIdempotent | public/javascripts/ers_company.js:4-23 | clicking the same radio again changes nothing further |
| CompanyToggle.LastClickDecides | public/javascripts/ers_company.js:4-23 | after any non-empty sequence of clicks the groups shown depend only on the last radio clicked |
| CompanyToggle.ReachableValues | public/javascripts/ers_company.js:4-23 | clicks only ever leave the initial country, `UK` or an empty string in `#country`, and the initial postcode or an empty string in `#postcode` |
| CompanyToggle.LoadedState | public/javascripts/ers_company.js:26-31 | loading with a country of `UK` or none ends in the UK state with the country `UK` and the UK radio marked; any other country ends in the overseas state with the country kept |
| CompanyToggle.EmptyCountryRoundTrip | public/javascripts/ers_company.js:2-31 | a form loaded with no country and switched to overseas has an empty country and postcode; switching back sets the country to `UK` |
| CompanyToggle.CompanyForm.Load | public/javascripts/ers_company.js:2-31 | loading the script hides the country group and runs the handler the country calls for |
| CompanyToggle.CompanyForm.OverseasClick | public/javascripts/ers_company.js:4-14 | the overseas handler changes the form exactly as `OverseasStep` says |
| CompanyToggle.CompanyForm.UkClick | public/javascripts/ers_company.js:16-23 | the UK handler changes the form exactly as `UkStep` says |
| CompanyToggle.CompanyForm.ClickRadio | public/javascripts/ers_company.js:4-23 | a click on either radio changes the form exactly as `Click` says |

## Left out

- DOM mechanics are not modelled: building the banner's HTML, `focus()`, CSS padding, and moving the remove link on `ie < 11` (`ers_ods_scripts.js` lines 62-65). The page is a record of flags, strings and sets.
- The `#choose-file-button` click relay (`ers_ods_scripts.js` lines 5-7) is a pure UI forward to the file input.
- `validFileName` and `getFileNameExtension` are defined outside these files. Each page takes them as the set of names the helper accepts (`validNames`, `csvNames`, `odsNames`).
- `removeErrorMsg` is defined outside these files. Its call is recorded in the trace as `RemoveErrorMsg`. What it leaves is an argument: the summary view (`cleared`) on both pages, and whether `#file-wrapper` keeps `fileAlert` (`clearedAlert`) on the ODS page. The model takes it to leave at most one banner and to change no other field. A passing file removes the banner and enables the upload button only when `cleared` has no banner and the button enabled.
- `fileSizeOK()` is defined outside these files. Its answer is the `sizeOk` parameter of `OdsUpload.OdsPage.OnChange`.
- `MAX_FILENAME_LENGTH` and `ie` are page constants.
- `MAX_FILESIZE` is taken in whole megabytes (`maxFileSizeMb`). For a limit that is not a whole number of megabytes, JavaScript would print a fraction; that case is not modelled.
- The `e` argument of `showCSVErrorMsg` and `validateFile` is never used by them, so the model has no such argument.
- The CSV handler's `fileName != undefined` test (line 118) always holds: both extraction paths yield a string. It is therefore not a branch of the model.
- `duplicateFileName` is modelled on its own. The change handler shown never calls it.
- `CsvUpload.CsvPage.OnChange`: requires the summary view `removeErrorMsg` leaves to hold at most one banner, and assumes that helper changes neither `errors` nor the `fileAlert` divs, because it is not part of this model.
- `OdsUpload.OdsPage.OnChange`: requires the summary view `removeErrorMsg` leaves to hold at most one banner, because that helper is not part of this model.
- Real I/O in `ZipUtils` is left out: `FileInputStream`, decompression, temporary-file naming, `deleteOnExit` and `IOException`.
  - The archive is a sequence of named entries with their uncompressed bytes.
  - The temporary file is an in-memory byte sequence.
  - How the stream splits an entry across reads is the `grants` parameter. Each grant is positive, as `ZipInputStream.read` never returns 0 for a non-empty buffer.
- The Java regex engine is not modelled in general. `IsExeName` reads this one pattern as the engine tries it. Java's `\s` is taken as the six ASCII whitespace characters, and `(?i)` as ASCII case folding.
- `#country` is modelled as the value `val()` returns. Setting a `<select>` to a value none of its options has, and the radio's own checked state after a programmatic `click()`, are browser behaviour outside the scripts.
- Event handlers run one at a time and to completion. Browser events are not concurrent.
