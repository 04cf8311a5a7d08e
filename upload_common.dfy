/** Definitions shared by the CSV and the ODS upload pages: how a file name is
    read from a file input, how JavaScript measures and prints it, and how the
    single `#error-summary` banner is replaced. */
module UploadCommon {
  import opened Optional

  /** Identifies a `Div` element of the page (the parent of a file input). */
  type DivId = nat

  /** A file as the browser's File API reports it (`files[i].name`, `files[i].size`). */
  datatype SelectedFile = SelectedFile(name: string, size: nat)

  /** A file input element as the scripts read it: its textual `value` (a path
      on legacy browsers), its `files` list, its `data-file-name` attribute
      (None when absent, so `getAttribute` gives null) and its parent element
      when that is a `Div`. */
  datatype FileInput = FileInput(
    value: string,
    files: seq<SelectedFile>,
    dataFileName: Option<string>,
    parentDiv: Option<DivId>)

  /** What a browser guarantees of a file input: a non-empty value exactly
      when a file is selected. */
  predicate WellFormed(input: FileInput)
  {
    (input.value == "") <==> (input.files == [])
  }

  /** The operations of the page that a handler performs, in order. */
  datatype Notice = ShowError(msg: string) | RemoveErrorMsg

  /** `String.prototype.lastIndexOf` for a single character: the last
      position holding it, or -1 when it does not occur. */
  function LastIndexOf(s: string, c: char): (r: int)
    ensures -1 <= r < |s|
    ensures r >= 0 ==> s[r] == c
    ensures forall j | r < j < |s| :: s[j] != c
  {
    if |s| == 0 then -1
    else if s[|s| - 1] == c then |s| - 1
    else LastIndexOf(s[..|s| - 1], c)
  }

  /** The legacy-browser file name: `v.substr(v.lastIndexOf("\\") + 1, v.length)`,
      the longest suffix of the path that holds no backslash. */
  function LegacyFileName(value: string): (r: string)
    ensures |r| <= |value| && r == value[|value| - |r|..]
    ensures '\\' !in r
    ensures |r| < |value| ==> value[|value| - |r| - 1] == '\\'
    ensures '\\' !in value ==> r == value
  {
    value[LastIndexOf(value, '\\') + 1..]
  }

  /** The legacy name of a Windows path is its last component: whatever
      directory precedes the final backslash is dropped. */
  lemma LegacyNameOfPath(dir: string, name: string)
    requires '\\' !in name
    ensures LegacyFileName(dir + ['\\'] + name) == name
  {
    var value := dir + ['\\'] + name;
    var r := LegacyFileName(value);
    assert value[|dir|] == '\\';
    assert forall i | |dir| < i < |value| :: value[i] == name[i - |dir| - 1];
    assert |r| == |name|;
    assert r == value[|value| - |name|..] == name;
  }

  /** The file name the change handlers read from an input: the parsed path on
      a browser with `ie < 10`, otherwise `files[0].name`. None stands for the
      TypeError that `files[0].name` raises when no file is selected. */
  function ChosenName(input: FileInput, ie: int): (r: Option<string>)
    ensures ie < 10 ==> r == Some(LegacyFileName(input.value))
    ensures ie >= 10 ==> (r.None? <==> input.files == [])
    ensures ie >= 10 && r.Some? ==> r.value == input.files[0].name
    ensures WellFormed(input) ==> (r.None? <==> ie >= 10 && input.value == "")
  {
    if ie < 10 then Some(LegacyFileName(input.value))
    else if input.files == [] then None
    else Some(input.files[0].name)
  }

  /** JavaScript's `length` of a string: the number of UTF-16 code units,
      two for a character outside the Basic Multilingual Plane. */
  function Utf16Length(s: string): (n: nat)
    ensures |s| <= n <= 2 * |s|
    ensures (forall i | 0 <= i < |s| :: s[i] as int < 0x1_0000) ==> n == |s|
  {
    if s == [] then 0
    else
      var n := Utf16Length(s[1..]);
      assert forall i | 0 <= i < |s| - 1 :: s[1..][i] == s[i + 1];
      (if s[0] as int < 0x1_0000 then 1 else 2) + n
  }

  function Digit(d: nat): (c: char)
    requires d < 10
    ensures '0' <= c <= '9'
  {
    (48 + d) as char
  }

  /** How JavaScript prints a non-negative integer below 10^21 when it is
      concatenated into a message (from 10^21 on it switches to exponent
      notation, which this model does not cover). */
  function DecimalString(n: nat): (r: string)
    ensures |r| >= 1
    ensures forall i | 0 <= i < |r| :: '0' <= r[i] <= '9'
    ensures r[0] == '0' ==> n == 0
  {
    if n < 10 then [Digit(n)] else DecimalString(n / 10) + [Digit(n % 10)]
  }

  /** Reads a string of decimal digits back as a number: the reference the
      printer is checked against. */
  function ParseDecimal(s: string): nat
    requires forall i | 0 <= i < |s| :: '0' <= s[i] <= '9'
  {
    if s == [] then 0
    else ParseDecimal(s[..|s| - 1]) * 10 + (s[|s| - 1] as int - 48)
  }

  lemma {:induction false} DecimalRoundTrip(n: nat)
    ensures ParseDecimal(DecimalString(n)) == n
  {
    if n >= 10 {
      var s := DecimalString(n);
      DecimalRoundTrip(n / 10);
      assert s[..|s| - 1] == DecimalString(n / 10);
    }
  }

  /** The banner update both pages perform: `$("#error-summary").remove()`
      drops the first element with that id (an id selector yields at most
      one), and the new banner is inserted just before `#file-uploader`, after
      any banner still there. */
  function ReplaceBanner(banners: seq<string>, msg: string): (r: seq<string>)
    ensures |r| >= 1 && r[|r| - 1] == msg
    ensures |r| == if banners == [] then 1 else |banners|
  {
    (if banners == [] then [] else banners[1..]) + [msg]
  }

  /** The single-banner invariant: from a page with at most one banner, the
      replacement leaves exactly one, holding the new message. */
  lemma SingleBanner(banners: seq<string>, msg: string)
    requires |banners| <= 1
    ensures ReplaceBanner(banners, msg) == [msg]
  {
  }

  /** The part of a page that an error message changes: the `#error-summary`
      banners in document order, whether the upload button is disabled,
      whether `.validation-summary` is shown, the text of the summary link and
      whether `#uploadForm` carries the `error` class. */
  datatype SummaryView = SummaryView(
    banners: seq<string>,
    uploadDisabled: bool,
    summaryVisible: bool,
    linkText: string,
    formError: bool)

  /** What showing an error message does to the summary view: the old banner
      (if any) goes, with the summary hidden and the form's error class
      removed, and then the button is disabled, the summary shown, the new
      banner inserted, the link text set and the error class added. */
  function AfterError(v: SummaryView, msg: string): (r: SummaryView)
    ensures r.banners == ReplaceBanner(v.banners, msg)
    ensures r.uploadDisabled && r.summaryVisible && r.formError && r.linkText == msg
  {
    var cleared :=
      if v.banners != [] then v.(banners := v.banners[1..], summaryVisible := false, formError := false)
      else v;
    cleared.(uploadDisabled := true, summaryVisible := true,
             banners := cleared.banners + [msg], linkText := msg, formError := true)
  }

  /** The summary view after a series of error messages, shown in order. */
  function AfterErrors(v: SummaryView, msgs: seq<string>): SummaryView
  {
    if msgs == [] then v else AfterError(AfterErrors(v, msgs[..|msgs| - 1]), msgs[|msgs| - 1])
  }

  /** However many messages a batch shows, a page that started with at most
      one banner ends with exactly one, holding the last message, and with the
      button disabled, the summary shown and the form marked. */
  lemma {:induction false} LastErrorWins(v: SummaryView, msgs: seq<string>)
    requires |v.banners| <= 1 && msgs != []
    ensures AfterErrors(v, msgs).banners == [msgs[|msgs| - 1]]
    ensures AfterErrors(v, msgs).linkText == msgs[|msgs| - 1]
    ensures AfterErrors(v, msgs).uploadDisabled && AfterErrors(v, msgs).summaryVisible
    ensures AfterErrors(v, msgs).formError
  {
    var prefix := msgs[..|msgs| - 1];
    if prefix != [] {
      LastErrorWins(v, prefix);
    }
    SingleBanner(AfterErrors(v, prefix).banners, msgs[|msgs| - 1]);
  }

  /** A batch keeps the single-banner invariant, whether it shows any message or not. */
  lemma BannerInvariant(v: SummaryView, msgs: seq<string>)
    requires |v.banners| <= 1
    ensures |AfterErrors(v, msgs).banners| <= 1
  {
    if msgs != [] {
      LastErrorWins(v, msgs);
    }
  }

  lemma AfterErrorsSnoc(v: SummaryView, msgs: seq<string>, msg: string)
    ensures AfterErrors(v, msgs + [msg]) == AfterError(AfterErrors(v, msgs), msg)
    ensures Shows(msgs + [msg]) == Shows(msgs) + [ShowError(msg)]
  {
    assert (msgs + [msg])[..|msgs|] == msgs;
  }

  /** The ShowError notices of a series of messages, in order. */
  function Shows(msgs: seq<string>): seq<Notice>
  {
    if msgs == [] then [] else Shows(msgs[..|msgs| - 1]) + [ShowError(msgs[|msgs| - 1])]
  }
}
