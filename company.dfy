/** The company details form: the UK and overseas radio buttons show and
    hide groups of fields and keep the `#country` and `#postcode` values
    consistent with the choice. */
module CompanyToggle {

  datatype Radio = Uk | Overseas

  /** Which of `.country-group`, `.postcode-group`, `.company-reg-group` and
      `.corporation-ref-group` are shown. */
  datatype Groups = Groups(country: bool, postcode: bool, companyReg: bool, corporationRef: bool)

  /** The part of the form the script changes: the groups shown, the values
      of `#country` and `#postcode`, the option values that carry the
      `selected` attribute and whether `#uk-radio-button` has the `selected`
      class. */
  datatype Form = Form(
    groups: Groups,
    country: string,
    postcode: string,
    selectedOptions: set<string>,
    ukMarked: bool)

  const SelectOption: string := "Select..."
  const UkCountry: string := "UK"

  /** The groups each radio leaves shown: overseas shows the country group
      alone, UK shows every group but it. */
  function Visible(r: Radio): (g: Groups)
    ensures g.country <==> r.Overseas?
    ensures (g.postcode <==> r.Uk?) && (g.companyReg <==> r.Uk?) && (g.corporationRef <==> r.Uk?)
  {
    if r.Overseas? then Groups(true, false, false, false) else Groups(false, true, true, true)
  }

  /** The overseas click handler on values. */
  function OverseasStep(f: Form): Form
  {
    var shown := f.(groups := Visible(Overseas));
    if f.country == UkCountry then
      shown.(selectedOptions := shown.selectedOptions + {SelectOption}, country := "", postcode := "")
    else shown
  }

  /** The UK click handler on values. */
  function UkStep(f: Form): Form
  {
    f.(groups := Visible(Uk), selectedOptions := f.selectedOptions + {UkCountry}, country := UkCountry)
  }

  function Click(f: Form, r: Radio): Form
  {
    match r
    case Uk => UkStep(f)
    case Overseas => OverseasStep(f)
  }

  /** The form after a sequence of clicks, in order. */
  function Run(f: Form, clicks: seq<Radio>): Form
  {
    if clicks == [] then f else Click(Run(f, clicks[..|clicks| - 1]), clicks[|clicks| - 1])
  }

  /** An overseas click shows only the country group. A stale `UK` country is
      cleared together with the postcode and `Select...` is marked selected;
      any other country keeps both values and the options. */
  lemma OverseasClickEffect(f: Form)
    ensures OverseasStep(f).groups == Groups(true, false, false, false)
    ensures f.country == UkCountry ==>
              OverseasStep(f).country == "" && OverseasStep(f).postcode == ""
              && OverseasStep(f).selectedOptions == f.selectedOptions + {SelectOption}
    ensures f.country != UkCountry ==>
              OverseasStep(f).country == f.country && OverseasStep(f).postcode == f.postcode
              && OverseasStep(f).selectedOptions == f.selectedOptions
    ensures OverseasStep(f).country != UkCountry && OverseasStep(f).ukMarked == f.ukMarked
  {
  }

  /** A UK click hides the country group, shows the other three, marks the
      `UK` option and sets the country to `UK`, leaving the postcode alone. */
  lemma UkClickEffect(f: Form)
    ensures UkStep(f).groups == Groups(false, true, true, true)
    ensures UkStep(f).country == UkCountry && UkStep(f).postcode == f.postcode
    ensures UkStep(f).selectedOptions == f.selectedOptions + {UkCountry} && UkStep(f).ukMarked == f.ukMarked
  {
  }

  /** Clicking the same radio twice does nothing the first click did not. */
  lemma ClickIdempotent(f: Form, r: Radio)
    ensures Click(Click(f, r), r) == Click(f, r)
  {
  }

  /** After any non-empty sequence of clicks the groups shown depend only on
      the last radio clicked. */
  lemma LastClickDecides(f: Form, clicks: seq<Radio>)
    requires clicks != []
    ensures Run(f, clicks).groups == Visible(clicks[|clicks| - 1])
  {
  }

  /** Clicks only ever leave the initial country, `UK` or the empty string in
      `#country`, and the initial postcode or the empty string in
      `#postcode`; the only options they mark are `UK` and `Select...`. */
  lemma {:induction false} ReachableValues(f: Form, clicks: seq<Radio>)
    ensures Run(f, clicks).country in {f.country, UkCountry, ""}
    ensures Run(f, clicks).postcode in {f.postcode, ""}
    ensures Run(f, clicks).selectedOptions <= f.selectedOptions + {UkCountry, SelectOption}
  {
    if clicks != [] {
      ReachableValues(f, clicks[..|clicks| - 1]);
    }
  }

  /** The form once the script has loaded: the country group hidden, then,
      for a country of `UK` or none, the UK radio marked and clicked, and the
      overseas radio clicked otherwise. */
  function Loaded(f: Form): Form
  {
    var hidden := f.(groups := f.groups.(country := false));
    if f.country == UkCountry || f.country == "" then UkStep(hidden.(ukMarked := true))
    else OverseasStep(hidden)
  }

  /** Loading starts the form in the state of the radio the country calls
      for: UK (with the country set to `UK`) when it is `UK` or empty,
      overseas (with the country kept) otherwise; the postcode is kept. */
  lemma LoadedState(f: Form)
    ensures var r := if f.country == UkCountry || f.country == "" then Uk else Overseas;
            Loaded(f).groups == Visible(r)
            && Loaded(f).country == (if r == Uk then UkCountry else f.country)
            && Loaded(f).postcode == f.postcode
            && Loaded(f).ukMarked == (r == Uk || f.ukMarked)
  {
  }

  /** A form loaded with no country, switched to overseas, keeps no `UK`
      behind in the country field and has its postcode cleared; switching
      back to UK sets the country to `UK` again. */
  lemma EmptyCountryRoundTrip(f: Form)
    requires f.country == ""
    ensures Run(Loaded(f), [Overseas]).country == ""
    ensures Run(Loaded(f), [Overseas]).postcode == ""
    ensures Run(Loaded(f), [Overseas, Uk]).country == UkCountry
  {
    assert [Overseas, Uk][..1] == [Overseas];
  }

  /** The form as the page holds it. */
  class CompanyForm {
    var countryGroupShown: bool
    var postcodeGroupShown: bool
    var companyRegGroupShown: bool
    var corporationRefGroupShown: bool
    var country: string
    var postcode: string
    var selectedOptions: set<string>
    var ukMarked: bool

    ghost function State(): Form
      reads this
    {
      Form(Groups(countryGroupShown, postcodeGroupShown, companyRegGroupShown, corporationRefGroupShown),
           country, postcode, selectedOptions, ukMarked)
    }

    /** Loads the script on a form in the given state. */
    constructor Load(initial: Form)
      ensures State() == Loaded(initial)
    {
      countryGroupShown := initial.groups.country;
      postcodeGroupShown := initial.groups.postcode;
      companyRegGroupShown := initial.groups.companyReg;
      corporationRefGroupShown := initial.groups.corporationRef;
      country, postcode := initial.country, initial.postcode;
      selectedOptions, ukMarked := initial.selectedOptions, initial.ukMarked;
      new;
      countryGroupShown := false;
      if country == UkCountry || country == "" {
        ukMarked := true;
        UkClick();
      } else {
        OverseasClick();
      }
    }

    /** The click handler of `#overseas-radio-button`. */
    method OverseasClick()
      modifies this
      ensures State() == OverseasStep(old(State()))
    {
      countryGroupShown := true;
      postcodeGroupShown := false;
      companyRegGroupShown := false;
      corporationRefGroupShown := false;
      if country == UkCountry {
        selectedOptions := selectedOptions + {SelectOption};
        country := "";
        postcode := "";
      }
    }

    /** The click handler of `#uk-radio-button`. */
    method UkClick()
      modifies this
      ensures State() == UkStep(old(State()))
    {
      countryGroupShown := false;
      postcodeGroupShown := true;
      companyRegGroupShown := true;
      corporationRefGroupShown := true;
      selectedOptions := selectedOptions + {UkCountry};
      country := UkCountry;
    }

    /** A click on either radio. */
    method ClickRadio(r: Radio)
      modifies this
      ensures State() == Click(old(State()), r)
    {
      match r
      case Uk => UkClick();
      case Overseas => OverseasClick();
    }
  }
}
