/** The `CountrySection` component as a state machine: its seven pieces of
    state, the user's choices in the three dropdowns, the loads its effects
    start, and the updates those loads make when they settle. */
module CountrySection {
  import opened Wrappers
  import opened Http
  import opened Normalize
  import opened Dedup
  import opened Fetch

  /** What the location service answers, fixed for the lifetime of the
      component: the countries list, each raw entry's states list, and each
      (country, state) pair's cities list. */
  datatype Network = Network(
    countries: Response<seq<string>>,
    states: string -> Response<seq<string>>,
    cities: (string, string) -> Response<seq<string>>)

  /** The component's state; the empty string stands for "nothing selected"
      and for "no error". */
  datatype Section = Section(
    countries: seq<string>,
    states: seq<string>,
    cities: seq<string>,
    selectedCountry: string,
    selectedState: string,
    selectedCity: string,
    error: string)

  /** A request started by an effect, with the arguments its closure saw. */
  datatype Load = LoadStates(country: string) | LoadCities(country: string, state: string)

  /** A value picked in one of the three dropdowns. */
  datatype Choice = ChooseCountry(country: string) | ChooseState(state: string) | ChooseCity(city: string)

  /** The initial state of every `useState`. */
  const Blank := Section([], [], [], "", "", "", "")

  /** The first render's effect: `loadCountries` either fills the countries
      list or records its error. */
  function Mount(net: Network): (s: Section)
    ensures UniqueKeys(s.countries, Norm)
    ensures net.countries.Ok? ==> KeySet(s.countries, Norm) == KeySet(net.countries.body, Norm)
    ensures net.countries.Ok? ==> s == Blank.(countries := DedupBy(net.countries.body, Norm))
    ensures net.countries.NotOk? ==> s == Blank.(error := CountriesFailed)
    ensures net.countries.Thrown? ==> s == Blank.(error := net.countries.message)
    ensures s.states == [] && s.cities == []
    ensures s.selectedCountry == "" && s.selectedState == "" && s.selectedCity == ""
  {
    match LoadCountries(net.countries)
    case Success(cs) => Blank.(countries := cs)
    case Failure(m) => Blank.(error := m)
  }

  /** The loads a commit from `before` to `after` starts, in effect order.
      The states effect re-runs when `selectedCountry` changed; the cities
      effect when `selectedCountry` or `selectedState` changed; each returns
      at once when its own selection is empty. */
  function Requests(before: Section, after: Section): (r: seq<Load>)
    ensures LoadStates(after.selectedCountry) in r <==>
      after.selectedCountry != before.selectedCountry && after.selectedCountry != ""
    ensures LoadCities(after.selectedCountry, after.selectedState) in r <==>
      (after.selectedCountry != before.selectedCountry || after.selectedState != before.selectedState)
      && after.selectedState != ""
    ensures forall l :: l in r ==>
      l == LoadStates(after.selectedCountry) || l == LoadCities(after.selectedCountry, after.selectedState)
    ensures forall l :: l in r ==> (l.LoadStates? ==> l.country != "") && (l.LoadCities? ==> l.state != "")
    ensures |r| <= 2
    ensures |r| == 2 ==> r[0].LoadStates? && r[1].LoadCities?
  {
    (if after.selectedCountry != before.selectedCountry && after.selectedCountry != ""
     then [LoadStates(after.selectedCountry)] else [])
    + (if (after.selectedCountry != before.selectedCountry || after.selectedState != before.selectedState)
          && after.selectedState != ""
       then [LoadCities(after.selectedCountry, after.selectedState)] else [])
  }

  /** What a load settles to: `fetchStates` or `fetchCities` against the
      service. */
  function Answer(net: Network, load: Load): Result<seq<string>> {
    match load
    case LoadStates(c) => FetchStates(net.countries, c, net.states)
    case LoadCities(c, st) => FetchCities(net.cities(c, st))
  }

  /** The body of `loadStates` or `loadCities` once its fetch settled. A
      states list replaces `states` and clears the state, the cities and the
      city; a cities list replaces `cities` and clears the city; a failure
      only records its message. */
  function Complete(s: Section, load: Load, result: Result<seq<string>>): (t: Section)
    ensures t.countries == s.countries && t.selectedCountry == s.selectedCountry
    ensures result.Failure? ==> t == s.(error := result.message)
    ensures result.Success? && load.LoadStates? ==>
      t == s.(states := result.value, selectedState := "", cities := [], selectedCity := "")
    ensures result.Success? && load.LoadCities? ==>
      t == s.(cities := result.value, selectedCity := "")
  {
    match result
    case Failure(m) => s.(error := m)
    case Success(data) =>
      match load
      case LoadStates(_) => s.(states := data, selectedState := "", cities := [], selectedCity := "")
      case LoadCities(_, _) => s.(cities := data, selectedCity := "")
  }

  /** Settles `loads` one after another, in the order they were started. */
  function SettleAll(s: Section, loads: seq<Load>, net: Network): Section
    decreases |loads|
  {
    if |loads| == 0 then s
    else SettleAll(Complete(s, loads[0], Answer(net, loads[0])), loads[1..], net)
  }

  /** The `onChange` handler of a dropdown: only the chosen selection moves. */
  function Pick(s: Section, choice: Choice): Section {
    match choice
    case ChooseCountry(c) => s.(selectedCountry := c)
    case ChooseState(st) => s.(selectedState := st)
    case ChooseCity(c) => s.(selectedCity := c)
  }

  /** One user choice: the handler's update, then every load the resulting
      commit starts, settled in start order. */
  function Step(s: Section, choice: Choice, net: Network): Section {
    var picked := Pick(s, choice);
    SettleAll(picked, Requests(s, picked), net)
  }

  /** A sequence of user choices, from `s`. */
  function Run(s: Section, choices: seq<Choice>, net: Network): Section
    decreases |choices|
  {
    if |choices| == 0 then s else Run(Step(s, choices[0], net), choices[1..], net)
  }

  /** The selected-location line: present exactly when country, state and
      city are all selected, reading "city, state, country". */
  function Shown(s: Section): (r: Option<string>)
    ensures r.Some? <==> s.selectedCountry != "" && s.selectedState != "" && s.selectedCity != ""
    ensures r.Some? ==> r.value == s.selectedCity + ", " + s.selectedState + ", " + s.selectedCountry
  {
    if s.selectedCountry != "" && s.selectedState != "" && s.selectedCity != ""
    then Some(s.selectedCity + ", " + s.selectedState + ", " + s.selectedCountry)
    else None
  }

  // ---------------------------------------------------------------------------
  // Properties
  // ---------------------------------------------------------------------------

  /** A dropdown only ever reports its placeholder or one of its options. */
  predicate Offered(s: Section, choice: Choice) {
    match choice
    case ChooseCountry(c) => c == "" || c in s.countries
    case ChooseState(st) => st == "" || st in s.states
    case ChooseCity(c) => c == "" || c in s.cities
  }

  /** Every choice of a trace is offered in the state it is made in. */
  ghost predicate AllOffered(s: Section, choices: seq<Choice>, net: Network)
    decreases |choices|
  {
    |choices| == 0 || (Offered(s, choices[0]) && AllOffered(Step(s, choices[0], net), choices[1..], net))
  }

  /** Every selection is empty or one of the options currently listed, and
      the countries are unique up to case and padding. */
  ghost predicate Consistent(s: Section) {
    && (s.selectedCountry == "" || s.selectedCountry in s.countries)
    && (s.selectedState == "" || s.selectedState in s.states)
    && (s.selectedCity == "" || s.selectedCity in s.cities)
    && UniqueKeys(s.countries, Norm)
  }

  /** A settled load never starts another: it keeps the country and either
      keeps the state or clears it. */
  lemma CompletionStartsNothing(s: Section, load: Load, result: Result<seq<string>>)
    ensures Requests(s, Complete(s, load, result)) == []
  {
  }

  /** Settling loads keeps a consistent state consistent. */
  lemma {:induction false} SettleKeepsConsistent(s: Section, loads: seq<Load>, net: Network)
    requires Consistent(s)
    ensures Consistent(SettleAll(s, loads, net))
    decreases |loads|
  {
    if |loads| > 0 {
      SettleKeepsConsistent(Complete(s, loads[0], Answer(net, loads[0])), loads[1..], net);
    }
  }

  /** An offered choice keeps a consistent state consistent. */
  lemma StepKeepsConsistent(s: Section, choice: Choice, net: Network)
    requires Consistent(s) && Offered(s, choice)
    ensures Consistent(Step(s, choice, net))
  {
    var picked := Pick(s, choice);
    SettleKeepsConsistent(picked, Requests(s, picked), net);
  }

  /** From mount on, whatever the service answers and whatever offered
      choices the user makes, every selection is empty or listed and the
      countries stay unique. */
  lemma {:induction false} RunKeepsConsistent(s: Section, choices: seq<Choice>, net: Network)
    requires Consistent(s) && AllOffered(s, choices, net)
    ensures Consistent(Run(s, choices, net))
    decreases |choices|
  {
    if |choices| > 0 {
      StepKeepsConsistent(s, choices[0], net);
      RunKeepsConsistent(Step(s, choices[0], net), choices[1..], net);
    }
  }

  /** The mounted component is consistent. */
  lemma MountConsistent(net: Network)
    ensures Consistent(Mount(net))
  {
  }

  /** Settling a single load applies its answer. */
  lemma SettleAllOne(s: Section, a: Load, net: Network)
    ensures SettleAll(s, [a], net) == Complete(s, a, Answer(net, a))
  {
    var t := Complete(s, a, Answer(net, a));
    assert [a][1..] == [];
    assert SettleAll(t, [], net) == t;
  }

  /** Settling two loads applies their answers in start order. */
  lemma SettleAllTwo(s: Section, a: Load, b: Load, net: Network)
    ensures SettleAll(s, [a, b], net) == Complete(Complete(s, a, Answer(net, a)), b, Answer(net, b))
  {
    var t := Complete(s, a, Answer(net, a));
    assert [a, b][1..] == [b];
    SettleAllOne(t, b, net);
  }

  /** Choosing the placeholder state, or any city, loads nothing and resets
      nothing; choosing the current country or state again changes nothing. */
  lemma QuietChoices(s: Section, net: Network, city: string)
    ensures Step(s, ChooseState(""), net) == s.(selectedState := "")
    ensures Step(s, ChooseCity(city), net) == s.(selectedCity := city)
    ensures Step(s, ChooseCountry(s.selectedCountry), net) == s
    ensures Step(s, ChooseState(s.selectedState), net) == s
  {
  }

  /** Choosing a different country starts the states load only for a
      non-empty country, and, whenever a state is still selected, a cities
      load for the new country (even the empty one) and the old state,
      because the cities effect depends on the country but checks only the
      state. */
  lemma NewCountryRequests(s: Section, c: string)
    requires c != s.selectedCountry
    ensures Requests(s, Pick(s, ChooseCountry(c))) ==
      (if c != "" then [LoadStates(c)] else [])
      + (if s.selectedState != "" then [LoadCities(c, s.selectedState)] else [])
  {
  }

  /** Choosing the placeholder country with no state selected loads nothing
      and resets nothing. */
  lemma PlaceholderCountryIsQuiet(s: Section, net: Network)
    requires s.selectedState == ""
    ensures Step(s, ChooseCountry(""), net) == s.(selectedCountry := "")
  {
    if s.selectedCountry != "" {
      NewCountryRequests(s, "");
      assert Requests(s, Pick(s, ChooseCountry(""))) == [] + [];
    }
  }

  /** Choosing a different country whose states load succeeds shows its
      states, clears the state and city selections (so no location is
      shown), and leaves no cities listed unless a state was selected
      before. */
  lemma NewCountryResets(s: Section, c: string, net: Network)
    requires c != "" && c != s.selectedCountry
    requires Answer(net, LoadStates(c)).Success?
    ensures Step(s, ChooseCountry(c), net).selectedCountry == c
    ensures Step(s, ChooseCountry(c), net).states == Answer(net, LoadStates(c)).value
    ensures Step(s, ChooseCountry(c), net).selectedState == ""
    ensures Step(s, ChooseCountry(c), net).selectedCity == ""
    ensures s.selectedState == "" ==> Step(s, ChooseCountry(c), net).cities == []
    ensures Shown(Step(s, ChooseCountry(c), net)).None?
  {
    var picked := Pick(s, ChooseCountry(c));
    NewCountryRequests(s, c);
    if s.selectedState == "" {
      assert Requests(s, picked) == [LoadStates(c)] + [];
      SettleAllOne(picked, LoadStates(c), net);
    } else {
      assert Requests(s, picked) == [LoadStates(c), LoadCities(c, s.selectedState)];
      SettleAllTwo(picked, LoadStates(c), LoadCities(c, s.selectedState), net);
    }
  }

  /** Choosing a different country with no state selected, when its states
      load fails, records the error and changes nothing else. */
  lemma NewCountryFailure(s: Section, c: string, net: Network)
    requires c != "" && c != s.selectedCountry && s.selectedState == ""
    requires Answer(net, LoadStates(c)).Failure?
    ensures Step(s, ChooseCountry(c), net) ==
      s.(selectedCountry := c, error := Answer(net, LoadStates(c)).message)
  {
    var picked := Pick(s, ChooseCountry(c));
    NewCountryRequests(s, c);
    assert Requests(s, picked) == [LoadStates(c)] + [];
    SettleAllOne(picked, LoadStates(c), net);
  }

  /** Choosing a different, non-empty state loads the cities of the current
      country and that state: on success they replace the list and the city
      selection is cleared; on failure only the error changes. The country,
      the countries and the states are untouched either way. */
  lemma NewStateLoadsCities(s: Section, st: string, net: Network)
    requires st != "" && st != s.selectedState
    ensures Requests(s, Pick(s, ChooseState(st))) == [LoadCities(s.selectedCountry, st)]
    ensures var r := Answer(net, LoadCities(s.selectedCountry, st));
      Step(s, ChooseState(st), net) ==
        if r.Success? then s.(selectedState := st, cities := r.value, selectedCity := "")
        else s.(selectedState := st, error := r.message)
  {
    SettleAllOne(Pick(s, ChooseState(st)), LoadCities(s.selectedCountry, st), net);
  }

  /** Clearing the state keeps the old city selected and listed, so the
      location line hides only because the state is empty. */
  lemma ClearingStateKeepsCity(s: Section, net: Network)
    requires s.selectedCountry != "" && s.selectedState != "" && s.selectedCity != ""
    ensures Step(s, ChooseState(""), net).selectedCity == s.selectedCity
    ensures Step(s, ChooseState(""), net).cities == s.cities
    ensures Shown(Step(s, ChooseState(""), net)).None?
  {
    QuietChoices(s, net, s.selectedCity);
  }
}
