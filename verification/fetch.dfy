/** The data-fetch layer of the component (`fetchCountries`, `fetchStates`,
    `fetchCities`) and the second deduplication pass of `loadCountries`, with
    every HTTP exchange replaced by a `Response` supplied by the caller. */
module Fetch {
  import opened Wrappers
  import opened Http
  import opened Seqs
  import opened Normalize
  import opened Dedup

  /** Message of the error thrown on a non-ok countries response; `fetchStates`
      throws the same message for its own countries request. */
  const CountriesFailed := "Failed to fetch countries"

  /** Message of the error thrown on a non-ok cities response. */
  const CitiesFailed := "Failed to fetch cities"

  /** The key a JavaScript `Set` of strings compares by: the string itself. */
  function Exact(s: string): string {
    s
  }

  // ---------------------------------------------------------------------------
  // Countries
  // ---------------------------------------------------------------------------

  /** The loop of `fetchCountries`: walk the raw list once, remember every
      normalised name in `seen`, and keep a name only when its normalised
      form is new. */
  method UniqueCountries(raw: seq<string>) returns (unique: seq<string>)
    ensures unique == DedupBy(raw, Norm)
  {
    var seen: set<string> := {};
    unique := [];
    for i := 0 to |raw|
      invariant seen == KeySet(raw[..i], Norm)
      invariant unique == DedupBy(raw[..i], Norm)
    {
      var normalized := Norm(raw[i]);
      assert raw[..i + 1] == raw[..i] + [raw[i]];
      DedupBySnoc(raw[..i], raw[i], Norm);
      if normalized !in seen {
        seen := seen + {normalized};
        unique := unique + [raw[i]];
      }
    }
    assert raw[..|raw|] == raw;
  }

  /** `fetchCountries`: a non-ok response rejects with `CountriesFailed`, a
      rejected request keeps its message, and an ok body resolves to the
      case- and padding-insensitive deduplication of the raw list: a
      subsequence of it, with unique keys, covering every key. */
  function FetchCountries(response: Response<seq<string>>): (r: Result<seq<string>>)
    ensures r.Success? <==> response.Ok?
    ensures r.Success? ==> r.value == DedupBy(response.body, Norm)
    ensures r.Success? ==> IsSubsequence(r.value, response.body)
    ensures r.Success? ==> UniqueKeys(r.value, Norm)
    ensures r.Success? ==> KeySet(r.value, Norm) == KeySet(response.body, Norm)
    ensures response.NotOk? ==> r == Failure(CountriesFailed)
    ensures response.Thrown? ==> r == Failure(response.message)
  {
    var raw := Settle(response, CountriesFailed);
    if raw.Failure? then Failure(raw.message)
    else
      DedupIsSubsequence(raw.value, Norm);
      Success(DedupBy(raw.value, Norm))
  }

  /** `loadCountries`: `fetchCountries` followed by a second, `filter`-based
      deduplication pass. The second pass never changes anything. */
  function LoadCountries(response: Response<seq<string>>): (r: Result<seq<string>>)
    ensures r == FetchCountries(response)
  {
    var data := FetchCountries(response);
    if data.Failure? then data
    else
      DedupOfUniqueIsIdentity(data.value, Norm);
      Success(DedupBy(data.value, Norm))
  }

  // ---------------------------------------------------------------------------
  // States
  // ---------------------------------------------------------------------------

  /** The predicate of the `filter` in `fetchStates`: an entry matches when
      its normalised form equals the normalised selected country. */
  function Matches(country: string): string -> bool {
    e => Norm(e) == Norm(country)
  }

  /** The `filter` of `fetchStates`: the raw entries equal to the selected
      country up to case and surrounding whitespace, and only those. */
  function MatchingEntries(all: seq<string>, country: string): (r: seq<string>)
    ensures forall e :: e in r <==> e in all && Norm(e) == Norm(country)
  {
    forall e
      ensures e in Filter(all, Matches(country)) <==> e in all && Norm(e) == Norm(country)
    {
      FilterMembership(all, Matches(country), e);
    }
    Filter(all, Matches(country))
  }

  /** The matching entries keep input order and multiplicity: they are
      spelled out by exactly the positions of `all` whose entry matches. */
  lemma MatchingEntriesInOrder(all: seq<string>, country: string)
    ensures Embeds(MatchingEntries(all, country), all, KeptPositions(all, Matches(country)))
    ensures forall i :: 0 <= i < |all| ==>
      (i in KeptPositions(all, Matches(country)) <==> Norm(all[i]) == Norm(country))
  {
    FilterExact(all, Matches(country));
    forall i | 0 <= i < |all|
      ensures KeepsAt(all, Matches(country), i) <==> Norm(all[i]) == Norm(country)
    {
    }
  }

  /** `stateSet.add(s)` on an insertion-ordered set held as a sequence. */
  function Add(stateSet: seq<string>, s: string): seq<string> {
    if s in stateSet then stateSet else stateSet + [s]
  }

  /** `states.forEach((s) => stateSet.add(s))`. */
  function AddAll(stateSet: seq<string>, states: seq<string>): seq<string>
    decreases |states|
  {
    if |states| == 0 then stateSet
    else Add(AddAll(stateSet, states[..|states| - 1]), states[|states| - 1])
  }

  /** Some entry answered ok with a list that holds `s`. */
  ghost predicate ReturnedBySome(entries: seq<string>, states: string -> Response<seq<string>>, s: string) {
    exists e :: e in entries && states(e).Ok? && s in states(e).body
  }

  /** The state lists of the entries that answered ok, concatenated in entry
      order; non-ok entries contribute nothing. */
  function Successful(entries: seq<string>, states: string -> Response<seq<string>>): (r: seq<string>)
    ensures forall s :: s in r <==> ReturnedBySome(entries, states, s)
    decreases |entries|
  {
    if |entries| == 0 then []
    else
      var init := entries[..|entries| - 1];
      var e := entries[|entries| - 1];
      var response := states(e);
      assert forall x :: x in entries <==> x in init || x == e;
      Successful(init, states) + (if response.Ok? then response.body else [])
  }

  /** The loop of `fetchStates` over the matching entries: each entry's
      states request is awaited in turn; an ok list is added to the set, a
      non-ok status is skipped, and the first rejection aborts the whole
      loop with its message. */
  function MergeStates(entries: seq<string>, states: string -> Response<seq<string>>): (r: Result<seq<string>>)
    ensures r.Failure? <==> exists k :: 0 <= k < |entries| && states(entries[k]).Thrown?
    ensures r.Failure? ==> exists k :: (0 <= k < |entries| && states(entries[k]) == Thrown(r.message)
      && forall j :: 0 <= j < k ==> !states(entries[j]).Thrown?)
    decreases |entries|
  {
    if |entries| == 0 then Success([])
    else
      var n := |entries| - 1;
      var init := entries[..n];
      assert forall k :: 0 <= k < n ==> init[k] == entries[k];
      var before := MergeStates(init, states);
      if before.Failure? then before
      else
        match states(entries[n])
        case Ok(body) => Success(AddAll(before.value, body))
        case NotOk => before
        case Thrown(m) => Failure(m)
  }

  /** Adding a list to an already deduplicated prefix is deduplicating the
      whole concatenation. */
  lemma {:induction false} AddAllIsDedup(prefix: seq<string>, more: seq<string>)
    ensures AddAll(DedupBy(prefix, Exact), more) == DedupBy(prefix + more, Exact)
    decreases |more|
  {
    if |more| > 0 {
      var n := |more| - 1;
      var d := DedupBy(prefix + more[..n], Exact);
      var s := more[n];
      AddAllIsDedup(prefix, more[..n]);
      assert prefix + more == (prefix + more[..n]) + [s];
      DedupBySnoc(prefix + more[..n], s, Exact);
      assert s in d <==> Exact(s) in KeySet(d, Exact) by {
        if s in d {
          var i :| 0 <= i < |d| && d[i] == s;
          assert Exact(d[i]) in KeySet(d, Exact);
        }
      }
    } else {
      assert prefix + more == prefix;
    }
  }

  /** With no rejected request, the merged list is the exact-string
      deduplication of all ok lists in entry order: every state keeps the
      position of its first appearance. */
  lemma {:induction false} MergeStatesIsDedup(entries: seq<string>, states: string -> Response<seq<string>>)
    requires forall k :: 0 <= k < |entries| ==> !states(entries[k]).Thrown?
    ensures MergeStates(entries, states) == Success(DedupBy(Successful(entries, states), Exact))
    decreases |entries|
  {
    if |entries| > 0 {
      var n := |entries| - 1;
      var init := entries[..n];
      assert forall k :: 0 <= k < n ==> init[k] == entries[k];
      MergeStatesIsDedup(init, states);
      var q := Successful(init, states);
      if states(entries[n]).Ok? {
        AddAllIsDedup(q, states(entries[n]).body);
      } else {
        assert states(entries[n]).NotOk?;
        assert Successful(entries, states) == q + [];
        assert q + [] == q;
      }
    }
  }

  /** A merged state list has no duplicate and holds exactly the states some
      ok response returned. */
  lemma MergedStatesContents(entries: seq<string>, states: string -> Response<seq<string>>)
    requires MergeStates(entries, states).Success?
    ensures UniqueKeys(MergeStates(entries, states).value, Exact)
    ensures forall s :: s in MergeStates(entries, states).value <==> ReturnedBySome(entries, states, s)
  {
    MergeStatesIsDedup(entries, states);
    var q := Successful(entries, states);
    var d := DedupBy(q, Exact);
    forall s
      ensures s in d <==> s in q
    {
      if s in d {
        var i :| 0 <= i < |d| && d[i] == s;
        assert Exact(d[i]) in KeySet(d, Exact);
      }
      if s in q {
        var i :| 0 <= i < |q| && q[i] == s;
        assert Exact(q[i]) in KeySet(q, Exact);
      }
    }
  }

  /** `fetchStates`: a non-ok countries response rejects with
      `CountriesFailed`, a rejected countries request keeps its message, and
      otherwise the states of the entries matching the country are merged. */
  function FetchStates(countries: Response<seq<string>>, country: string,
                       states: string -> Response<seq<string>>): (r: Result<seq<string>>)
    ensures countries.NotOk? ==> r == Failure(CountriesFailed)
    ensures countries.Thrown? ==> r == Failure(countries.message)
    ensures countries.Ok? ==> r == MergeStates(MatchingEntries(countries.body, country), states)
  {
    var all := Settle(countries, CountriesFailed);
    if all.Failure? then Failure(all.message)
    else MergeStates(MatchingEntries(all.value, country), states)
  }

  /** What `fetchStates` resolves to: no duplicate, and exactly the states
      that an ok response returned for some raw entry equal to the country up
      to case and padding. */
  lemma FetchedStatesContents(all: seq<string>, country: string,
                              states: string -> Response<seq<string>>)
    requires FetchStates(Ok(all), country, states).Success?
    ensures UniqueKeys(FetchStates(Ok(all), country, states).value, Exact)
    ensures forall s :: s in FetchStates(Ok(all), country, states).value <==>
      exists e :: e in all && Norm(e) == Norm(country) && states(e).Ok? && s in states(e).body
  {
    MergedStatesContents(MatchingEntries(all, country), states);
  }

  // ---------------------------------------------------------------------------
  // Cities
  // ---------------------------------------------------------------------------

  /** `fetchCities`: the body of an ok response is returned as it is, with no
      deduplication; a non-ok response rejects with `CitiesFailed`, and a
      rejected request keeps its message. */
  function FetchCities(response: Response<seq<string>>): (r: Result<seq<string>>)
    ensures r.Success? <==> response.Ok?
    ensures r.Success? ==> r.value == response.body
    ensures response.NotOk? ==> r == Failure(CitiesFailed)
    ensures response.Thrown? ==> r == Failure(response.message)
  {
    Settle(response, CitiesFailed)
  }
}
