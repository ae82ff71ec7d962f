# Cascading location selector: a Dafny model

This project models `CountrySection`, a React component that offers three dependent
dropdowns (country, then state, then city) filled from a remote location service. The
model covers the component's logic, with the network replaced by inputs:

- **Normalisation** (`Normalize`). Country names are compared under `s.trim().toLowerCase()`.
  `Trim` strips exactly the ECMAScript WhiteSpace and LineTerminator code points.
  `ToLower` lowers ASCII letters.
- **Deduplication** (`Dedup`, `Fetch.UniqueCountries`, `Fetch.LoadCountries`). Case- and
  padding-insensitive deduplication keeps the first spelling of every country, in input
  order. `fetchCountries` deduplicates once with a loop. `loadCountries` deduplicates that
  result again with a `filter`, and the model proves the second pass changes nothing.
- **State merging** (`Fetch.MatchingEntries`, `Fetch.MergeStates`, `Fetch.FetchStates`).
  `fetchStates` filters the raw country list down to the entries matching the selected
  country. It requests each entry's states in turn and unions the answers into an
  insertion-ordered set.
- **The selection state machine** (`CountrySection`). The state is seven fields: the three
  lists, the three selections and an error message. A user choice changes one selection.
  The commit then starts the loads that the component's effects start. Each load settles
  and updates the state as the effect bodies do.

A `Response` stands for one `fetch` plus `response.json()`. It is `Ok(body)`, `NotOk` (the
`!response.ok` branch) or `Thrown(message)` (a rejected promise whose message reaches
`catch`). A `Network` record fixes what the service answers for the countries list, for
each raw country entry's states, and for each (country, state) pair's cities.

## Model

| member | source | states |
|---|---|---|
| `Http.Settle` | src/Countries/CountrySection.js:5-6 | An ok response resolves with its body. A non-ok status rejects with the fixed message. A rejected request keeps its own message. |
| `Normalize.TrimSpec` | src/Countries/CountrySection.js:14 | `trim` returns a slice of the input with only whitespace outside it, and the slice neither starts nor ends with whitespace. |
| `Normalize.TrimStartSpec` | src/Countries/CountrySection.js:14 | Trimming the start removes exactly the leading whitespace and leaves the longest suffix that does not start with whitespace. |
| `Normalize.TrimEndSpec` | src/Countries/CountrySection.js:14 | Trimming the end removes exactly the trailing whitespace and leaves the longest prefix that does not end with whitespace. |
| `Normalize.ToLowerSpec` | src/Countries/CountrySection.js:14 | `toLowerCase` keeps the length, lowers each character in place, and leaves no ASCII upper-case letter. |
| `Normalize.NormIdempotent` | src/Countries/CountrySection.js:30-32 | A normalised name is its own normal form, so comparing normalised names is stable under re-normalising either side. |
| `Dedup.DedupBy` | src/Countries/CountrySection.js:13-18 | The deduplicated list is no longer than the input. No two of its entries share a normalised key. Every key of the input appears among its keys, so no country is lost. |
| `Dedup.DedupKeepsFirstOccurrences` | src/Countries/CountrySection.js:15-17 | The output is spelled out, in order, by exactly those input positions whose key no earlier entry shares. Each key therefore keeps its first spelling and never a later variant. |
| `Dedup.DedupIsSubsequence` | src/Countries/CountrySection.js:13-18 | The output is a subsequence of the input: relative order is preserved and nothing is invented. |
| `Dedup.DedupOfUniqueIsIdentity` | src/Countries/CountrySection.js:71-77 | A list whose keys are already unique passes through deduplication unchanged. |
| `Dedup.DedupIdempotent` | src/Countries/CountrySection.js:71-77 | Deduplicating twice gives the same list as deduplicating once. |
| `Dedup.DedupLengthIsKeyCount` | src/Countries/CountrySection.js:10-19 | The output holds exactly one entry per distinct normalised key of the input. |
| `Fetch.UniqueCountries` | src/Countries/CountrySection.js:10-19 | The `seen`-set loop computes exactly the first-occurrence deduplication under `trim().toLowerCase()`. |
| `Fetch.FetchCountries` | src/Countries/CountrySection.js:4-22 | A non-ok response rejects with "Failed to fetch countries". A rejection keeps its message. An ok body resolves to a subsequence of the raw list with unique keys that covers every key. |
| `Fetch.LoadCountries` | src/Countries/CountrySection.js:69-79 | The second, `filter`-based pass over `fetchCountries`' result returns it unchanged. |
| `Seqs.FilterExact` | src/Countries/CountrySection.js:30-32 | `filter` keeps exactly the elements satisfying its predicate, in input order and multiplicity. |
| `Fetch.MatchingEntries` | src/Countries/CountrySection.js:30-32 | An entry is among the matching entries if and only if it is in the raw list and its normalised form equals the selected country's. |
| `Fetch.MatchingEntriesInOrder` | src/Countries/CountrySection.js:30-32 | The matching entries are exactly the raw entries at the matching positions, in input order. |
| `Fetch.Successful` | src/Countries/CountrySection.js:35-40 | A state occurs in the concatenated ok lists if and only if some entry's ok response returned it. Non-ok responses contribute nothing. |
| `Fetch.MergeStates` | src/Countries/CountrySection.js:34-43 | The merge rejects if and only if some entry's request rejected. It then carries the message of the first such entry in loop order. |
| `Fetch.AddAllIsDedup` | src/Countries/CountrySection.js:39 | Adding a list to an insertion-ordered set gives the exact-string deduplication of the concatenation. |
| `Fetch.MergeStatesIsDedup` | src/Countries/CountrySection.js:34-43 | With no rejection, the merged list is the exact-string deduplication of all ok lists in entry order, so each state sits where it was first seen. |
| `Fetch.MergedStatesContents` | src/Countries/CountrySection.js:34-43 | A merged list has no duplicates and holds exactly the states that some ok response returned. |
| `Fetch.FetchStates` | src/Countries/CountrySection.js:24-44 | A non-ok countries response rejects with "Failed to fetch countries", and a rejected one keeps its message. Otherwise the result is the merge over the matching entries. |
| `Fetch.FetchedStatesContents` | src/Countries/CountrySection.js:24-44 | A resolved `fetchStates` has no duplicates. A state is in it if and only if an ok response returned it for a raw entry equal to the country up to case and padding. |
| `Fetch.FetchCities` | src/Countries/CountrySection.js:46-52 | An ok body is returned as is, without deduplication. A non-ok status rejects with "Failed to fetch cities". A rejection keeps its message. |
| `CountrySection.Mount` | src/Countries/CountrySection.js:66-85 | After an ok answer the countries list is the first-spelling deduplication of the service's list: unique by key, covering every key, with no error. A non-ok answer sets only the error "Failed to fetch countries". A rejected request sets only the error, to the rejection's message. Nothing is selected after mount. |
| `CountrySection.Requests` | src/Countries/CountrySection.js:87-121 | A commit starts a states load if and only if the country changed to a non-empty value. It starts a cities load if and only if the country or the state changed and the state is non-empty. No states load has an empty country and no cities load has an empty state. When both start, the states load comes first. |
| `CountrySection.Complete` | src/Countries/CountrySection.js:92-115 | A successful states load sets `states` and clears the state, the cities and the city. A successful cities load sets `cities` and clears the city. A failed load changes only `error`. None of them touches the countries or the country. |
| `CountrySection.Shown` | src/Countries/CountrySection.js:168-172 | The location line appears if and only if country, state and city are all selected. It reads "city, state, country". |
| `CountrySection.CompletionStartsNothing` | src/Countries/CountrySection.js:93-96 | Settling a load never makes an effect start another load. |
| `CountrySection.SettleKeepsConsistent` | src/Countries/CountrySection.js:92-115 | Settled loads keep every selection empty or listed. |
| `CountrySection.StepKeepsConsistent` | src/Countries/CountrySection.js:127-166 | A choice that a dropdown offers, plus the loads it starts, keeps every selection empty or listed and the countries unique. |
| `CountrySection.RunKeepsConsistent` | src/Countries/CountrySection.js:127-166 | Along any trace of offered choices, whatever the service answers, every selection stays empty or listed and the countries stay unique. |
| `CountrySection.MountConsistent` | src/Countries/CountrySection.js:79 | The mounted component is consistent. |
| `CountrySection.QuietChoices` | src/Countries/CountrySection.js:106-107 | Choosing the placeholder state or any city loads and resets nothing. Re-choosing the current country or state changes nothing. |
| `CountrySection.NewCountryRequests` | src/Countries/CountrySection.js:87-121 | A new country starts a states load only if it is non-empty. If a state is still selected, it also starts a cities load for the new country and the old state. |
| `CountrySection.PlaceholderCountryIsQuiet` | src/Countries/CountrySection.js:88 | Choosing the placeholder country with no state selected loads nothing and resets nothing. |
| `CountrySection.NewCountryResets` | src/Countries/CountrySection.js:88-98 | A new country whose states load succeeds shows those states and clears the state and city. No location is shown, and the cities list is empty unless a state was selected before. |
| `CountrySection.NewCountryFailure` | src/Countries/CountrySection.js:97-98 | A new country whose states load fails, with no state selected, records the error and changes nothing else. |
| `CountrySection.NewStateLoadsCities` | src/Countries/CountrySection.js:107-115 | A new, non-empty state starts exactly one cities load, for the current country. Success sets the cities and clears the city. Failure changes only the error. |
| `CountrySection.ClearingStateKeepsCity` | src/Countries/CountrySection.js:107 | Clearing the state keeps the old city selected and listed. Only the display condition hides the location. |

## Behaviour notes

These follow from the code as written and are modelled as such:

- The cities effect depends on the country as well as the state, but it checks only the
  state. Choosing a new country while a state is selected therefore also requests the
  cities of the new country with the old state (`NewCountryRequests`). Choosing the
  placeholder country in that situation requests the cities of the empty country.
- One might expect a new country to clear the state and city at once. The code clears
  them only when the new country's states load succeeds. If the load fails, the old state
  and city stay selected (`Complete`).
- Choosing the placeholder state clears nothing downstream (`ClearingStateKeepsCity`).
- `fetchStates` reports a non-ok countries response with the message "Failed to fetch
  countries", the same message `fetchCountries` uses.
- `error` is never cleared, and nothing renders it.

## Left out

- URL construction, query interpolation and JSON decoding: they are network I/O against a
  service the model cannot see. Each request is keyed by the raw strings it would embed.
  A body that fails to parse counts as `Thrown`.
- Rendering, CSS modules, `<option>` keys and the `disabled` attributes: UI layer. That a
  dropdown reports only its placeholder or one of its options is kept as the `Offered`
  precondition of the trace lemmas.
- The `loading` flag and any interleaving of overlapping loads: the model settles the loads
  of one commit atomically, in the order their effects started them.
- The service is a fixed function of the request. A service whose answers change between
  requests is not modelled.
- `Normalize.ToLowerSpec`: lowers only ASCII `A`-`Z`. Other characters are left unchanged,
  because Unicode case mapping tables are not modelled.
