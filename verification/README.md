# Service List Entry Point Registry: query validation and filtering

A Dafny model of the `GET /query` handler of the DVB service list registry
server (`app.js`). The handler takes a parsed query string whose keys map to
one string or a list of strings. It does two things:

- **Query validator** (`checkQuery` with `isIn`, `isISO3166code` and
  `isTVAAudioLanguageType`). It rejects unknown keys. It rejects a
  `regulatorListFlag` that is not exactly `"true"` or `"false"`, a
  `TargetCountry` that is not a loaded ISO 3166-1 alpha-3 code, and a
  `Language` outside the xs:language grammar. The first failing check
  decides the reason.
- **Filter engine**. It prunes the registry (ProviderOffering →
  Provider/Name*, ServiceListOffering → `@regulatorListFlag`, Language*,
  TargetCountry*, Genre*) in three ordered passes:
  1. Provider-name selection.
  2. Per-service selection. Dimensions combine with AND. Requested values
     combine with OR. A dimension the service does not declare never
     excludes it.
  3. Removal of the providers left with no services. This pass always runs.

Modules, one file each:

| file | module | models |
|---|---|---|
| `optional.dfy` | `Optional` | missing parameters and attributes |
| `seqs.dfy` | `Seqs` | order-preserving selection (`Filter`) and first-failure search |
| `strings.dfy` | `Strings` | JavaScript `split`/`join` on one character, with round-trip lemmas |
| `query_string.dfy` | `QueryString` | query values, `isIn`, JavaScript truthiness and loose `==` |
| `language_tag.dfy` | `LanguageTag` | the regex engine's first match for the language pattern, and the xs:language grammar |
| `validator.dfy` | `Validator` | `checkQuery`, `isISO3166code` |
| `registry.dfy` | `Registry` | the parsed registry document |
| `filter_engine.dfy` | `FilterEngine` | the three passes, a one-pass reference, and their properties |
| `query_handler.dfy` | `QueryHandler` | validate-then-filter, plus the worked scenarios |

Modelling choices:

- A query is a sequence of `Param(key, value)` in the order the object's
  keys are enumerated. `value` is `Single(text)` or `Multi(items)`.
  `Get` returns the first parameter with a key. A JavaScript object has one
  value per key, so "first" only matters for inputs the source cannot
  produce.
- JavaScript truthiness is `Supplied`. A missing parameter and the empty
  string are falsy. Any list is truthy, even an empty one. The validator
  and the filter both use it, as the source does at every `if (req.query.X)`.
- The registry document arrives already parsed: `Catalogue = seq<Provider>`.
  The source collects the nodes of each pass and deletes them afterwards,
  so each pass is an order-preserving `Filter` over immutable values.
- The loaded country list is a parameter (`alpha3: seq<string>`), not a
  global.
- In the filter, the flag comparison is JavaScript's loose `!=`. A list
  value compares as its comma-joined text (`LooseEquals`). A validated
  query never reaches the filter with a list flag.
- `isTVAAudioLanguageType` is modelled as the regex engine computes it.
  The first match starts at the first letter. The `{1,8}` quantifiers and
  the `(...)*` group are greedy. Nothing follows the group in the pattern,
  so the engine never backtracks into a completed quantifier. The match is accepted when it is the
  whole value. `TVAAudioLanguageTypeIsXsLanguage` proves that this accepts
  exactly the xs:language grammar `[a-zA-Z]{1,8}(-[a-zA-Z0-9]{1,8})*`
  (section 3.3.3 of XML Schema Part 2), applied to the whole string. So a
  partial match is never accepted. When there is no match at all, the
  source throws (see Findings). The model rejects instead.

Two details of the code that a reader might expect otherwise:

- `regulatorListFlag` is compared case-sensitively, in the validator
  (app.js:206) and in the filter (app.js:96).
- A Language rejection records no `parseErr` (app.js:233-241).
  `Validator.ParseErr` returns `None` for it.

## Model

| member | source | states |
|---|---|---|
| `QueryString.IsIn` | app.js:42-52 | a single string matches only itself; a list matches iff some element equals the value |
| `QueryString.AnyEqual` | app.js:46-50 | the list loop of `isIn` finds the value iff some index holds it |
| `QueryString.Get` | app.js:65 | `req.query[key]`: absent iff no parameter has the key, otherwise the value of the first parameter with that key |
| `QueryString.LooseEquals` | app.js:96 | loose `==` against a string: a single value compares as its text; a one-element list compares as its element |
| `Seqs.Filter` | app.js:76-81 | collect-then-remove keeps exactly the elements that pass, each as often as it occurs in the input, as a subsequence of the input in input order |
| `LanguageTag.IsTVAAudioLanguageType` | app.js:158-163 | accepts exactly the values on which the source returns true, so it rejects where the source throws; an accepted value starts with a letter and is one whole first match |
| `Seqs.FilterIdempotent` | app.js:137 | removing the failing elements a second time removes nothing more |
| `Seqs.FirstFailure` | app.js:221-226 | an early-returning validation loop reports the first failing element, and none iff all pass |
| `Strings.Split` | app.js:114 | `split(",")`: at least one piece; no piece contains the separator; the first piece is empty exactly when the text is empty or starts with the separator |
| `Strings.JoinSplit` | app.js:114 | joining the pieces of a split restores the text |
| `Strings.SplitJoin` | app.js:113-115 | splitting a comma-joined list of comma-free codes yields exactly those codes |
| `LanguageTag.Run` | app.js:160 | a greedy `{1,max}` quantifier consumes the longest prefix of class characters, up to `max` |
| `LanguageTag.SubtagsRun` | app.js:160 | the greedy `(-[a-zA-Z0-9]{1,8})*` group consumes nothing unless the text starts with a hyphen |
| `LanguageTag.FirstLetter` | app.js:161 | the regex scan starts its first match at the first letter; none iff the value has no letter |
| `LanguageTag.FirstMatch` | app.js:161 | `match` yields null iff the value has no letter; otherwise a non-empty match starting at a letter |
| `LanguageTag.SubtagsRunExact` | app.js:160-162 | the greedy group consumes the whole remainder iff the remainder is a list of `-subtag` groups |
| `LanguageTag.TVAAudioLanguageTypeIsXsLanguage` | app.js:158-163 | "first match equals the value" accepts exactly the whole-string xs:language grammar |
| `LanguageTag.IsTVAAudioLanguageTypeAsWritten` | app.js:158-163 | the source throws exactly on values without a letter |
| `LanguageTag.DigitsOnlyLanguageThrows` | app.js:161-162 | for `"123"` the source throws, where the corrected check rejects |
| `LanguageTag.AsWrittenAgreesWhenItReturns` | app.js:158-163 | wherever the source returns, the corrected check gives the same answer |
| `Validator.ParseErr` | app.js:195-223 | every rejection records a `parseErr` text except a language rejection |
| `Validator.ScanAlpha3` | app.js:169-174 | the `forEach` over loaded countries ends with `found` iff it started set or the code is among them |
| `Validator.IsISO3166Code` | app.js:165-175 | a country code is valid iff it has three characters and equals a loaded alpha-3 code |
| `Validator.LengthTestRedundantOnLoadedCodes` | app.js:297-298 | when every loaded alpha-3 has three characters, validity is plain membership |
| `Validator.CheckKeys` | app.js:193-198 | rejects iff some key is outside `allowed_arguments`, naming the first such key |
| `Validator.CheckFlag` | app.js:201-210 | a truthy flag passes iff it is the string "true" or "false"; a list is a type error recording the type "object"; any other string is a value error naming it |
| `Validator.CheckCountries` | app.js:213-228 | a truthy TargetCountry passes iff every value is a 3-character loaded code; otherwise it names the first value that is not |
| `Validator.CheckLanguages` | app.js:231-244 | a truthy Language passes iff every value passes the language check; otherwise it names the first value that does not |
| `Validator.CheckQuery` | app.js:189-279 | an unknown key always rejects, naming the first one, whatever else the query holds; with recognised keys a bad flag decides the reason, then a bad country, then a bad language; each rejection names what failed |
| `Validator.CheckQueryAcceptsWellFormed` | app.js:189-279 | accepts iff the keys are recognised, the flag is exactly "true"/"false", the countries are loaded codes and the languages are in the xs:language grammar |
| `Validator.ProviderNameAndGenreUnchecked` | app.js:245-276 | changing only ProviderName and Genre values never changes the verdict |
| `Validator.GetIgnoresOtherValues` | app.js:190-244 | a lookup depends only on the parameters with that key |
| `FilterEngine.AnyIn` | app.js:101-105 | the probing loop finds a match iff some declared value is among the requested ones |
| `FilterEngine.CountryCodes` | app.js:112-115 | the codes of a service are the comma-split pieces of each TargetCountry text; at least one per element |
| `FilterEngine.AnyCountryIn` | app.js:110-118 | the TargetCountry loop finds a match iff some comma-split piece is requested |
| `FilterEngine.RemovesService` | app.js:89-132 | a service is removed iff a supplied flag differs from its flag (missing reads "false"), or a supplied Language, TargetCountry or Genre dimension is declared by the service and shares no value with the request |
| `FilterEngine.RegulatorListFlagDecides` | app.js:92-97 | with a requested flag, a kept service has exactly that attribute value, or none when "false" is requested |
| `FilterEngine.UndeclaredDimensionNeverExcludes` | app.js:100-130 | a service declaring no Language, TargetCountry or Genre is never removed on account of that dimension |
| `FilterEngine.CommaSeparatedTargetCountry` | app.js:110-120 | a stored comma-separated list of codes satisfies a request for any one of them |
| `FilterEngine.NameMatches` | app.js:69-75 | a provider matches iff one of its Names is among the requested names |
| `FilterEngine.Restrict` | app.js:132-137 | a provider keeps its names and, in order, exactly its services that are not removed, each as often as it occurs |
| `FilterEngine.RestrictAll` | app.js:85-136 | every provider is restricted, none is added or dropped |
| `FilterEngine.ProviderNamePass` | app.js:65-82 | with a truthy ProviderName, exactly the providers with a requested Name stay, in order and with repeats kept; a provider without Names goes; otherwise nothing changes |
| `FilterEngine.RestrictAllWithoutCriteria` | app.js:84 | without any service criterion no service is removed |
| `FilterEngine.ServicePass` | app.js:84-138 | every provider stays, with exactly its services that are not removed |
| `FilterEngine.PruneEmptyProviders` | app.js:140-147 | exactly the providers with a service stay, in order and with repeats kept |
| `FilterEngine.FilterCatalogue` | app.js:65-147 | no provider in the result is left without services, even when no criterion is supplied |
| `FilterEngine.FilterCatalogueIsReference` | app.js:65-147 | the three passes equal a one-pass definition: each provider that passes the name test and keeps a service, in order, with only its kept services |
| `FilterEngine.FilterCatalogueIdempotent` | app.js:65-147 | filtering a result again with the same criteria returns it unchanged |
| `FilterEngine.FilterCataloguePreservesOrder` | app.js:65-147 | each surviving provider is an input provider with the same names and a subsequence of its services, in input order |
| `FilterEngine.FilterCatalogueMembers` | app.js:65-147 | a provider is in the result iff it is an input provider that passes the name test and keeps a service, restricted to its kept services |
| `QueryHandler.HandleQuery` | app.js:55-153 | a request is refused iff its query is not well formed; an answer has no empty provider, embeds in the registry in order, and is exactly the one-pass reference result for the query's criteria: each provider that passes the name test and keeps a service, in order, with only its kept services |
| `QueryHandler.EmptyStringActsAsMissing` | app.js:65-147 | a parameter given as the empty string is treated exactly like a missing one: by the provider-name pass and for each of the four service dimensions, and also by the flag, country and language checks (the `if (req.query.X)` tests at app.js:201, 213, 231) |
| `QueryHandler.HandleQueryIdempotent` | app.js:55-153 | asking the same query of an answer returns that answer |
| `QueryHandler.LanguageQueryKeepsOnlyMatchingProvider` | app.js:100-147 | ACME (en, FRA) and Beta (fr, DEU) under `Language=en` leave only ACME, unchanged |
| `QueryHandler.UnknownCountryRejected` | app.js:213-218 | `TargetCountry=XYZ` is refused, naming XYZ |
| `QueryHandler.CommaListMatchesOneCode` | app.js:110-120 | a stored "FRA,DEU" satisfies a request for "DEU" |

## Left out

- HTTP routing, status codes, `res.*` calls and the morgan log tokens (app.js:28-39, 310-317). A response is either the rejection or the pruned registry.
- `loadServiceListRegistry` (app.js:281-308). It does asynchronous file I/O, strips newlines and revives the country JSON. The registry and the alpha-3 list are parameters instead.
- XML parsing, namespace-prefix handling, XPath evaluation and serialisation by libxmljs (app.js:60-63, 150). The document is modelled already parsed. The model assumes that every Name, Language, TargetCountry and Genre child the XPath probes would find is present in the datatype.
- The HTTPS server bootstrap and certificate reading (app.js:322-351).
- The `console.dir` inside `isISO3166code` (app.js:171). It is only a side effect.
- The stubs `isGenre` and `isProvider` (app.js:179-187). They always return true and their only callers are commented out.
- Query values that are nested objects (`a[b]=c`). `isIn` returns false for them. `QueryValue` has only strings and lists.
- String lengths. JavaScript counts UTF-16 code units; the model counts characters. The two agree outside the astral planes.
- Key enumeration order. JavaScript lists integer-like keys first. The model takes the order as given, which only affects which unknown key an error names.
- The server's reaction to the exception thrown by `isTVAAudioLanguageType`. The model uses the corrected check (see Findings).
- Validator.CheckQuery: its own contract states which check decides and what a rejection names, but not which country or language value is named when several fail. `CheckCountries` and `CheckLanguages` state that it is the first.

## Findings

| source | as written | input that shows it | evidently intended | confidence | as-written member | corrected member |
|---|---|---|---|---|---|---|
| app.js:161-162 | `languageCode.match(regex)` returns null when the value has no letter, and `s[0]` then throws a TypeError, so the request fails with an exception rather than a validation rejection | `Language=123` (also `Language=-`, or an empty element in a Language list) | reject the value like any other non-matching language | high; not executed | `LanguageTag.IsTVAAudioLanguageTypeAsWritten` (counterexample `LanguageTag.DigitsOnlyLanguageThrows`) | `LanguageTag.IsTVAAudioLanguageType` (proved equal to the xs:language grammar by `LanguageTag.TVAAudioLanguageTypeIsXsLanguage`) |
