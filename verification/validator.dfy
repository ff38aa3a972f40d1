/** The query validator `checkQuery` (app.js:189-279) and its helper
    `isISO3166code` (app.js:165-175). It accepts or rejects a parsed query
    before any filtering; the first failing check decides the reason. */
module Validator {

  import opened Optional
  import opened QueryString
  import Seqs
  import LanguageTag

  /** Why a query was rejected. */
  datatype Rejection =
    | InvalidArgument(key: string)
    | InvalidFlagType(typeName: string)
    | InvalidFlagValue(flag: string)
    | IncorrectCountry(country: string)
    | InvalidLanguage(language: string)

  datatype Verdict = Accepted | Rejected(why: Rejection)

  /** The text the source stores in `req.parseErr`; the language checks
      return false without recording one. */
  function ParseErr(why: Rejection): (r: Option<string>)
    ensures r.None? <==> why.InvalidLanguage?
  {
    match why
    case InvalidArgument(key) => Some("invalid argument [" + key + "]")
    case InvalidFlagType(t) => Some("invalid type for regulatorListFlag [" + t + "]")
    case InvalidFlagValue(f) => Some("invalid value for regulatorListFlag [" + f + "]")
    case IncorrectCountry(c) => Some("incorrect country [" + c + "]")
    case InvalidLanguage(_) => None
  }

  /** The `forEach` over the loaded countries, setting `found` on a match. */
  function ScanAlpha3(code: string, alpha3: seq<string>, found: bool): (r: bool)
    ensures r <==> found || code in alpha3
    decreases |alpha3|
  {
    if |alpha3| == 0 then found
    else
      assert alpha3 == [alpha3[0]] + alpha3[1..];
      ScanAlpha3(code, alpha3[1..], found || code == alpha3[0])
  }

  /** `isISO3166code`: the code has three characters and is one of the
      loaded ISO 3166-1 alpha-3 codes. */
  function IsISO3166Code(code: string, alpha3: seq<string>): (r: bool)
    ensures r <==> |code| == 3 && code in alpha3
  {
    if |code| != 3 then false else ScanAlpha3(code, alpha3, false)
  }

  /** The loader stores every alpha-3 entry with exactly three characters
      (app.js:297-298), so on loaded data the length test decides nothing. */
  lemma LengthTestRedundantOnLoadedCodes(code: string, alpha3: seq<string>)
    requires forall i :: 0 <= i < |alpha3| ==> |alpha3[i]| == 3
    ensures IsISO3166Code(code, alpha3) <==> code in alpha3
  {
  }

  predicate IsAllowedArgument(key: string) {
    IsIn(Multi(AllowedArguments), key)
  }

  function Keys(q: Query): (ks: seq<string>)
    ensures |ks| == |q|
    ensures forall i :: 0 <= i < |q| ==> ks[i] == q[i].key
  {
    seq(|q|, i requires 0 <= i < |q| => q[i].key)
  }

  /** Every key is one `checkQuery` recognises. */
  predicate KeysRecognised(q: Query) {
    forall i :: 0 <= i < |q| ==> q[i].key in AllowedArguments
  }

  /** A missing or empty flag, or exactly "true" or "false". */
  predicate FlagAcceptable(flag: Option<QueryValue>) {
    !Supplied(flag) || flag.value == Single("true") || flag.value == Single("false")
  }

  /** A missing or empty `TargetCountry`, or only loaded alpha-3 codes. */
  predicate CountriesAcceptable(country: Option<QueryValue>, alpha3: seq<string>) {
    !Supplied(country) || forall c :: c in Values(country.value) ==> |c| == 3 && c in alpha3
  }

  /** A missing or empty `Language`, or only values the language check passes. */
  predicate LanguagesAcceptable(language: Option<QueryValue>) {
    !Supplied(language) || forall l :: l in Values(language.value) ==> LanguageTag.IsTVAAudioLanguageType(l)
  }

  /** The loop over `req.query`: the first key outside the recognised set. */
  function CheckKeys(q: Query): (r: Option<Rejection>)
    ensures r.None? <==> KeysRecognised(q)
    ensures r.Some? ==>
      (exists i :: 0 <= i < |q| && r.value == InvalidArgument(q[i].key)
         && q[i].key !in AllowedArguments && forall j :: 0 <= j < i ==> q[j].key in AllowedArguments)
  {
    match Seqs.FirstFailure(Keys(q), IsAllowedArgument)
    case None => None
    case Some(i) => Some(InvalidArgument(q[i].key))
  }

  /** `regulatorListFlag`, when truthy, must be the string "true" or "false";
      the comparison is case-sensitive. */
  function CheckFlag(flag: Option<QueryValue>): (r: Option<Rejection>)
    ensures r.None? <==> FlagAcceptable(flag)
    ensures r.Some? && r.value.InvalidFlagType? ==>
      flag.Some? && flag.value.Multi? && r.value.typeName == "object"
    ensures r.Some? && !r.value.InvalidFlagType? ==>
      flag.Some? && flag.value.Single? && r.value == InvalidFlagValue(flag.value.text)
  {
    if !Supplied(flag) then None
    else if TypeOf(flag.value) != "string" then Some(InvalidFlagType(TypeOf(flag.value)))
    else if flag.value.text != "true" && flag.value.text != "false" then Some(InvalidFlagValue(flag.value.text))
    else None
  }

  /** Every truthy `TargetCountry` value, single or list element, must be a
      loaded alpha-3 code; the first one that is not is reported. */
  function CheckCountries(country: Option<QueryValue>, alpha3: seq<string>): (r: Option<Rejection>)
    ensures r.None? <==> CountriesAcceptable(country, alpha3)
    ensures r.Some? ==>
      (r.value.IncorrectCountry? && r.value.country in Values(country.value)
         && !(|r.value.country| == 3 && r.value.country in alpha3))
    ensures r.Some? ==> country.Some?
    ensures r.Some? && country.Some? ==>
      exists i :: 0 <= i < |Values(country.value)| && Values(country.value)[i] == r.value.country
        && forall j :: 0 <= j < i ==> |Values(country.value)[j]| == 3 && Values(country.value)[j] in alpha3
  {
    if !Supplied(country) then None
    else
      var vs := Values(country.value);
      match Seqs.FirstFailure(vs, c => IsISO3166Code(c, alpha3))
      case None => None
      case Some(i) => Some(IncorrectCountry(vs[i]))
  }

  /** Every truthy `Language` value, single or list element, must pass
      `isTVAAudioLanguageType`; the first one that does not is reported. */
  function CheckLanguages(language: Option<QueryValue>): (r: Option<Rejection>)
    ensures r.None? <==> LanguagesAcceptable(language)
    ensures r.Some? ==>
      (r.value.InvalidLanguage? && r.value.language in Values(language.value)
         && !LanguageTag.IsTVAAudioLanguageType(r.value.language))
    ensures r.Some? ==> language.Some?
    ensures r.Some? && language.Some? ==>
      exists i :: 0 <= i < |Values(language.value)| && Values(language.value)[i] == r.value.language
        && forall j :: 0 <= j < i ==> LanguageTag.IsTVAAudioLanguageType(Values(language.value)[j])
  {
    if !Supplied(language) then None
    else
      var vs := Values(language.value);
      match Seqs.FirstFailure(vs, LanguageTag.IsTVAAudioLanguageType)
      case None => None
      case Some(i) => Some(InvalidLanguage(vs[i]))
  }

  /** `checkQuery`: keys first, then the flag, then countries, then
      languages; `ProviderName` and `Genre` values are never inspected. */
  function CheckQuery(q: Query, alpha3: seq<string>): (v: Verdict)
    ensures (exists i :: 0 <= i < |q| && q[i].key !in AllowedArguments) <==>
      v.Rejected? && v.why.InvalidArgument?
    ensures v.Rejected? && v.why.InvalidArgument? ==>
      exists i :: 0 <= i < |q| && q[i].key == v.why.key && v.why.key !in AllowedArguments
        && forall j :: 0 <= j < i ==> q[j].key in AllowedArguments
    ensures v.Rejected? && (v.why.InvalidFlagType? || v.why.InvalidFlagValue?) ==>
      var flag := Get(q, "regulatorListFlag");
      Supplied(flag) && flag.value != Single("true") && flag.value != Single("false")
    ensures v.Rejected? && v.why.IncorrectCountry? ==>
      var country := Get(q, "TargetCountry");
      Supplied(country) && v.why.country in Values(country.value)
        && !(|v.why.country| == 3 && v.why.country in alpha3)
    ensures v.Rejected? && v.why.InvalidLanguage? ==>
      var language := Get(q, "Language");
      Supplied(language) && v.why.language in Values(language.value)
        && !LanguageTag.IsTVAAudioLanguageType(v.why.language)
    // The order of the checks: a later check speaks only when every earlier
    // one passed.
    ensures KeysRecognised(q) && !FlagAcceptable(Get(q, "regulatorListFlag")) ==>
      v.Rejected? && (v.why.InvalidFlagType? || v.why.InvalidFlagValue?)
    ensures (KeysRecognised(q) && FlagAcceptable(Get(q, "regulatorListFlag"))
             && !CountriesAcceptable(Get(q, "TargetCountry"), alpha3)) ==>
      v.Rejected? && v.why.IncorrectCountry?
    ensures (KeysRecognised(q) && FlagAcceptable(Get(q, "regulatorListFlag"))
             && CountriesAcceptable(Get(q, "TargetCountry"), alpha3)
             && !LanguagesAcceptable(Get(q, "Language"))) ==>
      v.Rejected? && v.why.InvalidLanguage?
  {
    match CheckKeys(q)
    case Some(why) => Rejected(why)
    case None =>
      match CheckFlag(Get(q, "regulatorListFlag"))
      case Some(why) => Rejected(why)
      case None =>
        match CheckCountries(Get(q, "TargetCountry"), alpha3)
        case Some(why) => Rejected(why)
        case None =>
          match CheckLanguages(Get(q, "Language"))
          case Some(why) => Rejected(why)
          case None => Accepted
  }

  /** The acceptance condition stated directly: recognised keys, a flag that
      is exactly "true" or "false", loaded country codes, and languages in the
      xs:language grammar. */
  ghost predicate WellFormed(q: Query, alpha3: seq<string>) {
    var flag := Get(q, "regulatorListFlag");
    var country := Get(q, "TargetCountry");
    var language := Get(q, "Language");
    && (forall i :: 0 <= i < |q| ==> q[i].key in AllowedArguments)
    && (Supplied(flag) ==> flag.value == Single("true") || flag.value == Single("false"))
    && (Supplied(country) ==> forall c :: c in Values(country.value) ==> |c| == 3 && c in alpha3)
    && (Supplied(language) ==> forall l :: l in Values(language.value) ==> LanguageTag.IsXsLanguage(l))
  }

  /** `checkQuery` accepts exactly the well-formed queries. */
  lemma CheckQueryAcceptsWellFormed(q: Query, alpha3: seq<string>)
    ensures CheckQuery(q, alpha3) == Accepted <==> WellFormed(q, alpha3)
  {
    var flag := Get(q, "regulatorListFlag");
    var country := Get(q, "TargetCountry");
    var language := Get(q, "Language");
    assert CheckQuery(q, alpha3) == Accepted <==>
      CheckKeys(q).None? && CheckFlag(flag).None? && CheckCountries(country, alpha3).None?
        && CheckLanguages(language).None?;
    if Supplied(language) {
      forall l | l in Values(language.value)
        ensures LanguageTag.IsTVAAudioLanguageType(l) <==> LanguageTag.IsXsLanguage(l)
      {
        LanguageTag.TVAAudioLanguageTypeIsXsLanguage(l);
      }
    }
  }

  /** Two queries with the same keys in the same order that differ only in
      their `ProviderName` and `Genre` values get the same verdict. */
  lemma {:induction false} ProviderNameAndGenreUnchecked(q: Query, q': Query, alpha3: seq<string>)
    requires |q| == |q'|
    requires forall i :: 0 <= i < |q| ==> q[i].key == q'[i].key
    requires forall i :: 0 <= i < |q| && q[i].key != "ProviderName" && q[i].key != "Genre" ==>
      q[i].value == q'[i].value
    ensures CheckQuery(q, alpha3) == CheckQuery(q', alpha3)
  {
    assert Keys(q) == Keys(q');
    assert CheckKeys(q) == CheckKeys(q');
    GetIgnoresOtherValues(q, q', "regulatorListFlag");
    GetIgnoresOtherValues(q, q', "TargetCountry");
    GetIgnoresOtherValues(q, q', "Language");
    assert CheckFlag(Get(q, "regulatorListFlag")) == CheckFlag(Get(q', "regulatorListFlag"));
    assert CheckCountries(Get(q, "TargetCountry"), alpha3) == CheckCountries(Get(q', "TargetCountry"), alpha3);
    assert CheckLanguages(Get(q, "Language")) == CheckLanguages(Get(q', "Language"));
  }

  lemma {:induction false} GetIgnoresOtherValues(q: Query, q': Query, key: string)
    requires |q| == |q'|
    requires forall i :: 0 <= i < |q| ==> q[i].key == q'[i].key
    requires forall i :: 0 <= i < |q| && q[i].key == key ==> q[i].value == q'[i].value
    ensures Get(q, key) == Get(q', key)
    decreases |q|
  {
    if |q| > 0 && q[0].key != key {
      GetIgnoresOtherValues(q[1..], q'[1..], key);
    }
  }
}
