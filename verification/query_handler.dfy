/** The `GET /query` handler (app.js:55-153): validate the query, then run
    the filter engine on the loaded registry. The response is modelled as
    the rejection or the pruned registry; status codes and serialisation
    are not modelled. */
module QueryHandler {

  import opened Optional
  import opened QueryString
  import opened Registry
  import opened Validator
  import opened FilterEngine
  import LanguageTag
  import Strings

  datatype Response = BadRequest(why: Rejection) | Ok(catalogue: Catalogue)

  /** Validate `q` against the loaded alpha-3 codes, then filter `master`. */
  function HandleQuery(master: Catalogue, alpha3: seq<string>, q: Query): (r: Response)
    ensures r.BadRequest? <==> !WellFormed(q, alpha3)
    ensures r.Ok? ==> forall i :: 0 <= i < |r.catalogue| ==> |r.catalogue[i].services| > 0
    ensures r.Ok? ==> Embeds(r.catalogue, master)
    ensures r.Ok? ==> r.catalogue == Reference(master, CriteriaOf(q))
  {
    CheckQueryAcceptsWellFormed(q, alpha3);
    match CheckQuery(q, alpha3)
    case Rejected(why) => BadRequest(why)
    case Accepted =>
      FilterCataloguePreservesOrder(master, CriteriaOf(q));
      FilterCatalogueIsReference(master, CriteriaOf(q));
      Ok(FilterCatalogue(master, CriteriaOf(q)))
  }

  /** JavaScript truthiness at work: a parameter given as the empty string
      (`?Language=`) is treated exactly like one that is missing, by every
      validator check and by every filter pass. */
  lemma EmptyStringActsAsMissing(c: Catalogue, k: Criteria, s: Service, alpha3: seq<string>)
    ensures CheckFlag(Some(Single(""))) == CheckFlag(None)
    ensures CheckCountries(Some(Single("")), alpha3) == CheckCountries(None, alpha3)
    ensures CheckLanguages(Some(Single(""))) == CheckLanguages(None)
    ensures ProviderNamePass(c, Some(Single(""))) == ProviderNamePass(c, None)
    ensures RemovesService(k.(regulatorListFlag := Some(Single(""))), s)
         == RemovesService(k.(regulatorListFlag := None), s)
    ensures RemovesService(k.(language := Some(Single(""))), s) == RemovesService(k.(language := None), s)
    ensures RemovesService(k.(targetCountry := Some(Single(""))), s)
         == RemovesService(k.(targetCountry := None), s)
    ensures RemovesService(k.(genre := Some(Single(""))), s) == RemovesService(k.(genre := None), s)
  {
  }

  /** Asking the same query of an answer returns that answer unchanged. */
  lemma HandleQueryIdempotent(master: Catalogue, alpha3: seq<string>, q: Query)
    requires HandleQuery(master, alpha3, q).Ok?
    ensures var out := HandleQuery(master, alpha3, q).catalogue;
            HandleQuery(out, alpha3, q) == Ok(out)
  {
    FilterCatalogueIdempotent(master, CriteriaOf(q));
  }

  /** Two providers, "ACME" offering an English list for France and "Beta"
      a French list for Germany: `Language=en` leaves only ACME. */
  lemma LanguageQueryKeepsOnlyMatchingProvider()
    ensures var acme := Provider(["ACME"], [Service(None, ["en"], ["FRA"], [])]);
            var beta := Provider(["Beta"], [Service(None, ["fr"], ["DEU"], [])]);
            HandleQuery([acme, beta], ["FRA", "DEU"], [Param("Language", Single("en"))]) == Ok([acme])
  {
    var acme := Provider(["ACME"], [Service(None, ["en"], ["FRA"], [])]);
    var beta := Provider(["Beta"], [Service(None, ["fr"], ["DEU"], [])]);
    var q := [Param("Language", Single("en"))];
    EnglishQueryAccepted(q);
    EnglishFilter(acme, beta, CriteriaOf(q));
  }

  lemma EnglishQueryAccepted(q: Query)
    requires q == [Param("Language", Single("en"))]
    ensures CheckQuery(q, ["FRA", "DEU"]) == Accepted
    ensures CriteriaOf(q) == Criteria(None, None, Some(Single("en")), None, None)
  {
    assert LanguageTag.FirstLetter("en", 0) == Some(0);
    assert LanguageTag.Run("en"[1..], 7, false) == 1;
    assert LanguageTag.Run("en", 8, false) == 2;
    assert "en"[0..2] == "en";
    assert LanguageTag.IsTVAAudioLanguageType("en");
  }

  lemma EnglishFilter(acme: Provider, beta: Provider, k: Criteria)
    requires acme == Provider(["ACME"], [Service(None, ["en"], ["FRA"], [])])
    requires beta == Provider(["Beta"], [Service(None, ["fr"], ["DEU"], [])])
    requires k == Criteria(None, None, Some(Single("en")), None, None)
    ensures FilterCatalogue([acme, beta], k) == [acme]
  {
    assert RemovesService(k, beta.services[0]);
    assert !RemovesService(k, acme.services[0]);
    assert Restrict(acme, k) == acme by {
      Seqs.FilterKeepsAll(acme.services, ServiceTest(k));
    }
    assert Restrict(beta, k).services == [];
    assert !Survives(k, beta) && Survives(k, acme);
    assert [beta][1..] == [];
    assert Reference([beta], k) == [];
    assert [acme, beta][1..] == [beta];
    assert Reference([acme, beta], k) == [acme];
    FilterCatalogueIsReference([acme, beta], k);
  }

  /** An unknown country code is rejected, and the reason names it. */
  lemma UnknownCountryRejected()
    ensures HandleQuery([], ["FRA", "DEU"], [Param("TargetCountry", Single("XYZ"))])
      == BadRequest(IncorrectCountry("XYZ"))
  {
    var q := [Param("TargetCountry", Single("XYZ"))];
    assert "TargetCountry" in AllowedArguments;
    assert CheckKeys(q).None?;
    assert Get(q, "regulatorListFlag").None?;
    assert Get(q, "TargetCountry") == Some(Single("XYZ"));
    assert !IsISO3166Code("XYZ", ["FRA", "DEU"]);
    assert CheckCountries(Some(Single("XYZ")), ["FRA", "DEU"]) == Some(IncorrectCountry("XYZ"));
  }

  /** A stored "FRA,DEU" satisfies a request for "DEU". */
  lemma CommaListMatchesOneCode()
    ensures !RemovesService(Criteria(None, None, None, Some(Single("DEU")), None),
                            Service(None, [], ["FRA,DEU"], []))
  {
    Strings.SplitJoin(["FRA", "DEU"], ',');
    assert Strings.Join(["FRA", "DEU"], ',') == "FRA,DEU";
    CommaSeparatedTargetCountry(Criteria(None, None, None, Some(Single("DEU")), None),
                                Service(None, [], ["FRA,DEU"], []), ["FRA", "DEU"], "DEU");
  }
}
