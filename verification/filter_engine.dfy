/** The filter engine behind `GET /query` (app.js:60-147): three ordered
    passes over the registry. The source finds nodes by positional probing,
    collects the ones to delete and deletes them afterwards, so each pass is
    an order-preserving selection. */
module FilterEngine {

  import opened Optional
  import opened QueryString
  import opened Registry
  import opened Seqs
  import Strings

  /** The five recognised query parameters as the handler reads them
      (`req.query.ProviderName`, ...). */
  datatype Criteria = Criteria(
    providerName: Option<QueryValue>,
    regulatorListFlag: Option<QueryValue>,
    language: Option<QueryValue>,
    targetCountry: Option<QueryValue>,
    genre: Option<QueryValue>)

  function CriteriaOf(q: Query): Criteria {
    Criteria(Get(q, "ProviderName"), Get(q, "regulatorListFlag"), Get(q, "Language"),
             Get(q, "TargetCountry"), Get(q, "Genre"))
  }

  /** The probing loop over declared values that stops at the first one
      `isIn` the request. */
  function AnyIn(req: QueryValue, declared: seq<string>): (r: bool)
    ensures r <==> exists d :: d in declared && d in Values(req)
    decreases |declared|
  {
    if |declared| == 0 then false
    else
      assert declared == [declared[0]] + declared[1..];
      IsIn(req, declared[0]) || AnyIn(req, declared[1..])
  }

  /** Every country code a service declares: each TargetCountry text split
      on commas, in document order. */
  function CountryCodes(countries: seq<string>): (codes: seq<string>)
    ensures |codes| >= |countries|
    ensures forall c :: c in codes <==>
      exists k :: 0 <= k < |countries| && c in Strings.Split(countries[k], ',')
    decreases |countries|
  {
    if |countries| == 0 then []
    else
      var rest := CountryCodes(countries[1..]);
      assert forall k :: 1 <= k < |countries| ==> countries[1..][k - 1] == countries[k];
      Strings.Split(countries[0], ',') + rest
  }

  /** The TargetCountry loop: each declared text is split on commas and each
      piece is tested on its own. */
  function AnyCountryIn(req: QueryValue, countries: seq<string>): (r: bool)
    ensures r <==> exists c :: c in CountryCodes(countries) && c in Values(req)
    decreases |countries|
  {
    if |countries| == 0 then false
    else AnyIn(req, Strings.Split(countries[0], ',')) || AnyCountryIn(req, countries[1..])
  }

  /** The service's flag as the XPath probe reads it: the attribute's text,
      or "false" when the attribute is missing. */
  function FlagOf(s: Service): string {
    match s.regulatorListFlag
    case Some(flag) => flag
    case None => "false"
  }

  /** A requested dimension excludes a service when the service declares at
      least one value for it and none of them is requested; a dimension the
      service does not declare never excludes it. */
  ghost predicate Excludes(req: Option<QueryValue>, declared: seq<string>) {
    Supplied(req) && |declared| > 0 && forall d :: d in declared ==> d !in Values(req.value)
  }

  /** The decision the second pass takes for one service (app.js:89-132),
      checking the flag, then Language, TargetCountry and Genre. */
  function RemovesService(k: Criteria, s: Service): (r: bool)
    ensures r <==>
      || (Supplied(k.regulatorListFlag) && !LooseEquals(k.regulatorListFlag.value, FlagOf(s)))
      || Excludes(k.language, s.languages)
      || Excludes(k.targetCountry, CountryCodes(s.targetCountries))
      || Excludes(k.genre, s.genres)
  {
    var removeByFlag := Supplied(k.regulatorListFlag) && !LooseEquals(k.regulatorListFlag.value, FlagOf(s));
    var removeByLanguage := Supplied(k.language) && |s.languages| > 0 && !AnyIn(k.language.value, s.languages);
    var removeByCountry := Supplied(k.targetCountry) && |s.targetCountries| > 0
      && !AnyCountryIn(k.targetCountry.value, s.targetCountries);
    var removeByGenre := Supplied(k.genre) && |s.genres| > 0 && !AnyIn(k.genre.value, s.genres);
    removeByFlag || removeByLanguage || removeByCountry || removeByGenre
  }

  /** The guard of the second pass (app.js:84). */
  predicate AnyServiceCriterion(k: Criteria) {
    Supplied(k.regulatorListFlag) || Supplied(k.language) || Supplied(k.targetCountry) || Supplied(k.genre)
  }

  /** The provider-name test: some Name of the provider `isIn` the request. */
  function NameMatches(names: QueryValue, p: Provider): (r: bool)
    ensures r <==> exists n :: n in p.names && n in Values(names)
  {
    AnyIn(names, p.names)
  }

  function NameTest(names: QueryValue): Provider -> bool {
    p => NameMatches(names, p)
  }

  function ServiceTest(k: Criteria): Service -> bool {
    s => !RemovesService(k, s)
  }

  predicate HasServices(p: Provider) {
    |p.services| > 0
  }

  /** A provider with the services the criteria remove taken out. */
  function Restrict(p: Provider, k: Criteria): (r: Provider)
    ensures r.names == p.names
    ensures IsSubsequence(r.services, p.services)
    ensures forall i :: 0 <= i < |r.services| ==> r.services[i] in p.services && !RemovesService(k, r.services[i])
    ensures forall i :: 0 <= i < |p.services| && !RemovesService(k, p.services[i]) ==> p.services[i] in r.services
    ensures forall i {:trigger multiset(r.services)[p.services[i]]} ::
      0 <= i < |p.services| && !RemovesService(k, p.services[i]) ==>
      multiset(r.services)[p.services[i]] == multiset(p.services)[p.services[i]]
  {
    p.(services := Filter(p.services, ServiceTest(k)))
  }

  function RestrictAll(c: Catalogue, k: Criteria): (r: Catalogue)
    ensures |r| == |c|
    ensures forall i :: 0 <= i < |c| ==> r[i] == Restrict(c[i], k)
    decreases |c|
  {
    if |c| == 0 then [] else [Restrict(c[0], k)] + RestrictAll(c[1..], k)
  }

  /** Pass 1 (app.js:65-82): with a truthy `ProviderName`, keep exactly the
      providers with a Name in the request; a provider without Names goes. */
  function ProviderNamePass(c: Catalogue, names: Option<QueryValue>): (r: Catalogue)
    ensures IsSubsequence(r, c)
    ensures !Supplied(names) ==> r == c
    ensures Supplied(names) ==>
      forall i :: 0 <= i < |r| ==>
        r[i] in c && |r[i].names| > 0 && exists n :: n in r[i].names && n in Values(names.value)
    ensures Supplied(names) ==> forall i :: 0 <= i < |c| && NameMatches(names.value, c[i]) ==> c[i] in r
    ensures Supplied(names) ==> forall i {:trigger multiset(r)[c[i]]} :: 0 <= i < |c| && NameMatches(names.value, c[i]) ==>
      multiset(r)[c[i]] == multiset(c)[c[i]]
  {
    if Supplied(names) then Filter(c, NameTest(names.value))
    else SubsequenceReflexive(c); c
  }

  /** Without any service criterion no service is removed. */
  lemma {:induction false} RestrictAllWithoutCriteria(c: Catalogue, k: Criteria)
    requires !AnyServiceCriterion(k)
    ensures RestrictAll(c, k) == c
  {
    forall i | 0 <= i < |c| ensures Restrict(c[i], k) == c[i] {
      FilterKeepsAll(c[i].services, ServiceTest(k));
    }
  }

  /** Pass 2 (app.js:84-138): in every provider, remove the services the
      criteria exclude; the providers themselves stay, even if emptied. */
  function ServicePass(c: Catalogue, k: Criteria): (r: Catalogue)
    ensures |r| == |c|
    ensures forall i :: 0 <= i < |c| ==> r[i] == Restrict(c[i], k)
  {
    if AnyServiceCriterion(k) then RestrictAll(c, k)
    else RestrictAllWithoutCriteria(c, k); c
  }

  /** Pass 3 (app.js:140-147), run on every query: remove the providers left
      without services. */
  function PruneEmptyProviders(c: Catalogue): (r: Catalogue)
    ensures IsSubsequence(r, c)
    ensures forall i :: 0 <= i < |r| ==> r[i] in c && |r[i].services| > 0
    ensures forall i :: 0 <= i < |c| && |c[i].services| > 0 ==> c[i] in r
    ensures forall i {:trigger multiset(r)[c[i]]} :: 0 <= i < |c| && |c[i].services| > 0 ==> multiset(r)[c[i]] == multiset(c)[c[i]]
  {
    Filter(c, HasServices)
  }

  /** The three passes in order. */
  function FilterCatalogue(c: Catalogue, k: Criteria): (r: Catalogue)
    ensures forall i :: 0 <= i < |r| ==> |r[i].services| > 0
  {
    PruneEmptyProviders(ServicePass(ProviderNamePass(c, k.providerName), k))
  }

  /** A provider passes the name criterion (a missing one passes everyone). */
  predicate NameAdmits(k: Criteria, p: Provider) {
    !Supplied(k.providerName) || NameMatches(k.providerName.value, p)
  }

  /** A provider appears in the result: it passes the name criterion and
      keeps at least one service. */
  predicate Survives(k: Criteria, p: Provider) {
    NameAdmits(k, p) && |Restrict(p, k).services| > 0
  }

  /** The result stated in one pass over the providers, independently of
      the three-pass structure: each surviving provider, in order, with only
      the services the criteria keep. */
  function Reference(c: Catalogue, k: Criteria): Catalogue
    decreases |c|
  {
    if |c| == 0 then []
    else (if Survives(k, c[0]) then [Restrict(c[0], k)] else []) + Reference(c[1..], k)
  }

  /** `out` is what filtering can leave of provider `p`: the same names and,
      in order, some of its services. */
  ghost predicate SurvivorOf(out: Provider, p: Provider) {
    out.names == p.names && IsSubsequence(out.services, p.services)
  }

  /** Each output provider is an input provider with the same names and a
      subsequence of its services, and they come in input order. */
  ghost predicate Embeds(out: Catalogue, c: Catalogue)
    decreases |c|
  {
    || |out| == 0
    || (|c| > 0 && ((SurvivorOf(out[0], c[0]) && Embeds(out[1..], c[1..])) || Embeds(out, c[1..])))
  }

  lemma NamePassCons(c: Catalogue, k: Criteria)
    requires |c| > 0
    ensures ProviderNamePass(c, k.providerName) ==
      (if NameAdmits(k, c[0]) then [c[0]] else []) + ProviderNamePass(c[1..], k.providerName)
  {
    assert c == [c[0]] + c[1..];
    if Supplied(k.providerName) {
      var t := NameTest(k.providerName.value);
      FilterAppend([c[0]], c[1..], t);
      assert [c[0]][1..] == [];
    }
  }

  lemma ServicePassAppend(a: Catalogue, b: Catalogue, k: Criteria)
    ensures ServicePass(a + b, k) == ServicePass(a, k) + ServicePass(b, k)
  {
    var l := ServicePass(a + b, k);
    var sa := ServicePass(a, k);
    var sb := ServicePass(b, k);
    assert |l| == |sa| + |sb|;
    forall i | 0 <= i < |a| ensures l[i] == sa[i] {
      assert (a + b)[i] == a[i];
    }
    forall i | 0 <= i < |b| ensures l[|a| + i] == sb[i] {
      assert (a + b)[|a| + i] == b[i];
    }
    assert l == sa + sb;
  }

  /** The three passes compute the one-pass reference result. */
  lemma {:induction false} FilterCatalogueIsReference(c: Catalogue, k: Criteria)
    ensures FilterCatalogue(c, k) == Reference(c, k)
    decreases |c|
  {
    if |c| > 0 {
      var rest := c[1..];
      var h := if NameAdmits(k, c[0]) then [c[0]] else [];
      var named := ProviderNamePass(rest, k.providerName);
      NamePassCons(c, k);
      ServicePassAppend(h, named, k);
      FilterAppend(ServicePass(h, k), ServicePass(named, k), HasServices);
      var head := Filter(ServicePass(h, k), HasServices);
      if NameAdmits(k, c[0]) {
        var x := Restrict(c[0], k);
        assert ServicePass(h, k) == [x];
        assert [x][1..] == [];
        assert head == if HasServices(x) then [x] else [];
      } else {
        assert head == [];
      }
      FilterCatalogueIsReference(rest, k);
    }
  }

  lemma {:induction false} ReferenceAppend(a: Catalogue, b: Catalogue, k: Criteria)
    ensures Reference(a + b, k) == Reference(a, k) + Reference(b, k)
    decreases |a|
  {
    if |a| == 0 {
      assert a + b == b;
    } else {
      var head := if Survives(k, a[0]) then [Restrict(a[0], k)] else [];
      assert (a + b)[0] == a[0];
      assert (a + b)[1..] == a[1..] + b;
      ReferenceAppend(a[1..], b, k);
      calc {
        Reference(a + b, k);
        head + Reference(a[1..] + b, k);
        head + (Reference(a[1..], k) + Reference(b, k));
        (head + Reference(a[1..], k)) + Reference(b, k);
        Reference(a, k) + Reference(b, k);
      }
    }
  }

  /** A provider the criteria already restricted is left as it is. */
  lemma RestrictIdempotent(p: Provider, k: Criteria)
    ensures Restrict(Restrict(p, k), k) == Restrict(p, k)
  {
    FilterIdempotent(p.services, ServiceTest(k));
  }

  lemma {:induction false} ReferenceIdempotent(c: Catalogue, k: Criteria)
    ensures Reference(Reference(c, k), k) == Reference(c, k)
    decreases |c|
  {
    if |c| > 0 {
      var rest := Reference(c[1..], k);
      var h := if Survives(k, c[0]) then [Restrict(c[0], k)] else [];
      ReferenceAppend(h, rest, k);
      if Survives(k, c[0]) {
        var x := Restrict(c[0], k);
        RestrictIdempotent(c[0], k);
        assert x.names == c[0].names;
        assert NameAdmits(k, x) == NameAdmits(k, c[0]);
        assert Survives(k, x);
        assert [x][1..] == [];
        assert Reference(h, k) == [x] + Reference([], k);
      }
      ReferenceIdempotent(c[1..], k);
    }
  }

  /** Filtering a result again with the same criteria changes nothing. */
  lemma FilterCatalogueIdempotent(c: Catalogue, k: Criteria)
    ensures FilterCatalogue(FilterCatalogue(c, k), k) == FilterCatalogue(c, k)
  {
    FilterCatalogueIsReference(c, k);
    FilterCatalogueIsReference(Reference(c, k), k);
    ReferenceIdempotent(c, k);
  }

  lemma {:induction false} ReferenceEmbeds(c: Catalogue, k: Criteria)
    ensures Embeds(Reference(c, k), c)
    decreases |c|
  {
    if |c| > 0 {
      var out := Reference(c, k);
      ReferenceEmbeds(c[1..], k);
      if Survives(k, c[0]) {
        assert out[0] == Restrict(c[0], k);
        assert out[1..] == Reference(c[1..], k);
      } else {
        assert out == Reference(c[1..], k);
      }
    }
  }

  /** The surviving providers keep their input order, their names and, in
      order, a subset of their services. */
  lemma FilterCataloguePreservesOrder(c: Catalogue, k: Criteria)
    ensures Embeds(FilterCatalogue(c, k), c)
  {
    FilterCatalogueIsReference(c, k);
    ReferenceEmbeds(c, k);
  }

  lemma {:induction false} ReferenceMembers(c: Catalogue, k: Criteria)
    ensures forall p :: p in Reference(c, k) <==> exists j :: 0 <= j < |c| && Survives(k, c[j]) && p == Restrict(c[j], k)
    decreases |c|
  {
    if |c| > 0 {
      ReferenceMembers(c[1..], k);
      assert forall j :: 1 <= j < |c| ==> c[1..][j - 1] == c[j];
    }
  }

  /** Exactly the surviving providers appear, each with the services the
      criteria keep: a provider is in the result iff it passes the name test
      and keeps a service. */
  lemma FilterCatalogueMembers(c: Catalogue, k: Criteria)
    ensures forall p :: p in FilterCatalogue(c, k) <==>
      exists j :: 0 <= j < |c| && Survives(k, c[j]) && p == Restrict(c[j], k)
  {
    FilterCatalogueIsReference(c, k);
    ReferenceMembers(c, k);
  }

  /** A service that declares no value for a dimension is never removed on
      account of that dimension, whatever is requested. */
  lemma UndeclaredDimensionNeverExcludes(k: Criteria, s: Service)
    ensures s.languages == [] ==> (RemovesService(k, s) <==> RemovesService(k.(language := None), s))
    ensures s.targetCountries == [] ==> (RemovesService(k, s) <==> RemovesService(k.(targetCountry := None), s))
    ensures s.genres == [] ==> (RemovesService(k, s) <==> RemovesService(k.(genre := None), s))
  {
  }

  /** A TargetCountry element holding a comma-separated list of codes
      satisfies a request for any one of them. */
  lemma CommaSeparatedTargetCountry(k: Criteria, s: Service, codes: seq<string>, code: string)
    requires |codes| >= 1 && forall i :: 0 <= i < |codes| ==> ',' !in codes[i]
    requires code in codes
    requires s.targetCountries == [Strings.Join(codes, ',')]
    requires Supplied(k.targetCountry) && code in Values(k.targetCountry.value)
    ensures RemovesService(k, s) <==> RemovesService(k.(targetCountry := None), s)
  {
    Strings.SplitJoin(codes, ',');
    assert code in CountryCodes(s.targetCountries);
  }

  /** With a single requested flag, a service survives the flag check
      exactly when its attribute equals the request, a missing attribute
      reading as "false". */
  lemma RegulatorListFlagDecides(k: Criteria, s: Service, f: string)
    requires k.regulatorListFlag == Some(Single(f)) && f != ""
    ensures !RemovesService(k, s) ==>
      s.regulatorListFlag == Some(f) || (s.regulatorListFlag.None? && f == "false")
    ensures s.regulatorListFlag == Some(f) || (s.regulatorListFlag.None? && f == "false") ==>
      (RemovesService(k, s) <==> RemovesService(k.(regulatorListFlag := None), s))
  {
  }
}
