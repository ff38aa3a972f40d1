/** The registry document the query filter prunes, already parsed: an
    ordered list of ProviderOffering elements, each with the Name elements of
    its Provider and its ServiceListOffering elements. */
module Registry {

  import opened Optional

  /** One ServiceListOffering: its `regulatorListFlag` attribute if present,
      and the text of its Language, TargetCountry and Genre children in
      document order. */
  datatype Service = Service(
    regulatorListFlag: Option<string>,
    languages: seq<string>,
    targetCountries: seq<string>,
    genres: seq<string>)

  /** One ProviderOffering: the Provider's Name texts and the offerings. */
  datatype Provider = Provider(names: seq<string>, services: seq<Service>)

  /** The ProviderOffering elements of the registry in document order. */
  type Catalogue = seq<Provider>
}
