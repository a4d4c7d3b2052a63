// The static province reference table and the region lookup built on it.

module Provinces {
  import opened Common

  /** One entry of the table: the autonomous community of the province and a
      reference longitude/latitude; the catch-all entry "Otra" has none of them. */
  datatype GeoEntry = GeoEntry(region: Option<string>, lon: Option<real>, lat: Option<real>)

  /** The province table as a lookup (`PROVINCIAS.get`): the entry for a
      province name, or `None` for a name that is not in the table. */
  function Provincias(prov: string): (r: Option<GeoEntry>)
    ensures r.Some? ==> (r.value.lon.Some? <==> r.value.region.Some?) && (r.value.lat.Some? <==> r.value.region.Some?)
  {
    match prov
    case "A Coruna" => Some(GeoEntry(Some("Galicia"), Some(-8.4115), Some(43.3623)))
    case "Albacete" => Some(GeoEntry(Some("Castilla-La Mancha"), Some(-1.8585), Some(38.9943)))
    case "Alicante" => Some(GeoEntry(Some("Comunidad Valenciana"), Some(-0.4810), Some(38.3452)))
    case "Almeria" => Some(GeoEntry(Some("Andalucia"), Some(-2.4637), Some(36.8381)))
    case "Asturias" => Some(GeoEntry(Some("Asturias"), Some(-5.8449), Some(43.3614)))
    case "Avila" => Some(GeoEntry(Some("Castilla y Leon"), Some(-4.7114), Some(40.6566)))
    case "Badajoz" => Some(GeoEntry(Some("Extremadura"), Some(-6.9706), Some(38.8794)))
    case "Barcelona" => Some(GeoEntry(Some("Cataluna"), Some(2.1734), Some(41.3851)))
    case "Bizkaia" => Some(GeoEntry(Some("Pais Vasco"), Some(-2.9253), Some(43.2630)))
    case "Burgos" => Some(GeoEntry(Some("Castilla y Leon"), Some(-3.6969), Some(42.3439)))
    case "Caceres" => Some(GeoEntry(Some("Extremadura"), Some(-6.3724), Some(39.4753)))
    case "Cadiz" => Some(GeoEntry(Some("Andalucia"), Some(-6.2894), Some(36.5271)))
    case "Cantabria" => Some(GeoEntry(Some("Cantabria"), Some(-3.8044), Some(43.4623)))
    case "Castellon" => Some(GeoEntry(Some("Comunidad Valenciana"), Some(-0.0524), Some(39.9864)))
    case "Ceuta" => Some(GeoEntry(Some("Ceuta"), Some(-5.3162), Some(35.8894)))
    case "Ciudad Real" => Some(GeoEntry(Some("Castilla-La Mancha"), Some(-3.9289), Some(38.9848)))
    case "Cordoba" => Some(GeoEntry(Some("Andalucia"), Some(-4.7794), Some(37.8882)))
    case "Cuenca" => Some(GeoEntry(Some("Castilla-La Mancha"), Some(-2.1374), Some(40.0704)))
    case "Gipuzkoa" => Some(GeoEntry(Some("Pais Vasco"), Some(-2.0000), Some(43.1500)))
    case "Girona" => Some(GeoEntry(Some("Cataluna"), Some(2.8214), Some(41.9794)))
    case "Granada" => Some(GeoEntry(Some("Andalucia"), Some(-3.5986), Some(37.1773)))
    case "Guadalajara" => Some(GeoEntry(Some("Castilla-La Mancha"), Some(-3.1614), Some(40.6322)))
    case "Huelva" => Some(GeoEntry(Some("Andalucia"), Some(-6.9447), Some(37.2614)))
    case "Huesca" => Some(GeoEntry(Some("Aragon"), Some(-0.4082), Some(42.1401)))
    case "Illes Balears" => Some(GeoEntry(Some("Islas Baleares"), Some(2.6502), Some(39.5696)))
    case "Jaen" => Some(GeoEntry(Some("Andalucia"), Some(-3.7903), Some(37.7796)))
    case "La Rioja" => Some(GeoEntry(Some("La Rioja"), Some(-2.4450), Some(42.4650)))
    case "Las Palmas" => Some(GeoEntry(Some("Canarias"), Some(-15.4138), Some(28.1235)))
    case "Leon" => Some(GeoEntry(Some("Castilla y Leon"), Some(-5.5671), Some(42.5987)))
    case "Lleida" => Some(GeoEntry(Some("Cataluna"), Some(0.6217), Some(41.6148)))
    case "Lugo" => Some(GeoEntry(Some("Galicia"), Some(-7.5560), Some(43.0097)))
    case "Madrid" => Some(GeoEntry(Some("Madrid"), Some(-3.7038), Some(40.4168)))
    case "Malaga" => Some(GeoEntry(Some("Andalucia"), Some(-4.4214), Some(36.7213)))
    case "Melilla" => Some(GeoEntry(Some("Melilla"), Some(-2.9388), Some(35.2923)))
    case "Murcia" => Some(GeoEntry(Some("Murcia"), Some(-1.1307), Some(37.9922)))
    case "Navarra" => Some(GeoEntry(Some("Navarra"), Some(-1.6440), Some(42.8125)))
    case "Ourense" => Some(GeoEntry(Some("Galicia"), Some(-7.8640), Some(42.3360)))
    case "Palencia" => Some(GeoEntry(Some("Castilla y Leon"), Some(-4.5288), Some(42.0097)))
    case "Pontevedra" => Some(GeoEntry(Some("Galicia"), Some(-8.6455), Some(42.4337)))
    case "Salamanca" => Some(GeoEntry(Some("Castilla y Leon"), Some(-5.6640), Some(40.9701)))
    case "Santa Cruz de Tenerife" => Some(GeoEntry(Some("Canarias"), Some(-16.2519), Some(28.4636)))
    case "Segovia" => Some(GeoEntry(Some("Castilla y Leon"), Some(-4.1184), Some(40.9429)))
    case "Sevilla" => Some(GeoEntry(Some("Andalucia"), Some(-5.9845), Some(37.3891)))
    case "Soria" => Some(GeoEntry(Some("Castilla y Leon"), Some(-2.4638), Some(41.7636)))
    case "Tarragona" => Some(GeoEntry(Some("Cataluna"), Some(1.2445), Some(41.1189)))
    case "Teruel" => Some(GeoEntry(Some("Aragon"), Some(-1.1065), Some(40.3456)))
    case "Toledo" => Some(GeoEntry(Some("Castilla-La Mancha"), Some(-4.0273), Some(39.8628)))
    case "Valencia" => Some(GeoEntry(Some("Comunidad Valenciana"), Some(-0.3763), Some(39.4699)))
    case "Valladolid" => Some(GeoEntry(Some("Castilla y Leon"), Some(-4.7245), Some(41.6523)))
    case "Zamora" => Some(GeoEntry(Some("Castilla y Leon"), Some(-5.7448), Some(41.5036)))
    case "Zaragoza" => Some(GeoEntry(Some("Aragon"), Some(-0.8773), Some(41.6561)))
    case "Alava" => Some(GeoEntry(Some("Pais Vasco"), Some(-2.6726), Some(42.8467)))
    case "Otra" => Some(GeoEntry(None, None, None))
    case _ => None
  }

  /** The communities that occur as regions in the table. */
  const Communities: set<string> := {
    "Andalucia", "Aragon", "Asturias", "Canarias", "Cantabria", "Castilla y Leon",
    "Castilla-La Mancha", "Cataluna", "Ceuta", "Comunidad Valenciana", "Extremadura",
    "Galicia", "Islas Baleares", "La Rioja", "Madrid", "Melilla", "Murcia", "Navarra",
    "Pais Vasco"
  }

  /** The region the application derives from a province name: the test
      `datos and datos[0]` succeeds only for a known name whose region is a
      non-empty string. */
  function RegionFor(prov: string): (r: Option<string>)
    ensures r.Some? <==> Provincias(prov).Some? && Provincias(prov).value.region.Some? && Provincias(prov).value.region.value != ""
    ensures r.Some? ==> r == Provincias(prov).value.region
  {
    match Provincias(prov)
    case Some(GeoEntry(Some(reg), _, _)) => if reg != "" then Some(reg) else None
    case _ => None
  }

  /** The text the read-only region field of the form shows after a province
      is chosen: the region, or empty when the lookup gives none. */
  function FormRegion(prov: string): (r: string)
    ensures r == "" <==> RegionFor(prov).None?
    ensures r != "" ==> RegionFor(prov) == Some(r)
  {
    match RegionFor(prov)
    case Some(reg) => reg
    case None => ""
  }

  /** Every province of the table has a region, except the catch-all "Otra". */
  lemma OnlyOtraHasNoRegion(prov: string)
    requires Provincias(prov).Some?
    ensures RegionFor(prov).None? <==> prov == "Otra"
  {
  }

  /** An entry carries a reference coordinate exactly when it carries a region. */
  lemma CoordinatesWithRegion(prov: string)
    requires Provincias(prov).Some?
    ensures Provincias(prov).value.lon.Some? <==> Provincias(prov).value.region.Some?
    ensures Provincias(prov).value.lat.Some? <==> Provincias(prov).value.region.Some?
  {
  }

  /** Every region the lookup can give is one of the known communities. */
  lemma RegionIsCommunity(prov: string)
    ensures RegionFor(prov).Some? ==> RegionFor(prov).value in Communities
  {
  }

  /** Worked lookups: a capital that names its own community, the catch-all
      entry and a name that is not in the table. */
  lemma RegionExamples()
    ensures RegionFor("Madrid") == Some("Madrid")
    ensures RegionFor("Bizkaia") == Some("Pais Vasco")
    ensures RegionFor("Otra") == None
    ensures RegionFor("Nowhereville") == None
  {
  }
}
