/**
 * The request-building side of milanuncios/core.py: the offer/demand filter,
 * the hard-coded region list and its normalisation, the URLs of `search` and
 * `search_category`, and the page loop both of them run.
 */
module Search {
  import opened Wrappers
  import opened Strings

  const MainUrl: string := "https://www.milanuncios.com"

  // ------------------------------------------------------ offer / demand

  /** `_offer_demand_parser`: "n" for offers only, "s" for demands only, nothing when both or neither. */
  function OfferDemandParser(offer: bool, demand: bool): (r: Option<string>)
    ensures r == Some("n") <==> offer && !demand
    ensures r == Some("s") <==> demand && !offer
    ensures r == None <==> offer == demand
  {
    if !(offer && demand) && !(!offer && !demand) then
      if offer then Some("n") else Some("s")
    else None
  }

  // ------------------------------------------------------------- regions

  /** The `regions` property. */
  const Regions: seq<string> := [
    "alava", "albacete", "alicante", "almeria", "andalucia", "aragon",
    "asturias", "avila", "badajoz", "baleares", "barcelona", "burgos",
    "caceres", "cadiz", "cantabria", "canarias", "castellon",
    "castilla_la_mancha", "castilla_y_leon", "catalunya", "ceuta",
    "ciudad_real", "cordoba", "cuenca", "extremadura", "galicia",
    "girona", "granada", "guadalajara", "guipuzcoa", "huelva",
    "huesca", "jaen", "la_coruna", "la_rioja", "las_palmas", "leon",
    "lleida", "lugo", "madrid", "malaga", "melilla", "murcia", "navarra",
    "ourense", "pais_vasco", "palencia", "pontevedra", "salamanca",
    "segovia", "sevilla", "soria", "tarragona", "tenerife", "teruel",
    "toledo", "valencia", "comunidad_valenciana", "valladolid", "vizcaya",
    "zamora", "zaragoza"]

  /** `region.replace(" ", "_").lower()`. */
  function NormaliseRegion(region: string): string {
    Lower(ReplaceChar(region, ' ', '_'))
  }

  /** A region name in normal form: no space and no upper-case letter. */
  predicate IsNormalRegion(s: string) {
    forall i :: 0 <= i < |s| ==> s[i] != ' ' && !('A' <= s[i] <= 'Z')
  }

  /** Normalising yields the normal form, leaves a normal name alone, and is therefore idempotent. */
  lemma NormaliseRegionNormal(region: string)
    ensures IsNormalRegion(NormaliseRegion(region))
    ensures IsNormalRegion(region) ==> NormaliseRegion(region) == region
    ensures NormaliseRegion(NormaliseRegion(region)) == NormaliseRegion(region)
  {
    var n := NormaliseRegion(region);
    assert IsNormalRegion(n);
    if IsNormalRegion(region) {
      assert forall i :: 0 <= i < |region| ==> n[i] == region[i];
    }
    assert forall i :: 0 <= i < |n| ==> NormaliseRegion(n)[i] == n[i];
  }

  /** Python's truth test `if region:` on an optional string. */
  predicate Given(region: Option<string>) {
    region.Some? && region.value != ""
  }

  /** The region part of a `search` endpoint: empty, "-en-<region>/", or the ValueError for an unlisted region. */
  function SearchRegionPath(region: Option<string>): (r: Result<string, Error>)
    ensures r.Failure? <==> Given(region) && NormaliseRegion(region.value) !in Regions
    ensures r.Failure? ==> r.error == InvalidRegion(NormaliseRegion(region.value))
    ensures r.Success? && Given(region) ==> r.value == "-en-" + NormaliseRegion(region.value) + "/"
    ensures r.Success? && !Given(region) ==> r.value == ""
  {
    if Given(region) then
      var n := NormaliseRegion(region.value);
      if n in Regions then Success("-en-" + n + "/") else Failure(InvalidRegion(n))
    else Success("")
  }

  /** The endpoint of `search_category` once the region filter is applied: an unlisted region is silently ignored. */
  function CategoryRegionEndpoint(endpoint: string, region: Option<string>): (r: string)
    ensures !Given(region) || NormaliseRegion(region.value) !in Regions ==> r == endpoint
  {
    if Given(region) && NormaliseRegion(region.value) in Regions then
      DropLast(endpoint) + "-en-" + NormaliseRegion(region.value)
    else endpoint
  }

  /** Python `s[:-1]`. */
  function DropLast(s: string): string {
    if s == [] then s else s[..|s| - 1]
  }

  /** The same unlisted region makes `search` raise and is ignored by `search_category`. */
  lemma UnlistedRegion(endpoint: string, region: string)
    requires region != "" && NormaliseRegion(region) !in Regions
    ensures SearchRegionPath(Some(region)) == Failure(InvalidRegion(NormaliseRegion(region)))
    ensures CategoryRegionEndpoint(endpoint, Some(region)) == endpoint
  {
  }

  // --------------------------------------------------------------- URLs

  /** The query as it appears in a search URL: spaces become dashes. */
  function QuerySlug(query: string): (r: string)
    ensures |r| == |query| && ' ' !in r
  {
    ReplaceChar(query, ' ', '-')
  }

  /** The optional "demanda=<param>&" part of a page URL. */
  function DemandPart(demandParam: Option<string>): string {
    if demandParam.Some? then "demanda=" + demandParam.value + "&" else ""
  }

  /** Everything of a `search` URL before the page number. */
  function SearchUrlHead(regionPath: string, slug: string): string {
    MainUrl + "/anuncios/" + regionPath + (if slug != "" then slug + ".htm" else "") + "?pagina="
  }

  /** The URL `search` fetches for page `page`, given the region part and the slugged query. */
  function SearchPageUrl(regionPath: string, slug: string, page: nat, demandParam: Option<string>): string {
    SearchUrlHead(regionPath, slug) + NatToString(page) + ("&" + DemandPart(demandParam))
  }

  /** The URL `search_category` fetches for page `page`. */
  function CategoryPageUrl(endpoint: string, page: nat, demandParam: Option<string>): string {
    (endpoint + "/?pagina=") + NatToString(page) + ("&" + DemandPart(demandParam))
  }

  /** Equal texts with the same prefix and suffix have the same middle. */
  lemma SameMiddle(p: string, x: string, y: string, q: string)
    requires p + x + q == p + y + q
    ensures x == y
  {
    assert |x| == |y|;
    assert x == (p + x + q)[|p|..|p| + |x|];
    assert y == (p + y + q)[|p|..|p| + |y|];
  }

  /** Different pages of one search have different URLs: the page number can be read back. */
  lemma SearchPageUrlInjective(regionPath: string, slug: string, p1: nat, p2: nat, demandParam: Option<string>)
    requires SearchPageUrl(regionPath, slug, p1, demandParam) == SearchPageUrl(regionPath, slug, p2, demandParam)
    ensures p1 == p2
  {
    SameMiddle(SearchUrlHead(regionPath, slug), NatToString(p1), NatToString(p2), "&" + DemandPart(demandParam));
    NatToStringInjective(p1, p2);
  }

  /** Different pages of one category search have different URLs. */
  lemma CategoryPageUrlInjective(endpoint: string, p1: nat, p2: nat, demandParam: Option<string>)
    requires CategoryPageUrl(endpoint, p1, demandParam) == CategoryPageUrl(endpoint, p2, demandParam)
    ensures p1 == p2
  {
    SameMiddle(endpoint + "/?pagina=", NatToString(p1), NatToString(p2), "&" + DemandPart(demandParam));
    NatToStringInjective(p1, p2);
  }

  // ---------------------------------------------------------- pagination

  /** The ads of the visited pages, concatenated in visiting order. */
  function Gathered<T>(visited: seq<string>, fetch: string -> seq<T>): seq<T> {
    if visited == [] then []
    else Gathered(visited[..|visited| - 1], fetch) + fetch(visited[|visited| - 1])
  }

  /**
   * `visited` is what the page loop fetches: the URLs of pages 1, 2, ... in
   * order, at most `pages` of them, every one but the last non-empty, and the
   * loop ends early only right after an empty page.
   */
  ghost predicate PageTrace<T>(pages: int, urlOf: nat -> string, fetch: string -> seq<T>, visited: seq<string>) {
    && |visited| <= (if pages > 0 then pages else 0)
    && (pages > 0 ==> |visited| > 0)
    && (forall i :: 0 <= i < |visited| ==> visited[i] == urlOf(i + 1))
    && (forall i :: 0 <= i < |visited| - 1 ==> fetch(visited[i]) != [])
    && (0 < |visited| < pages ==> fetch(visited[|visited| - 1]) == [])
  }

  /** The page loop of `search` and `search_category`: pages 1..pages in order, stopping after the first empty one. */
  method Paginate<T>(pages: int, urlOf: nat -> string, fetch: string -> seq<T>)
    returns (response: seq<T>, visited: seq<string>)
    ensures PageTrace(pages, urlOf, fetch, visited)
    ensures response == Gathered(visited, fetch)
  {
    response, visited := [], [];
    var page := 1;
    while page <= pages
      invariant 1 <= page <= (if pages > 0 then pages + 1 else 1)
      invariant |visited| == page - 1
      invariant forall i :: 0 <= i < |visited| ==> visited[i] == urlOf(i + 1)
      invariant forall i :: 0 <= i < |visited| ==> fetch(visited[i]) != []
      invariant response == Gathered(visited, fetch)
    {
      var url := urlOf(page);
      var newAds := fetch(url);
      visited := visited + [url];
      assert visited[..|visited| - 1] == visited[..page - 1];
      response := response + newAds;
      if newAds == [] {
        break;
      }
      page := page + 1;
    }
  }

  /** The trace is fully determined by the page count, the URLs and the pages' contents. */
  lemma PageTraceUnique<T>(pages: int, urlOf: nat -> string, fetch: string -> seq<T>, v1: seq<string>, v2: seq<string>)
    requires PageTrace(pages, urlOf, fetch, v1) && PageTrace(pages, urlOf, fetch, v2)
    ensures v1 == v2
  {
    if |v1| < |v2| {
      StoppedEarly(pages, urlOf, fetch, v1);
      NonEmptyBefore(pages, urlOf, fetch, v2, |v1|);
      assert false;
    } else if |v2| < |v1| {
      StoppedEarly(pages, urlOf, fetch, v2);
      NonEmptyBefore(pages, urlOf, fetch, v1, |v2|);
      assert false;
    }
  }

  /** A trace shorter than another ends at a page the longer one found non-empty. */
  lemma StoppedEarly<T>(pages: int, urlOf: nat -> string, fetch: string -> seq<T>, v: seq<string>)
    requires PageTrace(pages, urlOf, fetch, v) && 0 < pages && |v| < pages
    ensures fetch(urlOf(|v|)) == []
  {
  }

  /** Every page of a trace before its last one was non-empty. */
  lemma NonEmptyBefore<T>(pages: int, urlOf: nat -> string, fetch: string -> seq<T>, v: seq<string>, k: nat)
    requires PageTrace(pages, urlOf, fetch, v) && 0 < k < |v|
    ensures fetch(urlOf(k)) != []
  {
    assert v[k - 1] == urlOf(k);
  }

  /** `search`: the region is checked before any page is fetched, then pages are fetched as by the page loop. */
  method SearchQuery<T>(query: string, pages: int, region: Option<string>, offer: bool, demand: bool,
                        fetch: string -> seq<T>)
    returns (r: Result<seq<T>, Error>, visited: seq<string>)
    ensures r.Failure? <==> Given(region) && NormaliseRegion(region.value) !in Regions
    ensures r.Failure? ==> visited == [] && r.error == InvalidRegion(NormaliseRegion(region.value))
    ensures r.Success? ==>
      PageTrace(pages, (p: nat) => SearchPageUrl(SearchRegionPath(region).value, QuerySlug(query), p,
                                                 OfferDemandParser(offer, demand)), fetch, visited)
      && r.value == Gathered(visited, fetch)
  {
    var slug := QuerySlug(query);
    var regionPath := SearchRegionPath(region);
    if regionPath.Failure? {
      return Failure(regionPath.error), [];
    }
    var demandParam := OfferDemandParser(offer, demand);
    var response;
    response, visited := Paginate(pages, (p: nat) => SearchPageUrl(regionPath.value, slug, p, demandParam), fetch);
    r := Success(response);
  }
}
