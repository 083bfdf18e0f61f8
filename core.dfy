/**
 * The `MilAnuncios` scraper object of milanuncios/core.py with the state
 * its methods update: whether the account is logged in, the account page
 * kept from the login, and the two entries of its cache ("categories" and
 * "subcategories"). Pages are given as the data read from them: the
 * category links of the home page, the subcategory links of a category
 * page, the ads of a listing page and the pages `check_login` sees.
 */
module Core {
  import opened Wrappers
  import opened Strings
  import opened Dicts
  import opened AdRecords
  import opened Search
  import opened Login
  import Renewal

  /** A link read from a page: its title (or text) and its href. */
  datatype Anchor = Anchor(text: string, href: string)

  /** The categories parser's assignments: lower-cased title to absolute URL, in page order. */
  function CategoryPairs(mainUrl: string, home: seq<Anchor>): (ps: seq<(string, string)>)
    ensures |ps| == |home|
    ensures forall i :: 0 <= i < |home| ==> ps[i] == (Lower(home[i].text), mainUrl + home[i].href)
  {
    if home == [] then []
    else CategoryPairs(mainUrl, home[..|home| - 1]) + [(Lower(home[|home| - 1].text), mainUrl + home[|home| - 1].href)]
  }

  /** The dict the categories parser builds from the home page. */
  function CategoryDict(mainUrl: string, home: seq<Anchor>): Dict {
    FromPairs(Empty, CategoryPairs(mainUrl, home))
  }

  /** The categories dict lists each category once. */
  lemma CategoryDictWf(mainUrl: string, home: seq<Anchor>)
    ensures Wf(CategoryDict(mainUrl, home))
  {
    FromPairsWf(Empty, CategoryPairs(mainUrl, home));
  }

  /** The categories are exactly the lower-cased titles of the home page's links. */
  lemma CategoryDictKeys(mainUrl: string, home: seq<Anchor>, k: string)
    ensures k in CategoryDict(mainUrl, home).values <==> exists i :: 0 <= i < |home| && Lower(home[i].text) == k
  {
    var ps := CategoryPairs(mainUrl, home);
    FromPairsKeys(Empty, ps, k);
    if exists i :: 0 <= i < |ps| && ps[i].0 == k {
      var i :| 0 <= i < |ps| && ps[i].0 == k;
      assert Lower(home[i].text) == k;
    }
    if exists i :: 0 <= i < |home| && Lower(home[i].text) == k {
      var i :| 0 <= i < |home| && Lower(home[i].text) == k;
      assert ps[i].0 == k;
    }
  }

  /** A category maps to the main URL followed by the href of the last link with its title. */
  lemma CategoryDictLastWins(mainUrl: string, home: seq<Anchor>, i: nat)
    requires i < |home| && forall j :: i < j < |home| ==> Lower(home[j].text) != Lower(home[i].text)
    ensures Lower(home[i].text) in CategoryDict(mainUrl, home).values
    ensures CategoryDict(mainUrl, home).values[Lower(home[i].text)] == mainUrl + home[i].href
  {
    var ps := CategoryPairs(mainUrl, home);
    assert forall j :: i < j < |ps| ==> ps[j].0 != ps[i].0;
    FromPairsLastWins(Empty, ps, i);
  }

  /**
   * What `categories` returns. On a cache miss it fetches the home page and
   * returns the keys of the parsed dict; on a cache hit the lookup succeeds
   * and the property ends without a `return`, so it yields None.
   */
  function CategoriesResult(cached: Option<Dict>, parsed: Dict): Option<seq<string>> {
    if cached.Some? then None else Some(parsed.keys)
  }

  /** The "categories" cache entry after `categories`: kept when present, otherwise the freshly fetched dict. */
  function CategoriesAfter(cached: Option<Dict>, parsed: Dict): (r: Dict)
    ensures cached.Some? ==> r == cached.value
  {
    if cached.Some? then cached.value else parsed
  }

  /** Counterexample: a second `categories` finds the cache filled by the first and yields None instead of the list. */
  lemma SecondCategoriesYieldsNone(parsed: Dict, later: Dict)
    ensures CategoriesResult(None, parsed) == Some(parsed.keys)
    ensures CategoriesResult(Some(CategoriesAfter(None, parsed)), later) == None
  {
  }

  /** The evidently intended `categories`: the keys of the cached dict, fetching it first when absent. */
  function IntendedCategories(cached: Option<Dict>, parsed: Dict): (r: seq<string>)
    ensures r == CategoriesAfter(cached, parsed).keys
  {
    if cached.Some? then cached.value.keys else parsed.keys
  }

  /** With the intended return, every call lists the same categories as the first, whatever later pages hold. */
  lemma IntendedCategoriesStable(cached: Option<Dict>, parsed: Dict, later: Dict)
    ensures IntendedCategories(Some(CategoriesAfter(cached, parsed)), later) == IntendedCategories(cached, parsed)
    ensures cached.None? ==> IntendedCategories(cached, parsed) == parsed.keys
  {
  }

  /**
   * The subcategory parser's name rule: the lower-cased text, with one
   * trailing space dropped; an empty text fails on `name[-1]`.
   */
  function SubcategoryName(text: string): (r: Option<string>)
    ensures r.None? <==> text == []
    ensures r.Some? ==> |r.value| <= |text| <= |r.value| + 1 && r.value == Lower(text)[..|r.value|]
    ensures r.Some? && |r.value| < |text| ==> text[|text| - 1] == ' '
  {
    var name := Lower(text);
    if name == [] then None
    else if name[|name| - 1] == ' ' then Some(name[..|name| - 1])
    else Some(name)
  }

  /** One trailing space is dropped from a name, and only one. */
  lemma SubcategoryNameTrailingSpace(s: string)
    ensures SubcategoryName(s + " ") == Some(Lower(s))
  {
    assert Lower(s + " ") == Lower(s) + " ";
  }

  /** A name that does not end in a space is only lower-cased. */
  lemma SubcategoryNameNoSpace(s: string)
    requires s != [] && s[|s| - 1] != ' '
    ensures SubcategoryName(s) == Some(Lower(s))
  {
  }

  /** The number of leading links whose text is not empty: the subcategory parser gets through exactly these. */
  function NamedPrefix(links: seq<Anchor>): (n: nat)
    ensures n <= |links|
    ensures forall i :: 0 <= i < n ==> links[i].text != []
    ensures n < |links| ==> links[n].text == []
  {
    if links == [] || links[0].text == [] then 0 else 1 + NamedPrefix(links[1..])
  }

  /** The subcategory parser's assignments for links with non-empty texts: name to `prefix + href`. */
  function SubcategoryPairs(prefix: string, links: seq<Anchor>): (ps: seq<(string, string)>)
    requires forall i :: 0 <= i < |links| ==> links[i].text != []
    ensures |ps| == |links|
  {
    if links == [] then []
    else SubcategoryPairs(prefix, links[..|links| - 1])
           + [(SubcategoryName(links[|links| - 1].text).value, prefix + links[|links| - 1].href)]
  }

  /** The "subcategories" cache entry after a run of assignments: created by the first one when absent. */
  function AddAll(cache: Option<Dict>, ps: seq<(string, string)>): Option<Dict> {
    if ps == [] then cache
    else
      var last := ps[|ps| - 1];
      var before := AddAll(cache, ps[..|ps| - 1]);
      Some(Insert(if before.Some? then before.value else Empty, last.0, last.1))
  }

  /** The cache entry after a run of assignments is the old entry (or a new one) with the pairs assigned in turn. */
  lemma {:induction false} AddAllAssigns(cache: Option<Dict>, ps: seq<(string, string)>)
    ensures ps == [] ==> AddAll(cache, ps) == cache
    ensures ps != [] ==> AddAll(cache, ps) == Some(FromPairs(if cache.Some? then cache.value else Empty, ps))
  {
    if |ps| > 1 {
      AddAllAssigns(cache, ps[..|ps| - 1]);
    }
  }

  /** One more named link adds one assignment at the end. */
  lemma SubcategoryPairsStep(prefix: string, links: seq<Anchor>, i: nat)
    requires i < NamedPrefix(links)
    ensures SubcategoryPairs(prefix, links[..i + 1])
            == SubcategoryPairs(prefix, links[..i]) + [(SubcategoryName(links[i].text).value, prefix + links[i].href)]
  {
    assert links[..i + 1][..i] == links[..i];
  }

  /** One more assignment to the cache entry, creating it when absent. */
  lemma AddAllStep(cache: Option<Dict>, ps: seq<(string, string)>, k: string, v: string)
    ensures AddAll(cache, ps + [(k, v)])
            == Some(Insert(if AddAll(cache, ps).Some? then AddAll(cache, ps).value else Empty, k, v))
  {
    assert (ps + [(k, v)])[..|ps|] == ps;
  }

  /** One round of the subcategory parser extends both the result dict and the cache entry by the link's name. */
  lemma ParseStep(mainUrl: string, cache0: Option<Dict>, links: seq<Anchor>, i: nat)
    requires i < |links| && links[i].text != [] && i <= NamedPrefix(links)
    ensures i < NamedPrefix(links)
    ensures var name := SubcategoryName(links[i].text).value;
      && FromPairs(Empty, SubcategoryPairs("", links[..i + 1]))
         == Insert(FromPairs(Empty, SubcategoryPairs("", links[..i])), name, links[i].href)
      && var before := AddAll(cache0, SubcategoryPairs(mainUrl, links[..i]));
         AddAll(cache0, SubcategoryPairs(mainUrl, links[..i + 1]))
         == Some(Insert(if before.Some? then before.value else Empty, name, mainUrl + links[i].href))
  {
    var name := SubcategoryName(links[i].text).value;
    SubcategoryPairsStep("", links, i);
    SubcategoryPairsStep(mainUrl, links, i);
    AddAllStep(cache0, SubcategoryPairs(mainUrl, links[..i]), name, mainUrl + links[i].href);
    assert "" + links[i].href == links[i].href;
    FromPairsStep(Empty, SubcategoryPairs("", links[..i]), name, links[i].href);
  }

  /** The URL of each listing page of a category endpoint, filtered by region and offer/demand. */
  function CategoryUrlOf(endpoint: string, region: Option<string>, offer: bool, demand: bool): nat -> string {
    (p: nat) => CategoryPageUrl(CategoryRegionEndpoint(endpoint, region), p, OfferDemandParser(offer, demand))
  }

  /** The pages visited and the ads gathered by `search_category` from a resolved endpoint. */
  ghost predicate Listed<T>(endpoint: string, pages: int, region: Option<string>, offer: bool, demand: bool,
                            fetch: string -> seq<T>, visited: seq<string>, ads: seq<T>) {
    PageTrace(pages, CategoryUrlOf(endpoint, region, offer, demand), fetch, visited) && ads == Gathered(visited, fetch)
  }

  /**
   * The parser of `subcategories`, applied to the page's links in class
   * order: each name is assigned its href in the result and the absolute
   * URL in the "subcategories" cache entry (created when absent). An empty
   * link text stops the parse with IndexError; the entry keeps the
   * assignments made before it.
   */
  method ParseSubcategoryLinks(mainUrl: string, cache: Option<Dict>, links: seq<Anchor>)
    returns (r: Result<seq<string>, Error>, after: Option<Dict>)
    requires cache.Some? ==> Wf(cache.value)
    ensures after.Some? ==> Wf(after.value)
    ensures after == AddAll(cache, SubcategoryPairs(mainUrl, links[..NamedPrefix(links)]))
    ensures NamedPrefix(links) < |links| ==> r == Failure(EmptyName)
    ensures NamedPrefix(links) == |links| ==> r == Success(FromPairs(Empty, SubcategoryPairs("", links)).keys)
  {
    ghost var n := NamedPrefix(links);
    var response := Empty;
    after := cache;
    for i := 0 to |links|
      invariant i <= n
      invariant response == FromPairs(Empty, SubcategoryPairs("", links[..i]))
      invariant after == AddAll(cache, SubcategoryPairs(mainUrl, links[..i]))
      invariant after.Some? ==> Wf(after.value)
    {
      var name := SubcategoryName(links[i].text);
      if name.None? {
        assert i == n;
        return Failure(EmptyName), after;
      }
      ParseStep(mainUrl, cache, links, i);
      response := Insert(response, name.value, links[i].href);
      var current := if after.Some? then after.value else Empty;
      after := Some(Insert(current, name.value, mainUrl + links[i].href));
    }
    assert links[..|links|] == links;
    r := Success(response.keys);
  }

  /** `if subcategory:` — a subcategory was passed and it is not empty. */
  predicate SubcategoryGiven(subcategory: Option<string>) {
    subcategory.Some? && subcategory.value != []
  }

  /**
   * The ads `my_ads` reads: those of the page kept from an earlier login,
   * or else those of the page a new login ends on; a failed login is
   * MilAnunciosLoginError.
   */
  function AccountAds(mainUrl: string, logged: bool, soup: Option<Page>, check: nat -> Page, attempts: int)
    : Result<seq<Ad>, Error>
    requires logged ==> soup.Some?
  {
    if logged then AdInfos(mainUrl, soup.value.containers)
    else
      match LoginOutcome(check, attempts)
      case Failure(e) => Failure(e)
      case Success(page) => AdInfos(mainUrl, page.containers)
  }

  class MilAnuncios {
    const mainUrl: string
    var logged: bool
    var loggedSoup: Option<Page>
    var categoriesCache: Option<Dict>
    var subcategoriesCache: Option<Dict>

    /** A logged-in object keeps the account page, and both cache entries are dicts. */
    ghost predicate Valid()
      reads this
    {
      && (logged ==> loggedSoup.Some?)
      && (categoriesCache.Some? ==> Wf(categoriesCache.value))
      && (subcategoriesCache.Some? ==> Wf(subcategoriesCache.value))
    }

    /** A new scraper over the cache it is given, not logged in. */
    constructor (cachedCategories: Option<Dict>, cachedSubcategories: Option<Dict>)
      requires cachedCategories.Some? ==> Wf(cachedCategories.value)
      requires cachedSubcategories.Some? ==> Wf(cachedSubcategories.value)
      ensures Valid() && mainUrl == MainUrl && !logged && loggedSoup == None
      ensures categoriesCache == cachedCategories && subcategoriesCache == cachedSubcategories
    {
      mainUrl := MainUrl;
      logged := false;
      loggedSoup := None;
      categoriesCache := cachedCategories;
      subcategoriesCache := cachedSubcategories;
    }

    /**
     * `categories`: on a cache miss the home page is parsed and stored;
     * on a hit nothing is fetched and None comes back.
     */
    method Categories(home: seq<Anchor>) returns (r: Option<seq<string>>)
      requires Valid()
      modifies this
      ensures Valid()
      ensures r == CategoriesResult(old(categoriesCache), CategoryDict(mainUrl, home))
      ensures categoriesCache == Some(CategoriesAfter(old(categoriesCache), CategoryDict(mainUrl, home)))
      ensures logged == old(logged) && loggedSoup == old(loggedSoup) && subcategoriesCache == old(subcategoriesCache)
    {
      if categoriesCache.Some? {
        return None;
      }
      var pairs := CategoryPairs(mainUrl, home);
      var response := Empty;
      for i := 0 to |home|
        invariant response == FromPairs(Empty, pairs[..i])
      {
        assert pairs[..i + 1][..i] == pairs[..i];
        response := Insert(response, Lower(home[i].text), mainUrl + home[i].href);
      }
      assert pairs[..|home|] == pairs;
      FromPairsWf(Empty, pairs);
      if categoriesCache.None? {
        categoriesCache := Some(response);
      }
      r := Some(response.keys);
    }

    /**
     * `subcategories`: fills the categories entry first when it is absent,
     * looks the category up as given, then parses its page, storing each
     * subcategory in the cache as it goes; an empty link text stops the
     * parse with the earlier assignments kept.
     */
    method Subcategories(category: string, home: seq<Anchor>, subPage: string -> seq<Anchor>)
      returns (r: Result<seq<string>, Error>)
      requires Valid()
      modifies this
      ensures Valid()
      ensures logged == old(logged) && loggedSoup == old(loggedSoup)
      ensures categoriesCache == Some(CategoriesAfter(old(categoriesCache), CategoryDict(mainUrl, home)))
      ensures var cats := CategoriesAfter(old(categoriesCache), CategoryDict(mainUrl, home));
        category !in cats.values ==> r == Failure(CategoryNotFound(category)) && subcategoriesCache == old(subcategoriesCache)
      ensures var cats := CategoriesAfter(old(categoriesCache), CategoryDict(mainUrl, home));
        category in cats.values ==>
          var links := subPage(cats.values[category]);
          var n := NamedPrefix(links);
          && subcategoriesCache == AddAll(old(subcategoriesCache), SubcategoryPairs(mainUrl, links[..n]))
          && (n < |links| ==> r == Failure(EmptyName))
          && (n == |links| ==> r == Success(FromPairs(Empty, SubcategoryPairs("", links)).keys))
    {
      if categoriesCache.None? {
        var _ := Categories(home);
      }
      var cats := categoriesCache.value;
      if category !in cats.values {
        return Failure(CategoryNotFound(category));
      }
      r, subcategoriesCache := ParseSubcategoryLinks(mainUrl, subcategoriesCache, subPage(cats.values[category]));
    }

    /**
     * `search_category`: the endpoint comes from the subcategory cache
     * (reloaded through `subcategories` on a miss) or from the category
     * cache (reloaded through `categories` on a miss); a missing key is a
     * KeyError. A listed region is spliced into the endpoint, an unlisted
     * one is ignored, and pages are fetched as by the page loop.
     */
    method SearchCategory<T>(category: string, subcategory: Option<string>, pages: int, region: Option<string>,
                             offer: bool, demand: bool,
                             home: seq<Anchor>, subPage: string -> seq<Anchor>, fetch: string -> seq<T>)
      returns (r: Result<seq<T>, Error>, visited: seq<string>)
      requires Valid()
      modifies this
      ensures Valid()
      ensures logged == old(logged) && loggedSoup == old(loggedSoup)
      ensures r.Failure? ==> visited == []
      ensures !SubcategoryGiven(subcategory) ==>
        var cats := CategoriesAfter(old(categoriesCache), CategoryDict(mainUrl, home));
        var key := Lower(category);
        && categoriesCache == Some(cats) && subcategoriesCache == old(subcategoriesCache)
        && (key in cats.values ==> r.Success? && Listed(cats.values[key], pages, region, offer, demand, fetch, visited, r.value))
        && (key !in cats.values ==> r == Failure(MissingKey(key)))
      ensures SubcategoryGiven(subcategory) && old(subcategoriesCache).Some?
              && Lower(subcategory.value) in old(subcategoriesCache).value.values ==>
        && categoriesCache == old(categoriesCache) && subcategoriesCache == old(subcategoriesCache)
        && r.Success?
        && Listed(old(subcategoriesCache).value.values[Lower(subcategory.value)], pages, region, offer, demand, fetch,
                  visited, r.value)
      ensures SubcategoryGiven(subcategory) && !(old(subcategoriesCache).Some?
              && Lower(subcategory.value) in old(subcategoriesCache).value.values) ==>
        var cats := CategoriesAfter(old(categoriesCache), CategoryDict(mainUrl, home));
        var key := Lower(subcategory.value);
        && categoriesCache == Some(cats)
        && (category !in cats.values ==> r == Failure(CategoryNotFound(category)) && subcategoriesCache == old(subcategoriesCache))
        && (category in cats.values ==>
              var links := subPage(cats.values[category]);
              var n := NamedPrefix(links);
              && subcategoriesCache == AddAll(old(subcategoriesCache), SubcategoryPairs(mainUrl, links[..n]))
              && (n < |links| ==> r == Failure(EmptyName))
              && (n == |links| ==> (r.Success? <==> subcategoriesCache.Some? && key in subcategoriesCache.value.values))
              && (n == |links| && subcategoriesCache.None? ==> r == Failure(MissingKey("subcategories")))
              && (n == |links| && subcategoriesCache.Some? && key !in subcategoriesCache.value.values ==>
                    r == Failure(MissingKey(key))))
      ensures SubcategoryGiven(subcategory) && r.Success? ==>
        && subcategoriesCache.Some? && Lower(subcategory.value) in subcategoriesCache.value.values
        && Listed(subcategoriesCache.value.values[Lower(subcategory.value)], pages, region, offer, demand, fetch,
                  visited, r.value)
    {
      var endpoint: string;
      if SubcategoryGiven(subcategory) {
        var key := Lower(subcategory.value);
        if subcategoriesCache.Some? && key in subcategoriesCache.value.values {
          endpoint := subcategoriesCache.value.values[key];
        } else {
          var loaded := Subcategories(category, home, subPage);
          if loaded.Failure? {
            return Failure(loaded.error), [];
          }
          if subcategoriesCache.None? {
            return Failure(MissingKey("subcategories")), [];
          }
          if key !in subcategoriesCache.value.values {
            return Failure(MissingKey(key)), [];
          }
          endpoint := subcategoriesCache.value.values[key];
        }
      } else {
        var key := Lower(category);
        if !(categoriesCache.Some? && key in categoriesCache.value.values) {
          var _ := Categories(home);
          if key !in categoriesCache.value.values {
            return Failure(MissingKey(key)), [];
          }
        }
        endpoint := categoriesCache.value.values[key];
      }
      var response;
      response, visited := Paginate(pages, CategoryUrlOf(endpoint, region, offer, demand), fetch);
      r := Success(response);
    }

    /** `login`: on success the object is logged in and keeps the last page checked. */
    method LogIn(check: nat -> Page, missing: nat -> bool, boxes: nat -> bool, remember: bool, attempts: int)
      returns (r: Result<bool, Error>)
      requires Valid()
      modifies this
      ensures Valid()
      ensures r.Success? <==> LoginOutcome(check, attempts).Success?
      ensures r.Success? ==> r.value && logged && loggedSoup == Some(LoginOutcome(check, attempts).value)
      ensures r.Failure? ==> r.error == LoginFailed && logged == old(logged) && loggedSoup == old(loggedSoup)
      ensures categoriesCache == old(categoriesCache) && subcategoriesCache == old(subcategoriesCache)
    {
      var outcome, _ := RetryLogin(check, missing, boxes, remember, attempts);
      if outcome.Failure? {
        return Failure(outcome.error);
      }
      logged := true;
      loggedSoup := Some(outcome.value);
      r := Success(true);
    }

    /**
     * `my_ads`: logs in first unless already logged in, then reads the ads
     * of the account page kept from the login.
     */
    method MyAds(check: nat -> Page, missing: nat -> bool, boxes: nat -> bool, remember: bool, attempts: int)
      returns (r: Result<seq<Ad>, Error>)
      requires Valid()
      modifies this
      ensures Valid()
      ensures categoriesCache == old(categoriesCache) && subcategoriesCache == old(subcategoriesCache)
      ensures r == AccountAds(mainUrl, old(logged), old(loggedSoup), check, attempts)
      ensures old(logged) ==> logged && loggedSoup == old(loggedSoup)
      ensures !old(logged) && LoginOutcome(check, attempts).Failure? ==>
        r == Failure(LoginFailed) && !logged && loggedSoup == old(loggedSoup)
      ensures !old(logged) && LoginOutcome(check, attempts).Success? ==>
        && logged && loggedSoup == Some(LoginOutcome(check, attempts).value)
        && r == AdInfos(mainUrl, LoginOutcome(check, attempts).value.containers)
      ensures r.Success? ==> logged && r == AdInfos(mainUrl, loggedSoup.value.containers)
      ensures logged ==> r == AdInfos(mainUrl, loggedSoup.value.containers)
    {
      if !logged {
        var login := LogIn(check, missing, boxes, remember, attempts);
        if login.Failure? {
          return Failure(login.error);
        }
      }
      var soup := loggedSoup.value;
      r := ParseAds(mainUrl, soup.containers);
    }

    /**
     * `renew_ads`: reads the account's ads (logging in if needed) and
     * renews the eligible ones in order; `renewed` lists the ads the
     * renewal dialog was opened for.
     */
    method RenewAds(check: nat -> Page, missing: nat -> bool, boxes: nat -> bool, remember: bool, attempts: int,
                    ads: Option<seq<string>>, number: Option<int>)
      returns (r: Result<Option<nat>, Error>, renewed: seq<Ad>, notFound: seq<string>)
      requires Valid()
      modifies this
      ensures Valid()
      ensures categoriesCache == old(categoriesCache) && subcategoriesCache == old(subcategoriesCache)
      ensures old(logged) ==> logged && loggedSoup == old(loggedSoup)
      ensures !old(logged) ==> logged == LoginOutcome(check, attempts).Success?
      ensures !old(logged) && LoginOutcome(check, attempts).Success? ==>
        loggedSoup == Some(LoginOutcome(check, attempts).value)
      ensures var listed := AccountAds(mainUrl, old(logged), old(loggedSoup), check, attempts);
        && (r.Success? <==> listed.Success?)
        && (listed.Failure? ==> r == Failure(listed.error))
        && (listed.Success? ==>
              && renewed == Renewal.RenewedAds(listed.value, ads)
              && (listed.value == [] ==> r.value == None && notFound == [])
              && (listed.value != [] ==> r.value == Some(|renewed|) && notFound == Renewal.NotFoundReported(listed.value, ads)))
      ensures r.Failure? ==> renewed == [] && notFound == []
      ensures r.Success? ==>
        && logged && AdInfos(mainUrl, loggedSoup.value.containers).Success?
        && var all := AdInfos(mainUrl, loggedSoup.value.containers).value;
           && renewed == Renewal.RenewedAds(all, ads)
           && (all == [] ==> r.value == None && notFound == [])
           && (all != [] ==> r.value == Some(|renewed|) && notFound == Renewal.NotFoundReported(all, ads))
    {
      var allAds := MyAds(check, missing, boxes, remember, attempts);
      if allAds.Failure? {
        return Failure(allAds.error), [], [];
      }
      var count;
      count, renewed, notFound := Renewal.RenewAds(allAds.value, ads, number);
      r := Success(count);
    }
  }
}
