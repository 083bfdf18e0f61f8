# milanuncios — a verified model of the scraper's decision logic

milanuncios is a Python scraper for the Spanish classifieds site
milanuncios.com. It drives Firefox through Selenium, parses pages with
BeautifulSoup, and offers searches, category listings, a login, the list of
the account's own ads and the periodic renewal of those ads. This project
models the logic that sits between the browser and the HTML. The browser and
the pages become plain inputs: the texts read from a page, a function from
URL to the ads on that page, and the sequence of pages the login check sees.
The project proves what that logic does with those inputs.

Modules, one per concern of the source:

- `Wrappers` (wrappers.dfy): `Option`, `Result`, and the exceptions the code raises, as constructors of `Error`.
- `Strings` (strings.dfy): the Python string builtins the code relies on. These are ASCII digits, `int()` of a digit string and `"%d"`, substring search (`k in s`), `str.split`, single-character `replace`, and ASCII `lower`/`upper`. Each comes with the lemmas the rest of the model needs, such as `Join(Split(s, d), d) == s`.
- `Utils` (utils.dfy): `extract_number` and `parse_string_to_timedelta` from milanuncios/utils.py. Both are loops, each proved against a specification function. Durations are integers in seconds.
- `Search` (search.dfy): `_offer_demand_parser`, the hard-coded `regions`, region normalisation, the URLs of `search` and `search_category`, and the page loop shared by both, plus `search` itself.
- `AdRecords` (adrecords.dfy): `get_ad_info` and the loop of `my_ads` that applies it to every ad container of the account page.
- `Renewal` (renewal.dfy): the selection, eligibility and `stats` bookkeeping of `renew_ads`.
- `Login` (login.dfy): the retry loop of `login`.
- `Dicts` (dicts.dfy): Python's insertion-ordered dicts, as used by the two cache entries.
- `Core` (core.dfy): the `MilAnuncios` object with the state its methods update. That state is `logged`, the account page kept from the login, and the "categories" and "subcategories" entries of its cache. Its methods are `categories`, `subcategories`, `search_category`, `login`, `my_ads` and `renew_ads`.

## Model

| member | source | states |
|---|---|---|
| Strings.DecimalValueOfNatToString | milanuncios/utils.py:28 | reading back the decimal spelling of n with `int()` gives n |
| Strings.NatToStringInjective | milanuncios/core.py:342 | different page numbers are spelled differently by `%d` |
| Strings.IndexOf | milanuncios/utils.py:42 | the index found is an occurrence of the keyword and no earlier index is; None means it occurs nowhere (`inp in string`) |
| Strings.JoinSplit | milanuncios/core.py:508 | joining the pieces of `str.split` with the separator gives the text back |
| Strings.SplitPiecesFree | milanuncios/core.py:508 | no piece of `str.split` contains the separator |
| Strings.SplitOnce | milanuncios/core.py:508 | for a separator whose first character does not recur in it, such as "Caduca en ", one separator between two separator-free texts splits into exactly those two texts |
| Strings.SplitTwice | milanuncios/core.py:508 | for a separator whose first character does not recur in it, such as "Caduca en ", two separators between separator-free texts split into exactly three pieces |
| Utils.DigitsOf | milanuncios/utils.py:24-27 | only digit characters are kept, never more characters than the text has |
| Utils.ExtractNumber | milanuncios/utils.py:22-28 | the loop keeps the digits in order and parses them; it fails exactly when the text has no digit; the number is never negative |
| Utils.DigitsOfEmpty | milanuncios/utils.py:24-28 | nothing is kept exactly when the text holds no digit, which makes `int("")` raise |
| Utils.DigitsOfAppend | milanuncios/utils.py:25-27 | the digits of a concatenation are the digits of each part, in order, wherever they sit |
| Utils.DigitsOfAllDigits | milanuncios/utils.py:25-27 | a text made only of digits is kept whole |
| Utils.DigitsOfCounts | milanuncios/utils.py:25-27 | each digit character is kept exactly as many times as it occurs, and no other character is kept |
| Utils.DigitsOfHourAndMinutes | milanuncios/utils.py:22-28 | "1 hora 30 min" yields the digits "130" |
| Utils.ParseStringToTimedelta | milanuncios/utils.py:30-46 | the table scan stops at the first keyword contained in the text, and the result is that many units in seconds |
| Utils.UnitPriority | milanuncios/utils.py:32-44 | hours keywords win over days keywords, which win over "seg", which wins over "min" |
| Utils.DurationOfNumberAndKeyword | milanuncios/utils.py:32-46 | "n keyword" gives n times 3600, 86400, 1 or 60 seconds, for every spelling in the table, singular, plural, accented or not |
| Utils.FourHours | milanuncios/utils.py:31 | the documented example "4 horas" is four hours |
| Utils.HourAndMinutes | milanuncios/utils.py:40-46 | "1 hora 30 min" is read as 130 hours, since all digits are joined and "hora" wins |
| Utils.DurationErrors | milanuncios/utils.py:40-46 | ValueError exactly when there is no digit; UnboundLocalError exactly when there are digits but no keyword; otherwise a non-negative duration |
| Utils.NoKeywordNoMatch | milanuncios/utils.py:41-44 | the scan finds nothing exactly when no keyword of the table occurs in the text |
| Search.OfferDemandParser | milanuncios/core.py:197-206 | "n" exactly for offers only, "s" exactly for demands only, None exactly when both or neither are set |
| Search.NormaliseRegionNormal | milanuncios/core.py:330 | a normalised region has no space and no upper-case letter; normalising is idempotent and leaves normal names alone |
| Search.SearchRegionPath | milanuncios/core.py:326-334 | a given region whose normal form is unlisted raises ValueError naming it; a listed one adds "-en-<region>/"; none adds nothing |
| Search.CategoryRegionEndpoint | milanuncios/core.py:385-388 | in `search_category` an absent or unlisted region leaves the endpoint unchanged |
| Search.UnlistedRegion | milanuncios/core.py:329-334 | the same unlisted region makes `search` raise and is ignored by `search_category` |
| Search.QuerySlug | milanuncios/core.py:324 | the query keeps its length and loses every space |
| Search.SearchPageUrlInjective | milanuncios/core.py:339-344 | different page numbers give different `search` URLs |
| Search.CategoryPageUrlInjective | milanuncios/core.py:394-396 | different page numbers give different `search_category` URLs |
| Search.Paginate | milanuncios/core.py:338-349 | fetches pages 1, 2, ... in order, at most `pages` of them, and stops right after the first empty page; returns the concatenated ads |
| Search.PageTraceUnique | milanuncios/core.py:393-401 | the pages fetched are determined by the page count and the pages' contents |
| Search.StoppedEarly | milanuncios/core.py:347-349 | a loop that stopped before `pages` stopped on an empty page |
| Search.NonEmptyBefore | milanuncios/core.py:345-349 | every page fetched before the last one held ads |
| Search.SearchQuery | milanuncios/core.py:311-353 | an invalid region raises before any fetch; otherwise the pages fetched are those of the page loop over the `search` URLs, and the ads are theirs |
| AdRecords.GetAdInfo | milanuncios/core.py:495-533 | builds the record of one ad container as `AdInfo` defines it |
| AdRecords.ParseAds | milanuncios/core.py:535-538 | the loop equals the listing `AdInfos`: it succeeds exactly when every container gives a record; record i is then `get_ad_info` of container i; a failure is the error of the first container that fails |
| AdRecords.GatherSuccessIff | milanuncios/core.py:535-538 | the listing succeeds exactly when every container gives a record |
| AdRecords.GatherRecords | milanuncios/core.py:535-538 | a successful listing has one record per container, record i being that of container i |
| AdRecords.GatherFirstFailure | milanuncios/core.py:535-538 | a failed listing carries the error of the first failing container, every earlier one having given a record |
| AdRecords.GatherFailureStays | milanuncios/core.py:536-538 | once a container fails, the listing fails with that error |
| AdRecords.AdInfoSuccess | milanuncios/core.py:502-526 | a record keeps the title, href and photos flag; its description and expiry come from either side of the one "Caduca en " in the text; its times are non-negative |
| AdRecords.AdInfoWithoutDelimiter | milanuncios/core.py:508 | a text without "Caduca en " cannot be unpacked (ValueError) |
| AdRecords.AdInfoWithTwoDelimiters | milanuncios/core.py:508 | a text with "Caduca en " twice cannot be unpacked either |
| AdRecords.AdInfoWithOneDelimiter | milanuncios/core.py:508-520 | with exactly one "Caduca en " the record exists exactly when both durations parse, and the description is the text before it |
| Renewal.RenewAds | milanuncios/core.py:567-652 | an empty inventory returns None; otherwise it returns the count of renewals; the renewed ads and the titles warned about follow the specification functions |
| Renewal.RenewedIff | milanuncios/core.py:621-634 | an ad is renewed exactly when it is in the inventory, targeted, and was last renewed strictly more than 24 hours ago |
| Renewal.RenewedAppend | milanuncios/core.py:621 | renewals happen in inventory order |
| Renewal.RenewedAtMostInventory | milanuncios/core.py:633-634 | the count returned is at most the number of ads |
| Renewal.EmptyTitlesAsNone | milanuncios/core.py:578-623 | an empty list of titles behaves as no list: every eligible ad, and no title reported |
| Renewal.AllEligibleWithoutTitles | milanuncios/core.py:628-632 | without titles, exactly the ads last renewed more than 24 hours ago are renewed |
| Renewal.FoundLogCounts | milanuncios/core.py:602-629 | with titles, the found counter counts every match twice; without titles, once per ad |
| Renewal.FoundLogMembers | milanuncios/core.py:604-627 | the found list holds the titles of the matched ads, not the requested titles |
| Renewal.OnlyTheOldAdRenewed | milanuncios/core.py:607-631 | of an ad renewed 30 hours ago and one renewed 2 hours ago, only the first is renewed |
| Renewal.ExactlyOneDayIsTooSoon | milanuncios/core.py:607-631 | an ad renewed exactly 24 hours ago is not renewed |
| Renewal.UnmatchedTitles | milanuncios/core.py:638-645 | the titles no ad answers to, by its title or its upper-cased title |
| Renewal.NotFoundMissesUnmatched | milanuncios/core.py:640-645 | a requested title matching nothing can go unreported |
| Renewal.NotFoundBlamesMatched | milanuncios/core.py:643-645 | a title matched through upper-casing is reported as not found |
| Login.RememberMe | milanuncios/core.py:424-426 | the remember-me box ends equal to `remember` |
| Login.RetryLogin | milanuncios/core.py:414-467 | the loop's outcome is `LoginOutcome` whatever the form elements do: a missing element counts as a passed attempt; the remember-me box is set once per submission whose input fields were there, up to the last page checked, and is left equal to `remember` each time |
| Login.LoopBounded | milanuncios/core.py:448-462 | at most `attempts` rounds, one page check each |
| Login.LoopEndsAtZero | milanuncios/core.py:448-462 | the counter ends at 0 exactly when it was 0, or when it was positive and no page checked showed a login |
| Login.LoopStopsLoggedIn | milanuncios/core.py:454-461 | the loop stops on a logged-in page, unless the counter ran out or was never positive |
| Login.LoopKeepsSign | milanuncios/core.py:448-462 | a positive counter never goes negative; a non-positive one skips the loop |
| Login.LoginFailsIff | milanuncios/core.py:464-467 | login raises exactly when `attempts` is 0, or when it is positive and none of the first attempts+1 pages shows a login |
| Login.LoginSuccessLoggedIn | milanuncios/core.py:469-472 | with a non-negative counter, a successful login keeps a logged-in page, one of those checked |
| Login.NegativeAttemptsNeverFail | milanuncios/core.py:448-464 | a negative counter never raises, even when no page shows a login |
| Login.ZeroAttemptsFailWhenLoggedIn | milanuncios/core.py:443-464 | `attempts=0` raises even when the account page already shows a login |
| Login.IntendedLoginOutcome | milanuncios/core.py:464-467 | with the evidently intended guard, success means the page kept is logged in |
| Login.IntendedLoginIff | milanuncios/core.py:447-467 | with that guard, login succeeds exactly when one of the pages it may check shows a login |
| Dicts.Insert | milanuncios/core.py:241 | `d[k] = v` keeps a dict well formed and maps k to v |
| Dicts.InsertLeavesOthers | milanuncios/core.py:241-280 | `d[k] = v` leaves other keys, their values and the key order alone |
| Dicts.FromPairsWf | milanuncios/core.py:239-241 | assignments in a loop keep a dict well formed |
| Dicts.FromPairsKeys | milanuncios/core.py:239-241 | the keys after the loop are the old keys and those assigned |
| Dicts.FromPairsLastWins | milanuncios/core.py:239-241 | the last assignment to a key wins |
| Dicts.FromPairsKeepsOrder | milanuncios/core.py:247-281 | keys already present keep their places in `keys()` |
| Core.CategoryDictWf | milanuncios/core.py:237-241 | the categories dict lists each category once |
| Core.CategoryDictKeys | milanuncios/core.py:238-241 | the categories are exactly the lower-cased titles of the home page's category links |
| Core.CategoryDictLastWins | milanuncios/core.py:241 | a category maps to the main URL followed by the href of its last link |
| Core.CategoriesAfter | milanuncios/core.py:242-251 | an existing "categories" entry is never replaced |
| Core.SecondCategoriesYieldsNone | milanuncios/core.py:248-252 | the first call lists the categories; a second call finds the cache filled and yields None |
| Core.IntendedCategories | milanuncios/core.py:248-252 | the evidently intended result lists the keys of the cache entry as it stands after the call |
| Core.IntendedCategoriesStable | milanuncios/core.py:248-252 | with that result, every call lists the same categories as the first |
| Core.SubcategoryName | milanuncios/core.py:271-273 | the name is the lower-cased text less at most one trailing space; an empty text raises IndexError |
| Core.SubcategoryNameTrailingSpace | milanuncios/core.py:272-273 | exactly one trailing space is dropped |
| Core.SubcategoryNameNoSpace | milanuncios/core.py:271-273 | a text not ending in a space is only lower-cased |
| Core.NamedPrefix | milanuncios/core.py:270-272 | the parser gets through exactly the leading links with non-empty texts |
| Core.AddAllAssigns | milanuncios/core.py:276-280 | the "subcategories" entry is created by the first assignment and then assigned in turn |
| Core.MilAnuncios.constructor | milanuncios/core.py:57-83 | a new object is not logged in and uses the cache it is given |
| Core.MilAnuncios.Categories | milanuncios/core.py:229-252 | on a miss, parses the home page, stores the dict and returns its keys; on a hit, fetches nothing, changes nothing and returns None |
| Core.MilAnuncios.Subcategories | milanuncios/core.py:283-293 | loads the categories only when absent; an unknown category (looked up as given) raises ValueError and touches no subcategory; otherwise parses its page |
| Core.ParseSubcategoryLinks | milanuncios/core.py:264-281 | each name goes into the result and, as an absolute URL, into the cache; an empty text raises IndexError with the earlier assignments kept |
| Core.MilAnuncios.SearchCategory | milanuncios/core.py:355-405 | the endpoint comes from the subcategory or category cache; a subcategory miss reloads through `subcategories`, whose error (unknown category, empty link text) is raised and whose cache update is kept; the search then succeeds exactly when the reloaded cache holds the subcategory, KeyError otherwise; a category miss reloads through `categories`, which cannot help when the categories entry exists; the pages are those of the page loop |
| Core.MilAnuncios.LogIn | milanuncios/core.py:407-472 | on success the object is logged in and keeps the last page checked; on failure MilAnunciosLoginError and nothing changes |
| Core.MilAnuncios.MyAds | milanuncios/core.py:487-546 | the ads are those of the page kept from an earlier login, or else, after a successful login, those of the page the login ends on, which is then kept; a failed login raises and leaves the object logged out |
| Core.MilAnuncios.RenewAds | milanuncios/core.py:567-652 | succeeds exactly when the account's ads can be read (logging in if needed), failing with that error otherwise; on success the renewed ads, the count and the titles warned about are those `renew_ads` selects from those ads |

## Left out

- Selenium and the HTML: `browser.get`, `find_element_*`, clicks, frames, `page_source`, BeautifulSoup queries and the tag stripping of `repr(tag)`. Pages are inputs: the texts an ad container yields (`Container`), the links of the home page and of a category page (`Anchor`), a function from URL to the ads of a listing page, and the pages the login check sees.
- The body of `renew`, which clicks through the renewal dialog: modelled as an action that always returns True and records the ad it was applied to.
- `_ads_parser` (title, description and price of a listing's ads): the ads of a listing page are an abstract `fetch` result.
- `_get_regions`, `__call__`, `current_soup`, `kill_firefox`, `_start_session`, `_start_in_raspberry`, `_end_session`, `__enter__`/`__exit__`: browser, process and display management with no decision logic.
- `_initialize_cache` (milanuncios/core.py:99-103): the cache-warming loop calling `subcategories` for each category that `categories` lists is not modelled as a member. Each call it makes is modelled (`Core.MilAnuncios.Categories`, `Core.MilAnuncios.Subcategories`). When the categories entry is already filled, `categories` returns None and the loop iterates over None (see Findings).
- Sleeps and random jitter, logging (including the counts in the warnings; only the titles warned about as not found are modelled), `tqdm` and the pandas `DataFrame` built from the results.
- `create_logger` in milanuncios/utils.py and its stale copy under build/lib.
- Exceptions other than those in `Error`: a `None` `.string` on a subcategory link, an HTML element missing from an ad container, and Selenium errors other than NoSuchElementException during the login.
- `timedelta` overflow: durations are unbounded integers of seconds.
- Unicode: `str.isdigit` accepts digits beyond '0'..'9' that `int()` then rejects, and `lower`/`upper` map non-ASCII letters. The model treats only ASCII digits as digits and only ASCII letters as having case.
- The `Cache(24)` default argument, which is shared by every object that does not pass its own cache: the constructor takes the cache content as a parameter instead. The size bound of 24 never matters, since only two keys are stored.
- Renewal.RenewAds: `number` is documented as a cap on renewals (milanuncios/core.py:560-562) but the code never reads it, so the model ignores it too.
- Utils.ExtractNumber: a text without digits raises ValueError, as the code does (`int("")`); it does not yield 0.

## Findings

| source | as written | input that shows it | evidently intended | confidence | as-written member | corrected member |
|---|---|---|---|---|---|---|
| milanuncios/core.py:248-252 | on a cache hit `categories` falls off the end and returns None | any second call of `categories` on the same cache, e.g. `_initialize_cache` with a filled cache iterates over None | return the keys of the cached dict | high, not executed | Core.SecondCategoriesYieldsNone | Core.IntendedCategories |
| milanuncios/core.py:464 | login raises only when `attempts == 0` after the loop | `attempts=-1` with no page logged in: login returns True and sets `logged` | raise exactly when the last page checked is not logged in | medium, not executed | Login.NegativeAttemptsNeverFail | Login.IntendedLoginOutcome |
| milanuncios/core.py:464 | login raises only when `attempts == 0` after the loop | `attempts=0` on a session already logged in: MilAnunciosLoginError | raise exactly when the last page checked is not logged in | medium, not executed | Login.ZeroAttemptsFailWhenLoggedIn | Login.IntendedLoginOutcome |
| milanuncios/core.py:625-640 | each matched ad is counted twice in `ads_found` | one ad "A", titles ["A", "X"]: the count reaches 2, so "X" is never reported | report every requested title no ad answers to | high, not executed | Renewal.NotFoundMissesUnmatched | Renewal.UnmatchedTitles |
| milanuncios/core.py:604-645 | requested titles are looked up among the matched ads' own titles | one ad "a", titles ["A", "X", "Y"]: "A" is reported though it matched "a" | report every requested title no ad answers to | high, not executed | Renewal.NotFoundBlamesMatched | Renewal.UnmatchedTitles |
