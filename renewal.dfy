/**
 * The decision logic of `renew_ads` in milanuncios/core.py: which ads of
 * the account are renewed, in which order, how many, and which requested
 * titles are reported as not found. Clicking through the renewal dialog
 * is abstracted to an action that always succeeds; the ads it is applied
 * to are returned in order.
 */
module Renewal {
  import opened Wrappers
  import opened Strings
  import opened AdRecords

  /** Ads renewed less than 24 hours ago are skipped (in seconds). */
  const MinTimeBetweenRenews: int := 24 * 3600

  /** `if ads:` — a list of titles was passed and it is not empty. */
  predicate TitlesGiven(ads: Option<seq<string>>) {
    ads.Some? && |ads.value| > 0
  }

  /** The ad is one the caller asked for: every ad when no titles are given, otherwise by title or upper-cased title. */
  predicate Targeted(ad: Ad, ads: Option<seq<string>>) {
    !TitlesGiven(ads) || ad.title in ads.value || Upper(ad.title) in ads.value
  }

  /** The ad is targeted and its last renewal is strictly older than 24 hours. */
  predicate Renewable(ad: Ad, ads: Option<seq<string>>) {
    Targeted(ad, ads) && ad.lastRenew > MinTimeBetweenRenews
  }

  /** The ads of the inventory that get renewed, in inventory order. */
  function RenewedAds(inventory: seq<Ad>, ads: Option<seq<string>>): seq<Ad> {
    if inventory == [] then []
    else
      var last := inventory[|inventory| - 1];
      RenewedAds(inventory[..|inventory| - 1], ads) + (if Renewable(last, ads) then [last] else [])
  }

  /**
   * The titles logged in `stats["ads_found"]["ads"]`: with titles given,
   * each matching ad is logged twice (once by `count_new_ad`, once more by
   * the two lines after it); without titles, every ad is logged once.
   */
  function FoundLog(inventory: seq<Ad>, ads: Option<seq<string>>): seq<string> {
    if inventory == [] then []
    else
      var last := inventory[|inventory| - 1];
      FoundLog(inventory[..|inventory| - 1], ads)
        + (if !TitlesGiven(ads) then [last.title]
           else if Targeted(last, ads) then [last.title, last.title]
           else [])
  }

  /** The requested titles absent from a log, in request order. */
  function Absent(requested: seq<string>, log: seq<string>): seq<string> {
    if requested == [] then []
    else
      var last := requested[|requested| - 1];
      Absent(requested[..|requested| - 1], log) + (if last !in log then [last] else [])
  }

  /**
   * The titles `renew_ads` warns about as not found: only when titles are
   * given and fewer entries were logged than titles requested, and then
   * each requested title that is not among the logged ad titles.
   */
  function NotFoundReported(inventory: seq<Ad>, ads: Option<seq<string>>): seq<string> {
    if TitlesGiven(ads) && |FoundLog(inventory, ads)| < |ads.value| then Absent(ads.value, FoundLog(inventory, ads))
    else []
  }

  /**
   * renew_ads over an inventory already read from the account page. An
   * empty inventory returns None at once; otherwise the result is the
   * number of ads renewed. `number` is accepted and never read.
   */
  method RenewAds(allAds: seq<Ad>, ads: Option<seq<string>>, number: Option<int>)
    returns (r: Option<nat>, renewed: seq<Ad>, notFound: seq<string>)
    ensures allAds == [] ==> r == None && renewed == [] && notFound == []
    ensures allAds != [] ==> r == Some(|renewed|) && notFound == NotFoundReported(allAds, ads)
    ensures renewed == RenewedAds(allAds, ads)
  {
    renewed, notFound := [], [];
    if allAds == [] {
      return None, renewed, notFound;
    }
    var nRenews := 0;
    var toRenewN := if TitlesGiven(ads) then |ads.value| else |allAds|;
    var foundN := 0;
    var foundAds: seq<string> := [];
    for i := 0 to |allAds|
      invariant renewed == RenewedAds(allAds[..i], ads) && nRenews == |renewed|
      invariant foundAds == FoundLog(allAds[..i], ads) && foundN == |foundAds|
    {
      assert allAds[..i + 1][..i] == allAds[..i];
      var advert := allAds[i];
      var toRenew := false;
      if TitlesGiven(ads) {
        if advert.title in ads.value || Upper(advert.title) in ads.value {
          // count_new_ad
          foundN, foundAds := foundN + 1, foundAds + [advert.title];
          toRenew := true;
          foundN, foundAds := foundN + 1, foundAds + [advert.title];
        }
      } else {
        foundN, foundAds := foundN + 1, foundAds + [advert.title];
        toRenew := true;
      }
      if toRenew && advert.lastRenew > MinTimeBetweenRenews {
        // renew(advert["container"]) clicks through the dialog and returns True
        renewed := renewed + [advert];
        var renovated := true;
        if renovated {
          nRenews := nRenews + 1;
        }
      }
    }
    assert allAds[..|allAds|] == allAds;
    if TitlesGiven(ads) && foundN < toRenewN {
      var requested := ads.value;
      for j := 0 to |requested|
        invariant notFound == Absent(requested[..j], foundAds)
      {
        assert requested[..j + 1][..j] == requested[..j];
        if requested[j] !in foundAds {
          notFound := notFound + [requested[j]];
        }
      }
      assert requested[..|requested|] == requested;
    }
    r := Some(nRenews);
  }

  // ------------------------------------------------------------- properties

  /** An ad is renewed exactly when it is in the inventory, targeted and last renewed more than 24 hours ago. */
  lemma {:induction false} RenewedIff(inventory: seq<Ad>, ads: Option<seq<string>>, ad: Ad)
    ensures ad in RenewedAds(inventory, ads) <==> ad in inventory && Renewable(ad, ads)
  {
    if inventory != [] {
      var init := inventory[..|inventory| - 1];
      RenewedIff(init, ads, ad);
      assert inventory == init + [inventory[|inventory| - 1]];
    }
  }

  /** Renewal follows inventory order: the renewals of a split inventory are those of its halves, in turn. */
  lemma {:induction false} RenewedAppend(front: seq<Ad>, back: seq<Ad>, ads: Option<seq<string>>)
    ensures RenewedAds(front + back, ads) == RenewedAds(front, ads) + RenewedAds(back, ads)
    decreases |back|
  {
    if back != [] {
      var init := back[..|back| - 1];
      assert (front + back)[..|front + back| - 1] == front + init;
      RenewedAppend(front, init, ads);
    } else {
      assert front + back == front;
    }
  }

  /** The count returned is at most the number of ads in the inventory. */
  lemma {:induction false} RenewedAtMostInventory(inventory: seq<Ad>, ads: Option<seq<string>>)
    ensures |RenewedAds(inventory, ads)| <= |inventory|
  {
    if inventory != [] {
      RenewedAtMostInventory(inventory[..|inventory| - 1], ads);
    }
  }

  /** Passing an empty list of titles behaves as passing none: every eligible ad is renewed. */
  lemma {:induction false} EmptyTitlesAsNone(inventory: seq<Ad>)
    ensures RenewedAds(inventory, Some([])) == RenewedAds(inventory, None)
    ensures NotFoundReported(inventory, Some([])) == []
  {
    if inventory != [] {
      EmptyTitlesAsNone(inventory[..|inventory| - 1]);
    }
  }

  /** With no titles given, every ad older than 24 hours is renewed, and only those. */
  lemma AllEligibleWithoutTitles(inventory: seq<Ad>, ad: Ad)
    ensures ad in RenewedAds(inventory, None) <==> ad in inventory && ad.lastRenew > MinTimeBetweenRenews
  {
    RenewedIff(inventory, None, ad);
  }

  /** The number of ads matched by the titles. */
  function MatchCount(inventory: seq<Ad>, ads: Option<seq<string>>): nat {
    if inventory == [] then 0
    else MatchCount(inventory[..|inventory| - 1], ads) + (if Targeted(inventory[|inventory| - 1], ads) then 1 else 0)
  }

  /** The found counter counts every match twice when titles are given, and every ad once otherwise. */
  lemma {:induction false} FoundLogCounts(inventory: seq<Ad>, ads: Option<seq<string>>)
    ensures TitlesGiven(ads) ==> |FoundLog(inventory, ads)| == 2 * MatchCount(inventory, ads)
    ensures !TitlesGiven(ads) ==> |FoundLog(inventory, ads)| == |inventory|
  {
    if inventory != [] {
      FoundLogCounts(inventory[..|inventory| - 1], ads);
    }
  }

  /** The two ads of the documented example: one renewed 30 hours ago, one 2 hours ago; only the first is renewed. */
  lemma OnlyTheOldAdRenewed(a: Ad, b: Ad)
    requires a.lastRenew == 30 * 3600 && b.lastRenew == 2 * 3600
    ensures RenewedAds([a, b], None) == [a]
  {
    assert [a, b][..1] == [a] && [a][..0] == [];
    assert Renewable(a, None) && !Renewable(b, None);
    assert RenewedAds([a], None) == RenewedAds([], None) + [a];
    assert RenewedAds([a, b], None) == RenewedAds([a], None) + [];
  }

  /** An ad renewed exactly 24 hours ago is not renewed yet. */
  lemma ExactlyOneDayIsTooSoon(inventory: seq<Ad>, ads: Option<seq<string>>, ad: Ad)
    requires ad.lastRenew == 24 * 3600
    ensures ad !in RenewedAds(inventory, ads)
  {
    RenewedIff(inventory, ads, ad);
  }

  // ------------------------------------------------------ the not-found check

  /** An ad answers to a requested title by its title or its upper-cased title. */
  predicate AnswersTo(ad: Ad, title: string) {
    ad.title == title || Upper(ad.title) == title
  }

  /** The requested titles that no ad of the inventory answers to, in request order. */
  function UnmatchedTitles(inventory: seq<Ad>, requested: seq<string>): (r: seq<string>)
    ensures forall t :: t in r <==> t in requested && forall ad :: ad in inventory ==> !AnswersTo(ad, t)
    ensures |r| <= |requested|
  {
    if requested == [] then []
    else
      var init := requested[..|requested| - 1];
      var last := requested[|requested| - 1];
      var rest := UnmatchedTitles(inventory, init);
      assert requested == init + [last];
      if forall ad :: ad in inventory ==> !AnswersTo(ad, last) then rest + [last] else rest
  }

  /** Membership in the logged titles is membership among the titles of the matching ads. */
  lemma {:induction false} FoundLogMembers(inventory: seq<Ad>, requested: seq<string>, t: string)
    requires |requested| > 0
    ensures t in FoundLog(inventory, Some(requested))
      <==> exists ad :: ad in inventory && ad.title == t && Targeted(ad, Some(requested))
  {
    if inventory != [] {
      var init := inventory[..|inventory| - 1];
      FoundLogMembers(init, requested, t);
      assert inventory == init + [inventory[|inventory| - 1]];
    }
  }

  /**
   * Counterexample: with one ad "A" and titles ["A", "X"], the doubled
   * counter reaches 2, so no title is reported although "X" matches nothing.
   */
  lemma NotFoundMissesUnmatched(a: Ad)
    requires a.title == "A"
    ensures NotFoundReported([a], Some(["A", "X"])) == []
    ensures UnmatchedTitles([a], ["A", "X"]) == ["X"]
  {
    assert Upper("A") == "A";
    assert Upper("X") == "X";
    assert "X" != "A";
    var u := UnmatchedTitles([a], ["A", "X"]);
    assert a in [a] && AnswersTo(a, "A");
    assert "X" in u && "A" !in u;
    assert |u| <= 2;
    assert u == UnmatchedTitles([a], ["A"]) + ["X"] by {
      assert ["A", "X"][..1] == ["A"];
    }
    assert UnmatchedTitles([a], ["A"]) == [] by {
      assert ["A"][..0] == [];
    }
  }

  /**
   * Counterexample: with one ad "a" and titles ["A", "X", "Y"], the ad is
   * renewed through its upper-cased title, yet "A" is reported as not
   * found, because the log holds "a".
   */
  lemma NotFoundBlamesMatched(a: Ad)
    requires a.title == "a"
    ensures "A" in NotFoundReported([a], Some(["A", "X", "Y"]))
    ensures "A" !in UnmatchedTitles([a], ["A", "X", "Y"])
  {
    assert Upper("a") == "A";
    var log := FoundLog([a], Some(["A", "X", "Y"]));
    assert [a][..0] == [];
    assert Targeted(a, Some(["A", "X", "Y"]));
    assert log == FoundLog([], Some(["A", "X", "Y"])) + [a.title, a.title];
    assert log == ["a", "a"];
    assert "A" !in log;
    var req := ["A", "X", "Y"];
    assert Absent(req, log) == Absent(req[..2], log) + (if "Y" !in log then ["Y"] else []);
    assert req[..2][..1] == ["A"] && ["A"][..0] == [];
    assert Absent(req[..2], log) == Absent(["A"], log) + (if "X" !in log then ["X"] else []);
    assert a in [a] && AnswersTo(a, "A");
  }
}
