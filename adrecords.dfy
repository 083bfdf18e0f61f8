/**
 * `get_ad_info` of milanuncios/core.py: turning one ad container of the
 * account page into an ad record. The HTML lookups are abstracted to the
 * texts they yield (`Container`).
 */
module AdRecords {
  import opened Wrappers
  import opened Strings
  import opened Utils

  /**
   * What get_ad_info reads from one container: the title link's text and
   * href, the tag-stripped text of the "tx" element (description followed
   * by "Caduca en <expiry>"), the text of the "x6" element (time since the
   * last renewal) and whether a "vef" (view photos) element is present.
   */
  datatype Container = Container(
    title: string,
    hrefPath: string,
    descExpire: string,
    lastRenewText: string,
    hasPhotosDiv: bool)

  /** One ad of the account; `expire` and `lastRenew` are in seconds. */
  datatype Ad = Ad(
    title: string,
    desc: string,
    href: string,
    expire: int,
    lastRenew: int,
    hasPhotos: bool)

  const ExpiryDelimiter: string := "Caduca en "

  /** What get_ad_info computes for a container. */
  function AdInfo(mainUrl: string, c: Container): Result<Ad, Error> {
    var parts := Split(c.descExpire, ExpiryDelimiter);
    if |parts| != 2 then Failure(BadUnpack(|parts|))
    else
      match Duration(parts[1])
      case Failure(e) => Failure(e)
      case Success(expire) =>
        match Duration(c.lastRenewText)
        case Failure(e) => Failure(e)
        case Success(lastRenew) =>
          Success(Ad(c.title, parts[0], mainUrl + c.hrefPath, expire, lastRenew, c.hasPhotosDiv))
  }

  /**
   * get_ad_info: the unpacking of the split comes first, then the expiry
   * text is parsed, then the last-renewal text.
   */
  method GetAdInfo(mainUrl: string, c: Container) returns (r: Result<Ad, Error>)
    ensures r == AdInfo(mainUrl, c)
  {
    var parts := Split(c.descExpire, ExpiryDelimiter);
    if |parts| != 2 {
      return Failure(BadUnpack(|parts|));
    }
    var desc, expireString := parts[0], parts[1];
    var href := mainUrl + c.hrefPath;
    var expire := ParseStringToTimedelta(expireString);
    if expire.Failure? {
      return Failure(expire.error);
    }
    var lastRenew := ParseStringToTimedelta(c.lastRenewText);
    if lastRenew.Failure? {
      return Failure(lastRenew.error);
    }
    r := Success(Ad(c.title, desc, href, expire.value, lastRenew.value, c.hasPhotosDiv));
  }

  /** The outcome of get_ad_info for each container, in order. */
  function AdInfoEach(mainUrl: string, cs: seq<Container>): (rs: seq<Result<Ad, Error>>)
    ensures |rs| == |cs| && forall i :: 0 <= i < |cs| ==> rs[i] == AdInfo(mainUrl, cs[i])
  {
    seq(|cs|, i requires 0 <= i < |cs| => AdInfo(mainUrl, cs[i]))
  }

  /** Records collected in order; the first failure ends the listing. */
  function Gather(rs: seq<Result<Ad, Error>>): Result<seq<Ad>, Error> {
    if rs == [] then Success([])
    else
      match Gather(rs[..|rs| - 1])
      case Failure(e) => Failure(e)
      case Success(ads) =>
        match rs[|rs| - 1]
        case Failure(e) => Failure(e)
        case Success(ad) => Success(ads + [ad])
  }

  /** get_ad_info applied to each container in turn; the first failure ends the listing. */
  function AdInfos(mainUrl: string, cs: seq<Container>): Result<seq<Ad>, Error> {
    Gather(AdInfoEach(mainUrl, cs))
  }

  /** The loop of `my_ads` that collects one record per container. */
  method ParseAds(mainUrl: string, cs: seq<Container>) returns (r: Result<seq<Ad>, Error>)
    ensures r == AdInfos(mainUrl, cs)
    ensures var rs := AdInfoEach(mainUrl, cs);
      && (r.Success? <==> forall i :: 0 <= i < |cs| ==> rs[i].Success?)
      && (r.Success? ==> |r.value| == |cs| && forall i :: 0 <= i < |cs| ==> rs[i].Success? && r.value[i] == rs[i].value)
      && (r.Failure? ==> exists i :: 0 <= i < |cs| && FirstFailure(rs, i, r.error))
  {
    var rs := AdInfoEach(mainUrl, cs);
    var ads: seq<Ad> := [];
    for i := 0 to |cs|
      invariant Gather(rs[..i]) == Success(ads)
      invariant |ads| == i
    {
      assert rs[..i + 1][..i] == rs[..i];
      var ad := GetAdInfo(mainUrl, cs[i]);
      if ad.Failure? {
        GatherFailureStays(rs, i + 1);
        r := Failure(ad.error);
        GatherSuccessIff(rs);
        GatherFirstFailure(rs);
        return;
      }
      ads := ads + [ad.value];
    }
    assert rs[..|rs|] == rs;
    r := Success(ads);
    GatherSuccessIff(rs);
    GatherRecords(rs);
  }

  /** `rs[i]` is the first failure of `rs`, with error `e`. */
  ghost predicate FirstFailure(rs: seq<Result<Ad, Error>>, i: nat, e: Error)
    requires i < |rs|
  {
    rs[i] == Failure(e) && forall j :: 0 <= j < i ==> rs[j].Success?
  }

  /** The listing succeeds exactly when every container gives a record. */
  lemma {:induction false} GatherSuccessIff(rs: seq<Result<Ad, Error>>)
    ensures Gather(rs).Success? <==> forall i :: 0 <= i < |rs| ==> rs[i].Success?
  {
    if rs != [] {
      var init := rs[..|rs| - 1];
      GatherSuccessIff(init);
      assert forall i :: 0 <= i < |init| ==> init[i] == rs[i];
    }
  }

  /** A successful listing holds the record of container i at index i. */
  lemma {:induction false} GatherRecords(rs: seq<Result<Ad, Error>>)
    ensures Gather(rs).Success? ==>
      && |Gather(rs).value| == |rs|
      && forall i :: 0 <= i < |rs| ==> rs[i].Success? && Gather(rs).value[i] == rs[i].value
  {
    if rs != [] {
      var init := rs[..|rs| - 1];
      GatherRecords(init);
      assert forall i :: 0 <= i < |init| ==> init[i] == rs[i];
    }
  }

  /** A failed listing carries the error of the first container that fails. */
  lemma {:induction false} GatherFirstFailure(rs: seq<Result<Ad, Error>>)
    ensures Gather(rs).Failure? ==> exists i :: 0 <= i < |rs| && FirstFailure(rs, i, Gather(rs).error)
  {
    if rs != [] {
      var init := rs[..|rs| - 1];
      var last := |rs| - 1;
      GatherFirstFailure(init);
      match Gather(init)
      case Failure(e) =>
        var i :| 0 <= i < |init| && FirstFailure(init, i, e);
        assert forall j :: 0 <= j <= i ==> init[j] == rs[j];
        assert FirstFailure(rs, i, e);
      case Success(ads) =>
        if rs[last].Failure? {
          GatherSuccessIff(init);
          assert forall j :: 0 <= j < last ==> init[j] == rs[j];
          assert FirstFailure(rs, last, rs[last].error);
        }
    }
  }

  /** Once a prefix of the records fails, the whole listing fails with the same error. */
  lemma {:induction false} GatherFailureStays(rs: seq<Result<Ad, Error>>, n: nat)
    requires n <= |rs| && Gather(rs[..n]).Failure?
    ensures Gather(rs) == Gather(rs[..n])
    decreases |rs| - n
  {
    if n < |rs| {
      var rs' := rs[..|rs| - 1];
      assert rs'[..n] == rs[..n];
      GatherFailureStays(rs', n);
    } else {
      assert rs[..n] == rs;
    }
  }

  /** The first character of "Caduca en " does not recur in it, so two occurrences cannot overlap. */
  lemma DelimiterUnbordered()
    ensures forall k :: 0 < k < |ExpiryDelimiter| ==> ExpiryDelimiter[k] != ExpiryDelimiter[0]
  {
  }

  /**
   * A record is produced only when "Caduca en " occurs exactly once: the
   * description is the text before it, the expiry is read from the text
   * after it, and both times are non-negative.
   */
  lemma AdInfoSuccess(mainUrl: string, c: Container)
    requires AdInfo(mainUrl, c).Success?
    ensures var ad := AdInfo(mainUrl, c).value;
      && ad.title == c.title && ad.href == mainUrl + c.hrefPath && ad.hasPhotos == c.hasPhotosDiv
      && (exists rest :: c.descExpire == ad.desc + ExpiryDelimiter + rest
            && !Contains(ad.desc, ExpiryDelimiter) && !Contains(rest, ExpiryDelimiter)
            && Duration(rest) == Success(ad.expire))
      && Duration(c.lastRenewText) == Success(ad.lastRenew)
      && ad.expire >= 0 && ad.lastRenew >= 0
  {
    var parts := Split(c.descExpire, ExpiryDelimiter);
    JoinSplit(c.descExpire, ExpiryDelimiter);
    SplitPiecesFree(c.descExpire, ExpiryDelimiter);
    assert parts[1..] == [parts[1]];
    assert c.descExpire == parts[0] + ExpiryDelimiter + parts[1];
    assert parts[0] in parts && parts[1] in parts;
    DurationErrors(parts[1]);
    DurationErrors(c.lastRenewText);
  }

  /** A text without "Caduca en " cannot be unpacked into description and expiry: ValueError. */
  lemma AdInfoWithoutDelimiter(mainUrl: string, c: Container)
    requires !Contains(c.descExpire, ExpiryDelimiter)
    ensures AdInfo(mainUrl, c) == Failure(BadUnpack(1))
  {
  }

  /** A text with "Caduca en " twice splits into three pieces: ValueError too. */
  lemma AdInfoWithTwoDelimiters(mainUrl: string, a: string, b: string, e: string, c: Container)
    requires c.descExpire == a + ExpiryDelimiter + (b + ExpiryDelimiter + e)
    requires !Contains(a, ExpiryDelimiter) && !Contains(b, ExpiryDelimiter) && !Contains(e, ExpiryDelimiter)
    ensures AdInfo(mainUrl, c) == Failure(BadUnpack(3))
  {
    DelimiterUnbordered();
    SplitTwice(a, ExpiryDelimiter, b, e);
  }

  /** Conversely, one "Caduca en " between delimiter-free texts always unpacks: the outcome is decided by the two durations. */
  lemma AdInfoWithOneDelimiter(mainUrl: string, desc: string, rest: string, c: Container)
    requires c.descExpire == desc + ExpiryDelimiter + rest
    requires !Contains(desc, ExpiryDelimiter) && !Contains(rest, ExpiryDelimiter)
    ensures AdInfo(mainUrl, c).Success? <==> Duration(rest).Success? && Duration(c.lastRenewText).Success?
    ensures AdInfo(mainUrl, c).Success? ==> AdInfo(mainUrl, c).value.desc == desc
  {
    DelimiterUnbordered();
    SplitOnce(desc, ExpiryDelimiter, rest);
  }
}
