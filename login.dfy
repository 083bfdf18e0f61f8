/**
 * The retry loop of `login` in milanuncios/core.py. The browser is
 * abstracted to the sequence of pages that `check_login` sees: `check(0)`
 * is the account page loaded before the loop, `check(k)` the page seen
 * after the k-th submission of the form.
 */
module Login {
  import opened Wrappers
  import opened AdRecords

  /** What check_login reads from the current page: whether the account menu ("cat1") is there, and the ad containers. */
  datatype Page = Page(loggedIn: bool, containers: seq<Container>)

  /** Where the loop stops: the index of the last page checked and the value `attempts` is left with. */
  datatype LoopEnd = LoopEnd(lastCheck: nat, attempts: int)

  /**
   * The while loop, entered with page `check(k)` as the last one seen: it
   * runs while not logged in and `attempts > 0`, submits the form, checks
   * the next page, breaks before the decrement once logged in, and counts
   * down otherwise.
   */
  function Loop(check: nat -> Page, k: nat, attempts: int): LoopEnd
    decreases if attempts > 0 then attempts else 0
  {
    if check(k).loggedIn || attempts <= 0 then LoopEnd(k, attempts)
    else if check(k + 1).loggedIn then LoopEnd(k + 1, attempts)
    else Loop(check, k + 1, attempts - 1)
  }

  /** What login returns: MilAnunciosLoginError exactly when the counter ends at 0, otherwise the last page seen. */
  function LoginOutcome(check: nat -> Page, attempts: int): Result<Page, Error> {
    var end := Loop(check, 0, attempts);
    if end.attempts == 0 then Failure(LoginFailed) else Success(check(end.lastCheck))
  }

  /** The remember-me box is clicked only when its state differs from `remember`, so it ends equal to it. */
  function RememberMe(selected: bool, remember: bool): (after: bool)
    ensures after == remember
  {
    if selected != remember then !selected else selected
  }

  /** How many of the submissions 1..n found all the input fields. */
  function PresentCount(missing: nat -> bool, n: nat): nat {
    if n == 0 then 0 else PresentCount(missing, n - 1) + (if missing(n) then 0 else 1)
  }

  /**
   * login: `missing(k)` says whether the k-th submission found an input
   * field missing (NoSuchElementException), which counts as a passed attempt
   * all the same; `boxes(k)` is the state of the remember-me box at that
   * submission. `ticked` lists the state the box is left in, one entry for
   * each submission whose input fields were all there.
   */
  method RetryLogin(check: nat -> Page, missing: nat -> bool, boxes: nat -> bool, remember: bool, attempts: int)
    returns (r: Result<Page, Error>, ticked: seq<bool>)
    ensures r == LoginOutcome(check, attempts)
    ensures |ticked| == PresentCount(missing, Loop(check, 0, attempts).lastCheck)
    ensures forall j :: 0 <= j < |ticked| ==> ticked[j] == remember
  {
    var k := 0;
    var soup := check(k);
    var logged := soup.loggedIn;
    var left := attempts;
    var loginPassed := false;
    ticked := [];
    while !logged && left > 0
      invariant soup == check(k) && logged == soup.loggedIn
      invariant Loop(check, k, left) == Loop(check, 0, attempts)
      invariant forall j :: 0 <= j < |ticked| ==> ticked[j] == remember
      invariant |ticked| == PresentCount(missing, k)
      invariant (logged || left <= 0) ==> k == Loop(check, 0, attempts).lastCheck
      decreases left
    {
      if missing(k + 1) {
        loginPassed := true;
      } else {
        ticked := ticked + [RememberMe(boxes(k + 1), remember)];
        loginPassed := true;
      }
      if loginPassed {
        k := k + 1;
        soup := check(k);
        logged := soup.loggedIn;
      }
      if logged {
        break;
      }
      left := left - 1;
    }
    if left == 0 {
      return Failure(LoginFailed), ticked;
    }
    r := Success(soup);
  }

  // ------------------------------------------------------------- properties

  /** The loop never runs more than `attempts` rounds, one page check per round. */
  lemma {:induction false} LoopBounded(check: nat -> Page, k: nat, attempts: int)
    ensures k <= Loop(check, k, attempts).lastCheck <= k + (if attempts > 0 then attempts else 0)
    decreases if attempts > 0 then attempts else 0
  {
    if !check(k).loggedIn && attempts > 0 && !check(k + 1).loggedIn {
      LoopBounded(check, k + 1, attempts - 1);
    }
  }

  /** The counter ends at 0 exactly when it started at 0, or when it was positive and none of the pages checked showed a login. */
  lemma {:induction false} LoopEndsAtZero(check: nat -> Page, k: nat, attempts: int)
    ensures Loop(check, k, attempts).attempts == 0
      <==> attempts == 0 || (attempts > 0 && forall j :: k <= j <= k + attempts ==> !check(j).loggedIn)
    decreases if attempts > 0 then attempts else 0
  {
    if !check(k).loggedIn && attempts > 0 && !check(k + 1).loggedIn {
      LoopEndsAtZero(check, k + 1, attempts - 1);
    }
  }

  /** The loop stops on a logged-in page unless it ran out of attempts or never started. */
  lemma {:induction false} LoopStopsLoggedIn(check: nat -> Page, k: nat, attempts: int)
    ensures var end := Loop(check, k, attempts);
      check(end.lastCheck).loggedIn || end.attempts <= 0
    decreases if attempts > 0 then attempts else 0
  {
    if !check(k).loggedIn && attempts > 0 && !check(k + 1).loggedIn {
      LoopStopsLoggedIn(check, k + 1, attempts - 1);
    }
  }

  /**
   * login raises exactly when `attempts` is 0, or when it is positive and
   * none of the first `attempts + 1` pages checked shows a login.
   */
  lemma LoginFailsIff(check: nat -> Page, attempts: int)
    ensures LoginOutcome(check, attempts).Failure?
      <==> attempts == 0 || (attempts > 0 && forall j :: 0 <= j <= attempts ==> !check(j).loggedIn)
  {
    LoopEndsAtZero(check, 0, attempts);
  }

  /** With a non-negative counter, a successful login returns a logged-in page, one of the first `attempts + 1`. */
  lemma LoginSuccessLoggedIn(check: nat -> Page, attempts: int)
    requires attempts >= 0 && LoginOutcome(check, attempts).Success?
    ensures LoginOutcome(check, attempts).value.loggedIn
    ensures exists j :: 0 <= j <= attempts && LoginOutcome(check, attempts).value == check(j)
  {
    LoopBounded(check, 0, attempts);
    LoopStopsLoggedIn(check, 0, attempts);
    LoopEndsAtZero(check, 0, attempts);
    var end := Loop(check, 0, attempts);
    assert end.attempts == attempts || end.attempts > 0 by {
      LoopKeepsSign(check, 0, attempts);
    }
  }

  /** The counter only ever reaches 0 from above: a positive counter stays non-negative, any other is left untouched. */
  lemma {:induction false} LoopKeepsSign(check: nat -> Page, k: nat, attempts: int)
    ensures attempts > 0 ==> Loop(check, k, attempts).attempts >= 0
    ensures attempts <= 0 ==> Loop(check, k, attempts) == LoopEnd(k, attempts)
    decreases if attempts > 0 then attempts else 0
  {
    if !check(k).loggedIn && attempts > 0 && !check(k + 1).loggedIn {
      LoopKeepsSign(check, k + 1, attempts - 1);
    }
  }

  // ---------------------------------------------------- the final guard

  /**
   * Counterexample: a negative counter skips the loop and never raises, so
   * login reports success on a page that is not logged in.
   */
  lemma NegativeAttemptsNeverFail(check: nat -> Page, attempts: int)
    requires attempts < 0
    ensures LoginOutcome(check, attempts) == Success(check(0))
  {
  }

  /** Counterexample: with `attempts == 0`, login raises even when the account page already shows a login. */
  lemma ZeroAttemptsFailWhenLoggedIn(check: nat -> Page)
    requires check(0).loggedIn
    ensures LoginOutcome(check, 0) == Failure(LoginFailed)
  {
  }

  /** The guard the loop evidently intends: fail exactly when the last page checked is not logged in. */
  function IntendedLoginOutcome(check: nat -> Page, attempts: int): (r: Result<Page, Error>)
    ensures r.Success? <==> check(Loop(check, 0, attempts).lastCheck).loggedIn
    ensures r.Success? ==> r.value.loggedIn
  {
    var end := Loop(check, 0, attempts);
    if check(end.lastCheck).loggedIn then Success(check(end.lastCheck)) else Failure(LoginFailed)
  }

  /** With the intended guard, login succeeds exactly when one of the pages it may check shows a login. */
  lemma IntendedLoginIff(check: nat -> Page, attempts: int)
    ensures IntendedLoginOutcome(check, attempts).Success?
      <==> exists j :: 0 <= j <= (if attempts > 0 then attempts else 0) && check(j).loggedIn
  {
    LoopBounded(check, 0, attempts);
    LoopStopsLoggedIn(check, 0, attempts);
    LoopEndsAtZero(check, 0, attempts);
    LoopKeepsSign(check, 0, attempts);
  }
}
