/**
  The request and browser drivers of src/_drv_scrapers.py, reduced to the logic they
  contain: the proxy list each driver keeps and filters, what the retried `get_response`
  and `fetch_element` hand back, and the stop counter of `infinite_scroll`. Every network
  probe, page fetch and page-height reading is an oracle value given to the model.
*/
module Scrapers {
  import opened Wrappers
  import opened Sublists
  import Retry

  /** The built-in proxy list of `CustomRequests`. */
  const RequestsDefaultProxies: seq<string> := [
    "http://196.51.132.133:8800",
    "http://196.51.129.230:8800",
    "http://196.51.135.162:8800",
    "http://196.51.129.252:8800"
  ]

  /** The built-in proxy list of `CustomWebDriver` (same proxies, another order). */
  const DriverDefaultProxies: seq<string> := [
    "http://196.51.129.230:8800",
    "http://196.51.129.252:8800",
    "http://196.51.132.133:8800",
    "http://196.51.135.162:8800"
  ]

  /** `proxy_list or default`: both `None` and an empty list fall back to the default. */
  function InitialProxies(given: Option<seq<string>>, default: seq<string>): seq<string> {
    if given.Some? && given.value != [] then given.value else default
  }

  /** A driver built without a usable list gets the default; otherwise its own list. */
  lemma InitialProxiesChoice(given: Option<seq<string>>, default: seq<string>)
    ensures given.Some? && given.value != [] ==> InitialProxies(given, default) == given.value
    ensures given.None? || given.value == [] ==> InitialProxies(given, default) == default
    ensures default != [] ==> InitialProxies(given, default) != []
  {
  }

  /** What probing `http://httpbin.org/ip` through one proxy gave. */
  datatype Probe =
    | Status(code: int, bodyEvaluates: bool)  // a response arrived; `eval` of its body may still fail
    | ProbeError                              // `requests.get` raised

  /** The proxy is kept: the response status was 200 (the body is checked only afterwards). */
  predicate Answered200(p: Probe) {
    p.Status? && p.code == 200
  }

  /** The proxies whose probe answered 200, in list order. */
  function Working(proxies: seq<string>, probes: seq<Probe>): seq<string>
    requires |probes| == |proxies|
  {
    if proxies == [] then []
    else
      var n := |proxies| - 1;
      Working(proxies[..n], probes[..n]) + (if Answered200(probes[n]) then [proxies[n]] else [])
  }

  /**
    `Working` keeps an order-preserving sublist: every proxy whose probe answered 200 is in
    it, and everything in it is a proxy of the list that answered 200 at some position.
  */
  lemma {:induction false} WorkingSpec(proxies: seq<string>, probes: seq<Probe>)
    requires |probes| == |proxies|
    ensures Subsequence(Working(proxies, probes), proxies)
    ensures forall i :: 0 <= i < |proxies| && Answered200(probes[i]) ==> proxies[i] in Working(proxies, probes)
    ensures forall x :: x in Working(proxies, probes) ==>
      exists i :: 0 <= i < |proxies| && proxies[i] == x && Answered200(probes[i])
  {
    if proxies != [] {
      var n := |proxies| - 1;
      WorkingSpec(proxies[..n], probes[..n]);
      var w := Working(proxies[..n], probes[..n]);
      var tail := if Answered200(probes[n]) then [proxies[n]] else [];
      SubsequenceSnoc(w, proxies[..n], tail, proxies[n]);
      assert proxies[..n] + [proxies[n]] == proxies;
      forall x | x in Working(proxies, probes)
        ensures exists i :: 0 <= i < |proxies| && proxies[i] == x && Answered200(probes[i])
      {
        if x in w {
          var i :| 0 <= i < n && proxies[..n][i] == x && Answered200(probes[..n][i]);
          assert proxies[i] == x && Answered200(probes[i]);
        } else {
          assert proxies[n] == x && Answered200(probes[n]);
        }
      }
    }
  }

  /** Appending an element to the longer list, and optionally to the shorter one, keeps a subsequence. */
  lemma {:induction false} SubsequenceSnoc<T>(xs: seq<T>, ys: seq<T>, tail: seq<T>, y: T)
    requires Subsequence(xs, ys)
    requires tail == [] || tail == [y]
    ensures Subsequence(xs + tail, ys + [y])
    decreases |ys|
  {
    if xs == [] {
      if tail == [y] {
        assert xs + tail == [y];
        SubsequenceOfOne(y, ys);
      } else {
        assert xs + tail == [];
      }
    } else {
      assert (xs + tail)[0] == xs[0] && (xs + tail)[1..] == xs[1..] + tail;
      assert (ys + [y])[0] == ys[0] && (ys + [y])[1..] == ys[1..] + [y];
      if xs[0] == ys[0] {
        SubsequenceSnoc(xs[1..], ys[1..], tail, y);
      } else {
        SubsequenceSnoc(xs, ys[1..], tail, y);
      }
    }
  }

  lemma {:induction false} SubsequenceOfOne<T>(y: T, ys: seq<T>)
    ensures Subsequence([y], ys + [y])
    decreases |ys|
  {
    if ys == [] {
      assert [y][1..] == [] && ([] + [y])[1..] == [];
    } else {
      assert (ys + [y])[1..] == ys[1..] + [y];
      if ys[0] == y {
        assert [y][1..] == [];
      } else {
        SubsequenceOfOne(y, ys[1..]);
      }
    }
  }

  /** Whether the body of a 200 answer evaluates does not change which proxies are kept. */
  lemma {:induction false} BodyIrrelevant(proxies: seq<string>, probes: seq<Probe>, probes': seq<Probe>)
    requires |probes| == |proxies| == |probes'|
    requires forall i :: 0 <= i < |probes| ==> Answered200(probes[i]) == Answered200(probes'[i])
    ensures Working(proxies, probes) == Working(proxies, probes')
  {
    if proxies != [] {
      var n := |proxies| - 1;
      BodyIrrelevant(proxies[..n], probes[..n], probes'[..n]);
    }
  }

  /** The loop of `test_proxies` (shared verbatim by both drivers). */
  method TestProxyList(proxyList: seq<string>, probes: seq<Probe>) returns (workingProxies: seq<string>)
    requires |probes| == |proxyList|
    ensures workingProxies == Working(proxyList, probes)
  {
    workingProxies := [];
    for i := 0 to |proxyList|
      invariant workingProxies == Working(proxyList[..i], probes[..i])
    {
      assert proxyList[..i + 1][..i] == proxyList[..i] && probes[..i + 1][..i] == probes[..i];
      if probes[i].Status? && probes[i].code == 200 {
        workingProxies := workingProxies + [proxyList[i]];
      }
    }
    assert proxyList[..|proxyList|] == proxyList && probes[..|probes|] == probes;
  }

  /** The `requests`-based driver. */
  class CustomRequests {
    var proxyList: seq<string>

    constructor (proxyList: Option<seq<string>>)
      ensures this.proxyList == InitialProxies(proxyList, RequestsDefaultProxies)
    {
      this.proxyList := InitialProxies(proxyList, RequestsDefaultProxies);
    }

    /** `test_proxies`: keep only the proxies that answered 200. */
    method TestProxies(probes: seq<Probe>)
      requires |probes| == |proxyList|
      modifies this
      ensures proxyList == Working(old(proxyList), probes)
    {
      proxyList := TestProxyList(proxyList, probes);
    }
  }

  /** The Selenium-based driver. */
  class CustomWebDriver {
    var proxyList: seq<string>

    constructor (proxyList: Option<seq<string>>)
      ensures this.proxyList == InitialProxies(proxyList, DriverDefaultProxies)
    {
      this.proxyList := InitialProxies(proxyList, DriverDefaultProxies);
    }

    /** `test_proxies`: keep only the proxies that answered 200. */
    method TestProxies(probes: seq<Probe>)
      requires |probes| == |proxyList|
      modifies this
      ensures proxyList == Working(old(proxyList), probes)
    {
      proxyList := TestProxyList(proxyList, probes);
    }
  }

  /**
    One attempt of `get_response` as written: `random.choice` on an empty proxy list raises,
    a failed fetch raises, and a successful one falls off the end of the function, so the
    value handed back is `None`.
  */
  function GetResponseAttempt<P>(proxyCount: nat, fetch: Retry.Attempt<P, string>): Retry.Attempt<Option<P>, string> {
    if proxyCount == 0 then Retry.Raised("Exception")
    else match fetch
      case Returned(_) => Retry.Returned(None)
      case Raised(_) => Retry.Raised("Exception")
  }

  /** `get_response` under its `retry()` decorator, as written. */
  function GetResponse<P>(proxyCount: nat, fetches: seq<Retry.Attempt<P, string>>): Retry.Run<Option<P>, string>
    requires |fetches| >= Retry.DefaultMaxAttempts
  {
    Retry.Wrapped(Retry.DefaultMaxAttempts, Retry.DefaultDelaySeconds,
      seq(|fetches|, i requires 0 <= i < |fetches| => GetResponseAttempt(proxyCount, fetches[i])))
  }

  /** Whatever the fetches do, `get_response` never hands back a response. */
  lemma GetResponseNeverReturnsPage<P>(proxyCount: nat, fetches: seq<Retry.Attempt<P, string>>)
    requires |fetches| >= Retry.DefaultMaxAttempts
    ensures GetResponse(proxyCount, fetches).outcome == Retry.Value(None) ||
            GetResponse(proxyCount, fetches).outcome.Reraised?
  {
    var outs := seq(|fetches|, i requires 0 <= i < |fetches| => GetResponseAttempt(proxyCount, fetches[i]));
    var k := Retry.FirstReturned(outs[..3]);
    if k < 3 {
      assert outs[..3][k] == outs[k];
    }
  }

  /** With an empty proxy list every attempt raises: three calls, then the error is re-raised. */
  lemma GetResponseNoProxies<P>(fetches: seq<Retry.Attempt<P, string>>)
    requires |fetches| >= Retry.DefaultMaxAttempts
    ensures GetResponse(0, fetches).outcome.Reraised?
    ensures Retry.CallCount(GetResponse(0, fetches).trace) == 3
  {
    var outs := seq(|fetches|, i requires 0 <= i < |fetches| => GetResponseAttempt(0, fetches[i]));
    Retry.AllFail(3, 5, outs);
  }

  /** `get_response` with the missing `return response` restored: a successful fetch hands back its page. */
  function GetResponseFixed<P>(proxyCount: nat, fetches: seq<Retry.Attempt<P, string>>): Retry.Run<P, string>
    requires |fetches| >= Retry.DefaultMaxAttempts
  {
    Retry.Wrapped(Retry.DefaultMaxAttempts, Retry.DefaultDelaySeconds,
      seq(|fetches|, i requires 0 <= i < |fetches| =>
        if proxyCount == 0 then Retry.Raised("Exception") else fetches[i]))
  }

  /** With the fix, the first successful fetch among three is what the caller receives. */
  lemma GetResponseFixedReturnsPage<P>(proxyCount: nat, fetches: seq<Retry.Attempt<P, string>>, k: nat)
    requires |fetches| >= Retry.DefaultMaxAttempts && proxyCount > 0
    requires 1 <= k <= 3 && fetches[k - 1].Returned?
    requires forall i :: 0 <= i < k - 1 ==> fetches[i].Raised?
    ensures GetResponseFixed(proxyCount, fetches).outcome == Retry.Value(fetches[k - 1].value)
    ensures Retry.CallCount(GetResponseFixed(proxyCount, fetches).trace) == k
  {
    var outs := seq(|fetches|, i requires 0 <= i < |fetches| =>
      if proxyCount == 0 then Retry.Raised("Exception") else fetches[i]);
    Retry.SuccessOnAttempt(3, 5, outs, k);
  }

  /** One attempt of `fetch_element`: a lookup error is swallowed and `[]` is returned instead. */
  function FetchElementAttempt<E>(found: Result<seq<E>, string>): Retry.Attempt<seq<E>, string> {
    match found
    case Ok(elements) => Retry.Returned(elements)
    case Err(_) => Retry.Returned([])
  }

  /**
    Since `fetch_element` never raises, its `retry()` wrapper calls it exactly once and
    never sleeps: a failed lookup gives `[]` at once.
  */
  lemma FetchElementNeverRetried<E>(lookups: seq<Result<seq<E>, string>>)
    requires |lookups| >= Retry.DefaultMaxAttempts
    ensures var run := Retry.Wrapped(3, 5, seq(|lookups|, i requires 0 <= i < |lookups| => FetchElementAttempt(lookups[i])));
      Retry.CallCount(run.trace) == 1 && Retry.SleepCount(run.trace) == 0 &&
      run.outcome == Retry.Value(if lookups[0].Ok? then lookups[0].value else [])
  {
    var outs := seq(|lookups|, i requires 0 <= i < |lookups| => FetchElementAttempt(lookups[i]));
    Retry.SuccessOnAttempt(3, 5, outs, 1);
  }

  /**
    Consecutive unchanged readings ending at reading `k` of `heights` (reading 0 is the
    height before the first scroll round; reading `k` the height after round `k`).
  */
  function Streak(heights: seq<int>, k: nat): nat
    requires k < |heights|
  {
    if k == 0 then 0
    else if heights[k] == heights[k - 1] then Streak(heights, k - 1) + 1
    else 0
  }

  /** Some round ends a run of `n` unchanged readings: the page stops growing. */
  predicate Settles(heights: seq<int>, n: int) {
    exists k :: 0 < k < |heights| && Streak(heights, k) >= n
  }

  /**
    `infinite_scroll`: scroll rounds of three PAGE_DOWN presses each until `endScrollAttempts`
    consecutive readings show no new height. Returns the number of rounds, the final value
    of the `attempts` counter and the number of key presses.
  */
  method InfiniteScroll(heights: seq<int>, endScrollAttempts: int) returns (rounds: nat, attempts: int, keyPresses: nat)
    requires |heights| >= 1
    requires endScrollAttempts > 0 ==> Settles(heights, endScrollAttempts)
    ensures endScrollAttempts <= 0 ==> rounds == 0 && attempts == 0 && keyPresses == 0
    ensures endScrollAttempts > 0 ==>
      rounds < |heights| && attempts == endScrollAttempts &&
      Streak(heights, rounds) == endScrollAttempts &&
      forall k :: 0 <= k < rounds ==> Streak(heights, k) < endScrollAttempts
    ensures keyPresses == 3 * rounds
  {
    ghost var w := 0;
    if endScrollAttempts > 0 {
      w :| 0 < w < |heights| && Streak(heights, w) >= endScrollAttempts;
    }
    var lastHeight := heights[0];
    attempts := 0;
    rounds := 0;
    keyPresses := 0;
    while attempts < endScrollAttempts
      invariant rounds < |heights| && rounds <= w
      invariant lastHeight == heights[rounds]
      invariant attempts == Streak(heights, rounds)
      invariant 0 <= attempts <= if endScrollAttempts > 0 then endScrollAttempts else 0
      invariant forall k :: 0 <= k < rounds ==> Streak(heights, k) < endScrollAttempts
      invariant keyPresses == 3 * rounds
      decreases w - rounds
    {
      for press := 0 to 3
        invariant keyPresses == 3 * rounds + press
      {
        keyPresses := keyPresses + 1;
      }
      assert rounds < w;
      var newHeight := heights[rounds + 1];
      if newHeight == lastHeight {
        attempts := attempts + 1;
      } else {
        attempts := 0;
      }
      lastHeight := newHeight;
      rounds := rounds + 1;
    }
  }
}
