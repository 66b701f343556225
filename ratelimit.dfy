/** The route bookkeeping of ratelimit.py: RateLimitHandlerhttpx and
    RateLimitHandlerDiscordpy keep a per-route table of the limits Discord reports in
    its response headers and a global-limit value, wait before a request when a route is
    exhausted, and retry a request that was answered with status 429.

    Time is an integer tick clock (the event loop's `time()` in whole units); the
    source's float seconds are read as whole ticks. */
module RateLimit {
  import opened Common

  /** A response header: its text, and the number `int(...)` / `float(...)` read from it. */
  datatype HeaderValue = HeaderValue(text: string, number: int)

  type Headers = map<string, HeaderValue>

  const GlobalHeader := "X-RateLimit-Global"
  const LimitHeader := "X-RateLimit-Limit"
  const RemainingHeader := "X-RateLimit-Remaining"
  const ResetAfterHeader := "X-RateLimit-Reset-After"
  const RetryAfterHeader := "Retry-After"

  /** `int(headers.get(name, default))`. */
  function NumberOr(h: Headers, name: string, default: int): int {
    if name in h then h[name].number else default
  }

  /** The two handlers differ only in how they read the global header: the httpx one tests
      the header's value for truthiness, the discord.py one tests the key's presence. */
  datatype Flavor = Httpx | Discordpy

  predicate GlobalSignalled(flavor: Flavor, h: Headers) {
    match flavor
    case Httpx => GlobalHeader in h && h[GlobalHeader].text != ""
    case Discordpy => GlobalHeader in h
  }

  /** The two flavours disagree exactly on a present but empty global header. */
  lemma FlavorsDisagreeOnEmptyGlobal(h: Headers)
    ensures GlobalSignalled(Httpx, h) ==> GlobalSignalled(Discordpy, h)
    ensures GlobalSignalled(Httpx, h) != GlobalSignalled(Discordpy, h)
            <==> GlobalHeader in h && h[GlobalHeader].text == ""
  {
  }

  // ---------------------------------------------------------------------------
  // The route key: url.split("/api/v10/")[-1]

  const ApiMarker := "/api/v10/"

  /** `sep` occurs in `s` at index `j`. */
  predicate OccursAt(s: string, sep: string, j: nat) {
    j + |sep| <= |s| && s[j..j + |sep|] == sep
  }

  lemma OccursShift(s: string, sep: string, j: nat)
    requires s != []
    ensures OccursAt(s, sep, j + 1) <==> OccursAt(s[1..], sep, j)
  {
    if j + 1 + |sep| <= |s| {
      assert s[j + 1..j + 1 + |sep|] == s[1..][j..j + |sep|];
    }
  }

  /** Index of the first occurrence of `sep` in `s`. */
  function Find(s: string, sep: string): (r: Option<nat>)
    requires sep != []
    ensures r.Some? ==> OccursAt(s, sep, r.value)
    decreases |s|
  {
    if |s| < |sep| then None
    else if s[..|sep|] == sep then Some(0)
    else
      match Find(s[1..], sep)
      case None => None
      case Some(i) =>
        OccursShift(s, sep, i);
        Some(i + 1)
  }

  /** Find reports the first occurrence, and no occurrence exactly when there is none. */
  lemma {:induction false} FindIsFirst(s: string, sep: string, j: nat)
    requires sep != []
    requires Find(s, sep).Some? ==> j < Find(s, sep).value
    ensures !OccursAt(s, sep, j)
    decreases |s|
  {
    if |s| >= |sep| && j > 0 && s[..|sep|] != sep {
      OccursShift(s, sep, j - 1);
      FindIsFirst(s[1..], sep, j - 1);
    }
  }

  /** Appending text after a complete first occurrence does not move it. */
  lemma {:induction false} FindExtend(p: string, q: string, sep: string)
    requires sep != [] && Find(p, sep).Some?
    ensures Find(p + q, sep) == Find(p, sep)
    decreases |p|
  {
    var i := Find(p, sep).value;
    assert (p + q)[..|sep|] == p[..|sep|];
    if p[..|sep|] != sep {
      assert (p + q)[1..] == p[1..] + q;
      FindExtend(p[1..], q, sep);
    }
  }

  /** Python's `s.split(sep)[-1]`: the occurrences of `sep` are taken from left to right
      without overlapping, and the text after the last of them is the last piece. */
  function LastPiece(s: string, sep: string): (r: string)
    requires sep != []
    decreases |s|
  {
    match Find(s, sep)
    case None => s
    case Some(i) => LastPiece(s[i + |sep|..], sep)
  }

  /** `route = url.split("/api/v10/")[-1]` in RateLimitHandlerhttpx.request: a suffix of
      the url that contains no further marker and, when the url holds the marker, starts
      right after an occurrence of it; a url without the marker is its own key. */
  function RouteKey(url: string): (key: string)
    ensures |key| <= |url| && key == url[|url| - |key|..]
    ensures Find(key, ApiMarker).None?
    ensures Find(url, ApiMarker).None? ==> key == url
    ensures Find(url, ApiMarker).Some? ==> FollowsSep(url, key, ApiMarker)
  {
    LastPieceHasNoSep(url, ApiMarker);
    LastPieceIsSuffix(url, ApiMarker);
    LastPieceFollowsSep(url, ApiMarker);
    LastPiece(url, ApiMarker)
  }

  /** `piece` ends `s` and is preceded directly by an occurrence of `sep`. */
  predicate FollowsSep(s: string, piece: string, sep: string) {
    |piece| + |sep| <= |s| && s[|s| - |piece| - |sep|..|s| - |piece|] == sep
  }

  /** A piece that follows `sep` in a suffix of `s` follows it in `s` as well. */
  lemma FollowsSepInSuffix(s: string, j: nat, piece: string, sep: string)
    requires j <= |s| && FollowsSep(s[j..], piece, sep)
    ensures FollowsSep(s, piece, sep)
  {
    var t := s[j..];
    var lo := |t| - |piece| - |sep|;
    assert t[lo..lo + |sep|] == s[j + lo..j + lo + |sep|];
  }

  /** When `s` holds `sep`, its last piece is preceded directly by an occurrence of `sep`. */
  lemma {:induction false} LastPieceFollowsSep(s: string, sep: string)
    requires sep != []
    ensures Find(s, sep).Some? ==> FollowsSep(s, LastPiece(s, sep), sep)
    decreases |s|
  {
    if Find(s, sep).None? {
      return;
    }
    var i := Find(s, sep).value;
    var t := s[i + |sep|..];
    var r := LastPiece(t, sep);
    assert LastPiece(s, sep) == r;
    if Find(t, sep).Some? {
      LastPieceFollowsSep(t, sep);
      FollowsSepInSuffix(s, i + |sep|, r, sep);
    } else {
      assert r == t;
      assert OccursAt(s, sep, i);
    }
  }

  lemma {:induction false} LastPieceIsSuffix(s: string, sep: string)
    requires sep != []
    ensures |LastPiece(s, sep)| <= |s| && LastPiece(s, sep) == s[|s| - |LastPiece(s, sep)|..]
    decreases |s|
  {
    var f := Find(s, sep);
    if f.Some? {
      var i := f.value;
      var t := s[i + |sep|..];
      LastPieceIsSuffix(t, sep);
      var r := LastPiece(t, sep);
      assert LastPiece(s, sep) == r;
      assert t[|t| - |r|..] == s[|s| - |r|..];
    }
  }

  lemma {:induction false} LastPieceHasNoSep(s: string, sep: string)
    requires sep != []
    ensures Find(LastPiece(s, sep), sep).None?
    decreases |s|
  {
    var f := Find(s, sep);
    if f.Some? {
      var i := f.value;
      assert LastPiece(s, sep) == LastPiece(s[i + |sep|..], sep);
      LastPieceHasNoSep(s[i + |sep|..], sep);
    } else {
      assert LastPiece(s, sep) == s;
    }
  }

  /** For a url of the shape `<base>/api/v10/<path>`, whose base holds no marker and whose
      path holds none either, the route key is exactly the path. */
  lemma {:induction false} RouteKeyOfApiUrl(base: string, path: string)
    requires Find(base + ApiMarker, ApiMarker) == Some(|base|)
    requires Find(path, ApiMarker).None?
    ensures RouteKey(base + ApiMarker + path) == path
  {
    var prefix := base + ApiMarker;
    var url := prefix + path;
    FindExtend(prefix, path, ApiMarker);
    assert Find(url, ApiMarker) == Some(|base|);
    assert url[|base| + |ApiMarker|..] == path;
    assert LastPiece(url, ApiMarker) == LastPiece(path, ApiMarker);
  }

  // ---------------------------------------------------------------------------
  // The limits table

  /** One entry of `route_limits`. */
  datatype RouteLimit = RouteLimit(limit: int, remaining: int, reset: int)

  /** `global_limited` (0 standing for False) and `route_limits`. */
  datatype Limits = Limits(globalLimited: int, routes: map<string, RouteLimit>)

  /** update_rate_limit: a global signal only sets the global value (from Reset-After,
      default 0); otherwise the route's entry is replaced, every missing header reading 0. */
  function Update(flavor: Flavor, l: Limits, h: Headers, route: string, now: int): (l': Limits)
    ensures GlobalSignalled(flavor, h) ==> l'.routes == l.routes
    ensures !GlobalSignalled(flavor, h) ==> l'.globalLimited == l.globalLimited && route in l'.routes
  {
    if GlobalSignalled(flavor, h) then
      l.(globalLimited := NumberOr(h, ResetAfterHeader, 0))
    else
      l.(routes := l.routes[route := RouteLimit(NumberOr(h, LimitHeader, 0),
                                                NumberOr(h, RemainingHeader, 0),
                                                now + NumberOr(h, ResetAfterHeader, 0))])
  }

  /** The route part of check_rate_limit: sleep `max(0, reset - now)` only when the route
      is known and has no requests remaining. */
  function RouteWait(l: Limits, route: string, now: int): (w: int)
    ensures w >= 0
    ensures route !in l.routes || l.routes[route].remaining > 0 ==> w == 0
    ensures w > 0 ==> now + w == l.routes[route].reset
  {
    if route in l.routes && l.routes[route].remaining <= 0 then
      Max(0, l.routes[route].reset - now)
    else 0
  }

  function Max(a: int, b: int): int { if a < b then b else a }

  /** A global signal leaves every route entry alone. */
  lemma GlobalUpdateKeepsRoutes(flavor: Flavor, l: Limits, h: Headers, route: string, now: int)
    requires GlobalSignalled(flavor, h)
    ensures Update(flavor, l, h, route, now).routes == l.routes
    ensures Update(flavor, l, h, route, now).globalLimited == NumberOr(h, ResetAfterHeader, 0)
  {
  }

  /** A route update changes only that route's entry and never the global value. */
  lemma RouteUpdateIsLocal(flavor: Flavor, l: Limits, h: Headers, route: string, now: int, other: string)
    requires !GlobalSignalled(flavor, h) && other != route
    ensures Update(flavor, l, h, route, now).globalLimited == l.globalLimited
    ensures other in Update(flavor, l, h, route, now).routes <==> other in l.routes
    ensures other in l.routes ==> Update(flavor, l, h, route, now).routes[other] == l.routes[other]
  {
  }

  /** Once the global value is set, no route update clears it: only another global signal
      (with a Reset-After of 0 or without one) brings it back to 0. */
  lemma {:induction false} GlobalValueIsSticky(flavor: Flavor, l: Limits, hs: seq<Headers>, route: string, now: int)
    requires forall k :: 0 <= k < |hs| ==> !GlobalSignalled(flavor, hs[k])
    ensures UpdateAll(flavor, l, hs, route, now).globalLimited == l.globalLimited
    decreases |hs|
  {
    if hs != [] {
      GlobalValueIsSticky(flavor, Update(flavor, l, hs[0], route, now), hs[1..], route, now);
    }
  }

  function UpdateAll(flavor: Flavor, l: Limits, hs: seq<Headers>, route: string, now: int): Limits
    decreases |hs|
  {
    if hs == [] then l else UpdateAll(flavor, Update(flavor, l, hs[0], route, now), hs[1..], route, now)
  }

  /** After an exhausting response (Remaining 0 or missing) the next request on that route
      waits until exactly the reset instant `received + Reset-After`, or not at all once
      that instant has passed. */
  lemma {:induction false} ExhaustedRouteWaitsUntilReset(flavor: Flavor, l: Limits, h: Headers, route: string,
                                                         received: int, now: int)
    requires !GlobalSignalled(flavor, h) && NumberOr(h, RemainingHeader, 0) <= 0
    ensures var w := RouteWait(Update(flavor, l, h, route, received), route, now);
            w == Max(0, received + NumberOr(h, ResetAfterHeader, 0) - now)
            && now + w >= received + NumberOr(h, ResetAfterHeader, 0)
  {
    var l' := Update(flavor, l, h, route, received);
    assert route in l'.routes && l'.routes[route].remaining <= 0;
  }

  // ---------------------------------------------------------------------------
  // The handlers

  /** What the server does with one attempt of a request: the status and headers of its
      response (None for a discord.py response without `headers`), and how long after
      the request was sent the response arrived. */
  datatype Exchange = Exchange(status: int, headers: Option<Headers>, latency: nat)

  /** `float(headers.get("Retry-After", 1))`. */
  function RetryAfter(h: Headers): int {
    NumberOr(h, RetryAfterHeader, 1)
  }

  /** Whether the handler retries after this exchange: on status 429 when the response
      carried headers (an httpx response always does). In the discord.py handler the 429
      test is nested inside the test for headers, so a 429 without headers is returned. */
  predicate Retries(e: Exchange) {
    e.status == 429 && e.headers.Some?
  }

  /** How long `asyncio.sleep(d)` waits: a delay that is not positive returns at once. */
  function Slept(d: int): nat {
    if d > 0 then d else 0
  }

  /** The global part of check_rate_limit: `if global_limited: sleep(global_limited)`. */
  function GlobalWait(l: Limits): (w: nat)
    ensures w > 0 <==> l.globalLimited > 0
    ensures w > 0 ==> w == l.globalLimited
  {
    Slept(l.globalLimited)
  }

  /** The limits after one exchange whose response arrived at `received`. */
  function AfterExchange(flavor: Flavor, l: Limits, e: Exchange, route: string, received: int): Limits {
    if e.headers.Some? then Update(flavor, l, e.headers.value, route, received) else l
  }

  /** One attempt of a request: the limits table it checked, the time the check began,
      the global and route sleeps of the check, and when the request was sent and its
      response received. */
  datatype Attempt = Attempt(before: Limits, begin: int, globalWait: nat, routeWait: int,
                             sentAt: int, receivedAt: int)

  /** The attempts `request` makes from table `l` at time `begin`, over the exchanges the
      server answers with: the global sleep, then the route sleep measured after it,
      then the exchange; a retried exchange is followed by the Retry-After sleep and a
      new attempt. */
  function Trace(flavor: Flavor, l: Limits, route: string, begin: int, es: seq<Exchange>): seq<Attempt>
    decreases |es|
  {
    if es == [] then []
    else
      var g := GlobalWait(l);
      var r := RouteWait(l, route, begin + g);
      var sent := begin + g + r;
      var received := sent + es[0].latency;
      var a := Attempt(l, begin, g, r, sent, received);
      if Retries(es[0]) then
        [a] + Trace(flavor, AfterExchange(flavor, l, es[0], route, received), route,
                    received + Slept(RetryAfter(es[0].headers.value)), es[1..])
      else [a]
  }

  /** The limits table once those attempts are over. */
  function Final(flavor: Flavor, l: Limits, route: string, begin: int, es: seq<Exchange>): Limits
    decreases |es|
  {
    if es == [] then l
    else
      var g := GlobalWait(l);
      var received := begin + g + RouteWait(l, route, begin + g) + es[0].latency;
      var l' := AfterExchange(flavor, l, es[0], route, received);
      if Retries(es[0]) then Final(flavor, l', route, received + Slept(RetryAfter(es[0].headers.value)), es[1..])
      else l'
  }

  /** The trace of a request starts from the table and the time of the call, and stops at
      the first exchange that is not retried. */
  lemma {:induction false} TraceShape(flavor: Flavor, l: Limits, route: string, begin: int,
                                      es: seq<Exchange>)
    ensures var t := Trace(flavor, l, route, begin, es);
      && |t| <= |es|
      && (es != [] ==> |t| >= 1 && t[0].before == l && t[0].begin == begin)
      && (forall k :: 0 <= k < |t| - 1 ==> Retries(es[k]))
      && (|t| < |es| ==> !Retries(es[|t| - 1]))
    decreases |es|
  {
    if es != [] && Retries(es[0]) {
      var g := GlobalWait(l);
      var received := begin + g + RouteWait(l, route, begin + g) + es[0].latency;
      var l' := AfterExchange(flavor, l, es[0], route, received);
      var b' := received + Slept(RetryAfter(es[0].headers.value));
      TraceShape(flavor, l', route, b', es[1..]);
      var rest := Trace(flavor, l', route, b', es[1..]);
      var t := Trace(flavor, l, route, begin, es);
      assert t == [t[0]] + rest;
      forall k | 1 <= k < |t| - 1 ensures Retries(es[k]) {
        assert es[k] == es[1..][k - 1];
      }
    }
  }

  /** An attempt that checked the limits before it sent: it sends only after the global
      sleep and, on an exhausted route, not before the route's reset instant. */
  predicate Checked(a: Attempt, route: string, latency: nat) {
    && a.sentAt == a.begin + a.globalWait + a.routeWait
    && a.globalWait == GlobalWait(a.before)
    && a.routeWait >= 0
    && (route in a.before.routes && a.before.routes[route].remaining <= 0 ==>
          a.sentAt >= a.before.routes[route].reset)
    && a.receivedAt == a.sentAt + latency
  }

  /** Consecutive attempts: the next one checks the table the retried response left, and
      begins once the Retry-After sleep is over. */
  predicate Linked(flavor: Flavor, route: string, a: Attempt, e: Exchange, next: Attempt) {
    && Retries(e)
    && next.before == AfterExchange(flavor, a.before, e, route, a.receivedAt)
    && next.begin == a.receivedAt + Slept(RetryAfter(e.headers.value))
  }

  /** Every attempt of a request checks the limits before it sends. */
  lemma {:induction false} TraceWaits(flavor: Flavor, l: Limits, route: string, begin: int,
                                      es: seq<Exchange>)
    ensures |Trace(flavor, l, route, begin, es)| <= |es|
    ensures var t := Trace(flavor, l, route, begin, es);
      forall k :: 0 <= k < |t| ==> Checked(t[k], route, es[k].latency)
    decreases |es|
  {
    TraceShape(flavor, l, route, begin, es);
    if es != [] {
      var g := GlobalWait(l);
      var r := RouteWait(l, route, begin + g);
      var received := begin + g + r + es[0].latency;
      var a := Attempt(l, begin, g, r, begin + g + r, received);
      assert Checked(a, route, es[0].latency);
      if Retries(es[0]) {
        var l' := AfterExchange(flavor, l, es[0], route, received);
        var b' := received + Slept(RetryAfter(es[0].headers.value));
        TraceRetry(flavor, l, route, begin, es, g, r, received, l', b');
        TraceWaits(flavor, l', route, b', es[1..]);
        var rest := Trace(flavor, l', route, b', es[1..]);
        var t := [a] + rest;
        forall k | 1 <= k < |t| ensures Checked(t[k], route, es[k].latency) {
          assert t[k] == rest[k - 1] && es[k] == es[1..][k - 1];
        }
      } else {
        TraceLast(flavor, l, route, begin, es, g, r, received);
      }
    }
  }

  /** Consecutive attempts of a request are linked by the retried exchange between them. */
  lemma {:induction false} TraceLinks(flavor: Flavor, l: Limits, route: string, begin: int,
                                      es: seq<Exchange>)
    ensures |Trace(flavor, l, route, begin, es)| <= |es|
    ensures var t := Trace(flavor, l, route, begin, es);
      forall k :: 0 <= k < |t| - 1 ==> Linked(flavor, route, t[k], es[k], t[k + 1])
    decreases |es|
  {
    TraceShape(flavor, l, route, begin, es);
    if es != [] && Retries(es[0]) {
      var g := GlobalWait(l);
      var r := RouteWait(l, route, begin + g);
      var received := begin + g + r + es[0].latency;
      var l' := AfterExchange(flavor, l, es[0], route, received);
      var b' := received + Slept(RetryAfter(es[0].headers.value));
      TraceRetry(flavor, l, route, begin, es, g, r, received, l', b');
      TraceLinks(flavor, l', route, b', es[1..]);
      TraceShape(flavor, l', route, b', es[1..]);
      var rest := Trace(flavor, l', route, b', es[1..]);
      var t := [Attempt(l, begin, g, r, begin + g + r, received)] + rest;
      if |rest| > 0 {
        assert t[1] == rest[0];
        assert Linked(flavor, route, t[0], es[0], t[1]);
      }
      forall k | 1 <= k < |t| - 1 ensures Linked(flavor, route, t[k], es[k], t[k + 1]) {
        assert t[k] == rest[k - 1] && t[k + 1] == rest[k] && es[k] == es[1..][k - 1];
      }
    }
  }

  /** An attempt that is not retried ends the trace, with the table its response left. */
  /** A discord.py response without headers ends the request whatever its status, 429
      included: it is the last attempt, and the table is left as the check found it. */
  lemma HeaderlessResponseEndsRequest(flavor: Flavor, l: Limits, route: string, begin: int,
                                      e: Exchange, rest: seq<Exchange>)
    requires e.headers.None?
    ensures !Retries(e)
    ensures |Trace(flavor, l, route, begin, [e] + rest)| == 1
    ensures Final(flavor, l, route, begin, [e] + rest) == l
  {
    assert ([e] + rest)[0] == e;
  }

  lemma TraceLast(flavor: Flavor, l: Limits, route: string, begin: int, es: seq<Exchange>,
                  g: nat, r: int, received: int)
    requires es != [] && !Retries(es[0])
    requires g == GlobalWait(l) && r == RouteWait(l, route, begin + g)
    requires received == begin + g + r + es[0].latency
    ensures Trace(flavor, l, route, begin, es) == [Attempt(l, begin, g, r, begin + g + r, received)]
    ensures Final(flavor, l, route, begin, es) == AfterExchange(flavor, l, es[0], route, received)
  {
  }

  /** A retried attempt is followed by the trace from the table its response left, after
      the Retry-After sleep. */
  lemma TraceRetry(flavor: Flavor, l: Limits, route: string, begin: int, es: seq<Exchange>,
                   g: nat, r: int, received: int, after: Limits, next: int)
    requires es != [] && Retries(es[0])
    requires g == GlobalWait(l) && r == RouteWait(l, route, begin + g)
    requires received == begin + g + r + es[0].latency
    requires after == AfterExchange(flavor, l, es[0], route, received)
    requires next == received + Slept(RetryAfter(es[0].headers.value))
    ensures Trace(flavor, l, route, begin, es)
            == [Attempt(l, begin, g, r, begin + g + r, received)] + Trace(flavor, after, route, next, es[1..])
    ensures Final(flavor, l, route, begin, es) == Final(flavor, after, route, next, es[1..])
  {
  }

  /** An attempt whose waits are the ones check_rate_limit computes on its table, begun
      at its start time, and whose response arrives `latency` after it is sent. */
  predicate Measured(a: Attempt, route: string, latency: nat) {
    && a.globalWait == GlobalWait(a.before)
    && a.routeWait == RouteWait(a.before, route, a.begin + a.globalWait)
    && a.sentAt == a.begin + a.globalWait + a.routeWait
    && a.receivedAt == a.sentAt + latency
  }

  /** One step of the request loop, for an attempt that is not retried: the trace and
      the final table are complete. */
  lemma TraceStepLast(flavor: Flavor, l0: Limits, route: string, start: int, es: seq<Exchange>,
                      done: seq<Attempt>, n: nat, a: Attempt)
    requires n < |es| && !Retries(es[n]) && Measured(a, route, es[n].latency)
    requires done + Trace(flavor, a.before, route, a.begin, es[n..]) == Trace(flavor, l0, route, start, es)
    requires Final(flavor, a.before, route, a.begin, es[n..]) == Final(flavor, l0, route, start, es)
    ensures done + [a] == Trace(flavor, l0, route, start, es)
    ensures AfterExchange(flavor, a.before, es[n], route, a.receivedAt) == Final(flavor, l0, route, start, es)
  {
    assert es[n..][0] == es[n];
    TraceLast(flavor, a.before, route, a.begin, es[n..], a.globalWait, a.routeWait, a.receivedAt);
  }

  /** One step of the request loop, for a retried attempt: it joins the trace done so far,
      and the rest of the trace starts from the table it left. */
  lemma TraceStepRetry(flavor: Flavor, l0: Limits, route: string, start: int, es: seq<Exchange>,
                       done: seq<Attempt>, n: nat, a: Attempt, after: Limits, next: int)
    requires n < |es| && Retries(es[n]) && Measured(a, route, es[n].latency)
    requires done + Trace(flavor, a.before, route, a.begin, es[n..]) == Trace(flavor, l0, route, start, es)
    requires after == AfterExchange(flavor, a.before, es[n], route, a.receivedAt)
    requires next == a.receivedAt + Slept(RetryAfter(es[n].headers.value))
    ensures (done + [a]) + Trace(flavor, after, route, next, es[n + 1..]) == Trace(flavor, l0, route, start, es)
  {
    assert es[n..][0] == es[n] && es[n..][1..] == es[n + 1..];
    TraceRetry(flavor, a.before, route, a.begin, es[n..], a.globalWait, a.routeWait, a.receivedAt, after, next);
    var rest := Trace(flavor, after, route, next, es[n + 1..]);
    assert done + ([a] + rest) == (done + [a]) + rest;
  }

  /** The same step for the final table: the rest of the request ends where the whole
      request does. */
  lemma FinalStepRetry(flavor: Flavor, l0: Limits, route: string, start: int, es: seq<Exchange>,
                       n: nat, a: Attempt, after: Limits, next: int)
    requires n < |es| && Retries(es[n]) && Measured(a, route, es[n].latency)
    requires Final(flavor, a.before, route, a.begin, es[n..]) == Final(flavor, l0, route, start, es)
    requires after == AfterExchange(flavor, a.before, es[n], route, a.receivedAt)
    requires next == a.receivedAt + Slept(RetryAfter(es[n].headers.value))
    ensures Final(flavor, after, route, next, es[n + 1..]) == Final(flavor, l0, route, start, es)
  {
    assert es[n..][0] == es[n] && es[n..][1..] == es[n + 1..];
    TraceRetry(flavor, a.before, route, a.begin, es[n..], a.globalWait, a.routeWait, a.receivedAt, after, next);
  }

  class RateLimitHandler {
    const flavor: Flavor
    var globalLimited: int
    var routeLimits: map<string, RouteLimit>

    function State(): Limits
      reads this
    {
      Limits(globalLimited, routeLimits)
    }

    /** `global_limited = False`, `route_limits = {}`. */
    constructor (flavor: Flavor)
      ensures this.flavor == flavor && State() == Limits(0, map[])
    {
      this.flavor := flavor;
      globalLimited := 0;
      routeLimits := map[];
    }

    /** check_rate_limit beginning at time `now`: the two sleeps it performs. The global
        one comes first; the route one is measured on the clock after it. Nothing changes. */
    method CheckRateLimit(route: string, now: int) returns (globalWait: nat, routeWait: int)
      ensures globalWait > 0 <==> globalLimited > 0
      ensures globalWait > 0 ==> globalWait == globalLimited
      ensures routeWait >= 0
      ensures routeWait > 0 <==> route in routeLimits && routeLimits[route].remaining <= 0
                                 && routeLimits[route].reset > now + globalWait
      ensures routeWait > 0 ==> now + globalWait + routeWait == routeLimits[route].reset
      ensures globalWait == GlobalWait(State()) && routeWait == RouteWait(State(), route, now + globalWait)
    {
      globalWait := 0;
      if globalLimited != 0 {
        globalWait := Slept(globalLimited);
      }
      var afterGlobal := now + globalWait;
      routeWait := 0;
      if route in routeLimits {
        var entry := routeLimits[route];
        if entry.remaining <= 0 {
          routeWait := Max(0, entry.reset - afterGlobal);
        }
      }
    }

    /** update_rate_limit with the response headers `h`, received at time `now`. */
    method UpdateRateLimit(h: Headers, route: string, now: int)
      modifies this
      ensures State() == Update(flavor, old(State()), h, route, now)
    {
      if GlobalSignalled(flavor, h) {
        globalLimited := NumberOr(h, ResetAfterHeader, 0);
      } else {
        var limit := NumberOr(h, LimitHeader, 0);
        var remaining := NumberOr(h, RemainingHeader, 0);
        var resetAfter := NumberOr(h, ResetAfterHeader, 0);
        routeLimits := routeLimits[route := RouteLimit(limit, remaining, now + resetAfter)];
      }
    }

    /** One attempt of the request loop begun at time `begin`: check the limits, send,
        and update the limits from the response headers when there are any. */
    method Send(route: string, begin: int, e: Exchange) returns (a: Attempt)
      modifies this
      ensures a.before == old(State()) && a.begin == begin && Measured(a, route, e.latency)
      ensures State() == AfterExchange(flavor, a.before, e, route, a.receivedAt)
    {
      var before := State();
      var g, r := CheckRateLimit(route, begin);
      var sent := begin + g + r;
      var received := sent + e.latency;
      if e.headers.Some? {
        UpdateRateLimit(e.headers.value, route, received);
      }
      a := Attempt(before, begin, g, r, sent, received);
    }

    /** `request` (httpx) and `request_with_rate_limit` (discord.py) for one route, called
        at time `start`, over the successive exchanges the server answers with. Each attempt
        checks the limits, sends, updates the limits from the response headers when there
        are any, and on status 429 sleeps Retry-After and tries again. The result is the
        first response that ends the recursion, or None while every exchange given so far
        asked for a retry; `attempts` lists every attempt with its waits, and the
        Retry-After sleep is the gap before the next attempt's check. */
    method Request(route: string, start: int, exchanges: seq<Exchange>)
      returns (response: Option<Exchange>, attempts: seq<Attempt>)
      requires flavor == Httpx ==> forall k :: 0 <= k < |exchanges| ==> exchanges[k].headers.Some?
      modifies this
      ensures attempts == Trace(flavor, old(State()), route, start, exchanges)
      ensures |attempts| <= |exchanges|
      ensures State() == Final(flavor, old(State()), route, start, exchanges)
      ensures response.None? <==> forall k :: 0 <= k < |exchanges| ==> Retries(exchanges[k])
      ensures response.Some? ==> |attempts| >= 1 && response.value == exchanges[|attempts| - 1]
                                 && !Retries(response.value)
      ensures response.None? ==> |attempts| == |exchanges|
    {
      ghost var l0 := State();
      attempts := [];
      response := None;
      var begin := start;
      var n := 0;
      while n < |exchanges|
        invariant n <= |exchanges| && |attempts| == n
        invariant forall k :: 0 <= k < n ==> Retries(exchanges[k])
        invariant attempts + Trace(flavor, State(), route, begin, exchanges[n..]) == Trace(flavor, l0, route, start, exchanges)
        invariant Final(flavor, State(), route, begin, exchanges[n..]) == Final(flavor, l0, route, start, exchanges)
      {
        var e := exchanges[n];
        var a := Send(route, begin, e);
        if !Retries(e) {
          TraceStepLast(flavor, l0, route, start, exchanges, attempts, n, a);
          attempts := attempts + [a];
          response := Some(e);
          return;
        }
        var next := a.receivedAt + Slept(RetryAfter(e.headers.value));
        TraceStepRetry(flavor, l0, route, start, exchanges, attempts, n, a, State(), next);
        FinalStepRetry(flavor, l0, route, start, exchanges, n, a, State(), next);
        attempts := attempts + [a];
        n := n + 1;
        begin := next;
      }
      assert exchanges[n..] == [];
    }
  }
}
