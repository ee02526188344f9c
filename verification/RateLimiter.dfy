/**
 The token bucket of rate_limiter.rs, and the rule over the whole request history that it implements in
 constant space. Clock readings and token counts are reals.
 */
module RateLimiter {
  import opened Bytes
  import opened Wrappers

  datatype Settings = Settings(requestsPerMinute: u32, burstSize: u32)

  datatype Info = Info(tokens: real, lastUpdate: real)

  datatype Reply = Admitted(limit: u32, remaining: u32, reset: u64) | Rejected(limit: u32, reset: u64)

  const U64_MAX: u64 := 0xffff_ffff_ffff_ffff

  // ----- One call -----

  function Burst(s: Settings): real {
    s.burstSize as real
  }

  function Rate(s: Settings): real {
    s.requestsPerMinute as real / 60.0
  }

  /** The tokens that a stretch of time brings. */
  function Refill(s: Settings, seconds: real): real {
    seconds * Rate(s)
  }

  lemma RefillAdds(s: Settings, a: real, b: real)
    ensures Refill(s, a) + Refill(s, b) == Refill(s, a + b)
  {
  }

  lemma RefillGrows(s: Settings, a: real, b: real)
    ensures a <= b ==> Refill(s, a) <= Refill(s, b)
    ensures s.requestsPerMinute > 0 && a < b ==> Refill(s, a) < Refill(s, b)
    ensures Refill(s, 0.0) == 0.0
  {
    ProductGrows(Rate(s), b - a);
    RefillAdds(s, a, b - a);
  }

  lemma ProductGrows(r: real, d: real)
    requires r >= 0.0
    ensures d >= 0.0 ==> d * r >= 0.0
    ensures d > 0.0 && r > 0.0 ==> d * r > 0.0
  {
  }

  function Min(a: real, b: real): real {
    if a <= b then a else b
  }

  /** Instant::duration_since, which is zero for an earlier clock reading. */
  function Elapsed(now: real, since: real): real {
    if now < since then 0.0 else now - since
  }

  /** The tokens a client has at a time; a client not seen before has a full bucket. */
  function Refilled(s: Settings, client: Option<Info>, now: real): real {
    match client
    case None => Burst(s)
    case Some(info) => Min(info.tokens + Refill(s, Elapsed(now, info.lastUpdate)), Burst(s))
  }

  function After(s: Settings, client: Option<Info>, now: real): Info {
    var tokens := Refilled(s, client, now);
    Info(if tokens >= 1.0 then tokens - 1.0 else tokens, now)
  }

  function Ceiling(x: real): int {
    -((-x).Floor)
  }

  /** Rust's `as u64` of a float: saturating at both ends. */
  function Saturated(n: int): (v: u64)
    ensures 0 <= n < 0x1_0000_0000_0000_0000 ==> v == n
    ensures n < 0 ==> v == 0
    ensures n >= 0x1_0000_0000_0000_0000 ==> v == 0xffff_ffff_ffff_ffff
  {
    if n < 0 then 0 else if n > U64_MAX then U64_MAX else n
  }

  /** The reported reset. Dividing by a zero rate gives infinity, or NaN when there is nothing to refill. */
  function ResetSeconds(s: Settings, tokens: real): u64 {
    if tokens.Floor != 0 then 60
    else if Rate(s) == 0.0 then (if Burst(s) - tokens > 0.0 then U64_MAX else 0)
    else Saturated(Ceiling((Burst(s) - tokens) / Rate(s)))
  }

  predicate Sane(s: Settings, client: Option<Info>) {
    client.Some? ==> 0.0 <= client.value.tokens <= Burst(s)
  }

  lemma SaneAfter(s: Settings, client: Option<Info>, now: real)
    requires Sane(s, client)
    ensures 0.0 <= Refilled(s, client, now) <= Burst(s)
    ensures Sane(s, Some(After(s, client, now)))
  {
    hide Refill;
    if client.Some? {
      RefillGrows(s, 0.0, Elapsed(now, client.value.lastUpdate));
    }
  }

  predicate AllSane(s: Settings, clients: map<IpAddr, Info>) {
    forall ip :: ip in clients ==> Sane(s, Some(clients[ip]))
  }

  lemma SaneUpdate(s: Settings, clients: map<IpAddr, Info>, ip: IpAddr, info: Info)
    requires AllSane(s, clients) && Sane(s, Some(info))
    ensures AllSane(s, clients[ip := info])
  {
    hide Sane;
  }

  function Answer(s: Settings, client: Option<Info>, now: real): Reply
    requires Sane(s, client)
  {
    SaneAfter(s, client, now);
    var tokens := Refilled(s, client, now);
    var reset := ResetSeconds(s, tokens);
    if tokens >= 1.0 then Admitted(s.requestsPerMinute, (tokens - 1.0).Floor, reset)
    else Rejected(s.requestsPerMinute, reset)
  }

  /** An IP address is only compared. */
  type IpAddr = nat

  function Lookup(clients: map<IpAddr, Info>, ip: IpAddr): Option<Info> {
    if ip in clients then Some(clients[ip]) else None
  }

  lemma SaneLookup(s: Settings, clients: map<IpAddr, Info>, ip: IpAddr)
    requires AllSane(s, clients)
    ensures Sane(s, Lookup(clients, ip))
  {
  }

  class RateLimiter {
    const enabled: bool
    const settings: Settings
    var clients: map<IpAddr, Info>

    ghost predicate Valid()
      reads this
    {
      AllSane(settings, clients)
    }

    constructor (enabled: bool, requestsPerMinute: u32, burstSize: u32)
      ensures Valid() && clients == map[]
      ensures this.enabled == enabled && settings == Settings(requestsPerMinute, burstSize)
    {
      this.enabled := enabled;
      settings := Settings(requestsPerMinute, burstSize);
      clients := map[];
    }

    /** check_rate_limit, the clock read under the lock. */
    method CheckRateLimit(ip: IpAddr, now: real) returns (r: Reply)
      requires Valid()
      modifies this
      ensures Valid()
      ensures AllSane(settings, old(clients)) && Sane(settings, Lookup(old(clients), ip))
      ensures !enabled ==> clients == old(clients) && r == Admitted(0, 0, 0)
      ensures enabled ==> r == Answer(settings, Lookup(old(clients), ip), now)
      ensures enabled ==> clients == old(clients)[ip := After(settings, Lookup(old(clients), ip), now)]
    {
      if !enabled {
        return Admitted(0, 0, 0);
      }
      hide Refill, ResetSeconds, AllSane;
      assert Sane(settings, Lookup(clients, ip)) by { SaneLookup(settings, clients, ip); }
      SaneAfter(settings, Lookup(clients, ip), now);
      SaneUpdate(settings, clients, ip, After(settings, Lookup(clients, ip), now));
      RefillGrows(settings, 0.0, 0.0);
      if ip !in clients {
        clients := clients[ip := Info(Burst(settings), now)];
      }
      var info := clients[ip];
      var tokensToAdd := Refill(settings, Elapsed(now, info.lastUpdate));
      info := Info(Min(info.tokens + tokensToAdd, Burst(settings)), now);
      var reset := ResetSeconds(settings, info.tokens);
      if info.tokens >= 1.0 {
        info := info.(tokens := info.tokens - 1.0);
        r := Admitted(settings.requestsPerMinute, info.tokens.Floor, reset);
      } else {
        r := Rejected(settings.requestsPerMinute, reset);
      }
      clients := clients[ip := info];
    }
  }

  // ----- A client's whole history -----

  predicate InOrder(times: seq<real>) {
    forall i, j :: 0 <= i <= j < |times| ==> times[i] <= times[j]
  }

  /** The client's entry after its first n calls, from the entry start on. */
  function Bucket(s: Settings, start: Option<Info>, times: seq<real>, n: nat): Option<Info>
    requires n <= |times|
  {
    if n == 0 then start else Some(After(s, Bucket(s, start, times, n - 1), times[n - 1]))
  }

  /** The tokens call n finds. */
  function TokensAt(s: Settings, start: Option<Info>, times: seq<real>, n: nat): real
    requires n < |times|
  {
    Refilled(s, Bucket(s, start, times, n), times[n])
  }

  lemma {:induction false} BucketIsSane(s: Settings, start: Option<Info>, times: seq<real>, n: nat)
    requires Sane(s, start) && n <= |times|
    ensures Sane(s, Bucket(s, start, times, n))
  {
    if n > 0 {
      BucketIsSane(s, start, times, n - 1);
      SaneAfter(s, Bucket(s, start, times, n - 1), times[n - 1]);
    }
  }

  /** The reply to call n. */
  function ReplyTo(s: Settings, start: Option<Info>, times: seq<real>, n: nat): Reply
    requires Sane(s, start) && n < |times|
  {
    BucketIsSane(s, start, times, n);
    Answer(s, Bucket(s, start, times, n), times[n])
  }

  predicate IsAdmitted(s: Settings, start: Option<Info>, times: seq<real>, n: nat)
    requires Sane(s, start) && n < |times|
  {
    ReplyTo(s, start, times, n).Admitted?
  }

  lemma AdmittedByTokens(s: Settings, start: Option<Info>, times: seq<real>, n: nat)
    requires Sane(s, start) && n < |times|
    ensures IsAdmitted(s, start, times, n) <==> TokensAt(s, start, times, n) >= 1.0
  {
    BucketIsSane(s, start, times, n);
  }

  /** How many of the calls k to n - 1 of a new client are admitted. */
  function Granted(s: Settings, times: seq<real>, k: nat, n: nat): (g: nat)
    requires n <= |times|
  {
    if n <= k then 0
    else Granted(s, times, k, n - 1) + (if IsAdmitted(s, None, times, n - 1) then 1 else 0)
  }

  /**
   What the window from call k to call n still allows, in the configured numbers: the burst, and the requests per
   minute over its length, less what was granted.
   */
  function Allowance(s: Settings, times: seq<real>, k: nat, n: nat): real
    requires k <= n < |times|
  {
    s.burstSize as real + s.requestsPerMinute as real * (times[n] - times[k]) / 60.0 - Granted(s, times, k, n) as real
  }

  /** The same with the bucket's own functions. */
  lemma AllowanceInTokens(s: Settings, times: seq<real>, k: nat, n: nat)
    requires k <= n < |times|
    ensures Allowance(s, times, k, n)
            == Burst(s) + Refill(s, times[n] - times[k]) - Granted(s, times, k, n) as real
  {
    hide Refill, Granted;
    RefillPerMinute(s, times[n] - times[k]);
    SixtiethOf(s.requestsPerMinute as real * (times[n] - times[k]), Refill(s, times[n] - times[k]));
  }

  lemma SixtiethOf(p: real, r: real)
    requires 60.0 * r == p
    ensures p / 60.0 == r
  {
  }

  lemma RefillPerMinute(s: Settings, d: real)
    ensures 60.0 * Refill(s, d) == s.requestsPerMinute as real * d
  {
  }

  /** One more admitted call would still be within the burst and the requests per minute over the window. */
  predicate WindowAllows(s: Settings, times: seq<real>, k: nat, n: nat)
    requires k <= n < |times|
  {
    60.0 * (Granted(s, times, k, n) + 1) as real
    <= 60.0 * s.burstSize as real + s.requestsPerMinute as real * (times[n] - times[k])
  }

  function Taken(s: Settings, times: seq<real>, n: nat): real
    requires n < |times|
  {
    if IsAdmitted(s, None, times, n) then 1.0 else 0.0
  }

  lemma AllowanceStep(s: Settings, times: seq<real>, k: nat, n: nat)
    requires k <= n && n + 1 < |times|
    ensures Allowance(s, times, k, n + 1)
            == Allowance(s, times, k, n) - Taken(s, times, n) + Refill(s, times[n + 1] - times[n])
  {
    AllowanceInTokens(s, times, k, n);
    AllowanceInTokens(s, times, k, n + 1);
    hide Refill, IsAdmitted, Allowance;
    RefillAdds(s, times[n] - times[k], times[n + 1] - times[n]);
    assert (times[n] - times[k]) + (times[n + 1] - times[n]) == times[n + 1] - times[k];
  }

  lemma EmptyWindow(s: Settings, times: seq<real>, n: nat)
    requires n < |times|
    ensures Allowance(s, times, n, n) == Burst(s)
  {
    AllowanceInTokens(s, times, n, n);
    RefillGrows(s, 0.0, 0.0);
  }

  lemma TokensStep(s: Settings, times: seq<real>, n: nat)
    requires n + 1 < |times| && times[n] <= times[n + 1]
    ensures TokensAt(s, None, times, n + 1)
            == Min(TokensAt(s, None, times, n) - Taken(s, times, n) + Refill(s, times[n + 1] - times[n]), Burst(s))
  {
    AdmittedByTokens(s, None, times, n);
    hide Refill, Refilled, IsAdmitted;
    var before := Bucket(s, None, times, n);
    RefilledAfter(s, before, times[n], times[n + 1]);
  }

  lemma RefilledAfter(s: Settings, client: Option<Info>, t: real, u: real)
    requires t <= u
    ensures var tokens := Refilled(s, client, t);
            Refilled(s, Some(After(s, client, t)), u)
            == Min(tokens - (if tokens >= 1.0 then 1.0 else 0.0) + Refill(s, u - t), Burst(s))
  {
    hide Refill;
  }

  /** The stored number is the least allowance of all windows that end here. */
  lemma {:induction false} TokensAreLeastAllowance(s: Settings, times: seq<real>, n: nat)
    requires InOrder(times) && n < |times|
    ensures forall k :: 0 <= k <= n ==> TokensAt(s, None, times, n) <= Allowance(s, times, k, n)
    ensures exists k :: 0 <= k <= n && TokensAt(s, None, times, n) == Allowance(s, times, k, n)
  {
    hide TokensAt, Taken, Burst, Refill, Allowance;
    EmptyWindow(s, times, n);
    if n == 0 {
      assert TokensAt(s, None, times, 0) == Burst(s) by { FirstCall(s, times); }
    } else {
      TokensAreLeastAllowance(s, times, n - 1);
      TokensStep(s, times, n - 1);
      forall k | 0 <= k <= n
        ensures TokensAt(s, None, times, n) <= Allowance(s, times, k, n)
      {
        if k < n {
          AllowanceStep(s, times, k, n - 1);
        }
      }
      if TokensAt(s, None, times, n) != Allowance(s, times, n, n) {
        var k :| 0 <= k <= n - 1 && TokensAt(s, None, times, n - 1) == Allowance(s, times, k, n - 1);
        AllowanceStep(s, times, k, n - 1);
        assert TokensAt(s, None, times, n) == Allowance(s, times, k, n);
      }
    }
  }

  lemma FirstCall(s: Settings, times: seq<real>)
    requires times != []
    ensures TokensAt(s, None, times, 0) == Burst(s)
  {
  }

  lemma AllowanceDecides(s: Settings, times: seq<real>, k: nat, n: nat)
    requires k <= n < |times|
    ensures WindowAllows(s, times, k, n) <==> Allowance(s, times, k, n) >= 1.0
  {
    hide Granted;
  }

  /**
   The constant-space bucket decides by the whole history: a call is admitted exactly when every window ending
   with it would hold no more admitted calls than the burst and the requests per minute over its length.
   */
  lemma AdmittedByEveryWindow(s: Settings, times: seq<real>, n: nat)
    requires InOrder(times) && n < |times|
    ensures IsAdmitted(s, None, times, n) <==> forall k :: 0 <= k <= n ==> WindowAllows(s, times, k, n)
  {
    AdmittedByTokens(s, None, times, n);
    hide TokensAt, Allowance, WindowAllows, IsAdmitted;
    TokensAreLeastAllowance(s, times, n);
    forall k | 0 <= k <= n
      ensures WindowAllows(s, times, k, n) <==> Allowance(s, times, k, n) >= 1.0
    {
      AllowanceDecides(s, times, k, n);
    }
  }

  /** Sixty times the calls admitted is at most sixty times the burst plus requests per minute times length. */
  predicate WindowHolds(s: Settings, times: seq<real>, k: nat, n: nat)
    requires k <= n < |times|
  {
    60.0 * Granted(s, times, k, n + 1) as real
    <= 60.0 * s.burstSize as real + s.requestsPerMinute as real * (times[n] - times[k])
  }

  lemma AdmittedHolds(s: Settings, times: seq<real>, k: nat, n: nat)
    requires k <= n < |times|
    ensures IsAdmitted(s, None, times, n) && WindowAllows(s, times, k, n) ==> WindowHolds(s, times, k, n)
  {
    hide IsAdmitted;
  }

  lemma SingleHolds(s: Settings, times: seq<real>, n: nat)
    requires n < |times| && !IsAdmitted(s, None, times, n)
    ensures WindowHolds(s, times, n, n)
  {
    hide IsAdmitted;
    NothingElapses(s.requestsPerMinute as real, times[n] - times[n]);
    assert Granted(s, times, n, n + 1) == 0;
  }

  lemma LongerHolds(s: Settings, times: seq<real>, k: nat, n: nat)
    requires k < n < |times| && times[n - 1] <= times[n]
    ensures !IsAdmitted(s, None, times, n) && WindowHolds(s, times, k, n - 1) ==> WindowHolds(s, times, k, n)
  {
    hide IsAdmitted;
    LongerWindow(s.requestsPerMinute as real, times[n - 1] - times[k], times[n] - times[k]);
  }

  /** No window of the history admits more than the burst and the requests per minute over its length. */
  lemma {:induction false} WindowBound(s: Settings, times: seq<real>, k: nat, n: nat)
    requires InOrder(times) && k <= n < |times|
    ensures WindowHolds(s, times, k, n)
    decreases n
  {
    hide IsAdmitted, InOrder, WindowHolds, WindowAllows;
    if IsAdmitted(s, None, times, n) {
      AdmittedByEveryWindow(s, times, n);
      AdmittedHolds(s, times, k, n);
    } else if k == n {
      SingleHolds(s, times, n);
    } else {
      WindowBound(s, times, k, n - 1);
      Sorted(times, n);
      LongerHolds(s, times, k, n);
    }
  }

  lemma NothingElapses(r: real, d: real)
    requires d == 0.0
    ensures r * d == 0.0
  {
  }

  lemma LongerWindow(r: real, a: real, b: real)
    requires r >= 0.0 && a <= b
    ensures r * a <= r * b
  {
    ProductGrows(r, b - a);
  }

  /** Every reply carries the configured requests per minute, and an earlier clock reading brings no tokens. */
  lemma RepliesCarryTheLimit(s: Settings, start: Option<Info>, times: seq<real>, n: nat)
    requires Sane(s, start) && n < |times|
    ensures ReplyTo(s, start, times, n).limit == s.requestsPerMinute
    ensures start.Some? && times[0] <= start.value.lastUpdate ==>
              (IsAdmitted(s, start, times, 0) <==> start.value.tokens >= 1.0)
  {
    hide ResetSeconds;
    RefillGrows(s, 0.0, 0.0);
    BucketIsSane(s, start, times, n);
  }

  // ----- Rejections are free -----

  /** From time t on the two entries cannot be told apart. */
  ghost predicate SameFuture(s: Settings, a: Option<Info>, b: Option<Info>, t: real) {
    forall u: real :: t <= u ==> Refilled(s, a, u) == Refilled(s, b, u)
  }

  lemma RejectionChangesNothing(s: Settings, client: Option<Info>, t: real)
    requires Refilled(s, client, t) < 1.0
    requires client.Some? ==> client.value.lastUpdate <= t
    ensures SameFuture(s, Some(After(s, client, t)), client, t)
  {
    hide Refill;
    forall u: real | t <= u
      ensures Refilled(s, Some(After(s, client, t)), u) == Refilled(s, client, u)
    {
      RefillGrows(s, 0.0, u - t);
      if client.Some? {
        var last := client.value.lastUpdate;
        RefillAdds(s, t - last, u - t);
        assert (t - last) + (u - t) == u - last;
      }
    }
  }

  /** The calls among the first n that are kept. */
  function Kept(times: seq<real>, keep: seq<bool>, n: nat): seq<real>
    requires n <= |times| && n <= |keep|
  {
    if n == 0 then []
    else Kept(times, keep, n - 1) + (if keep[n - 1] then [times[n - 1]] else [])
  }

  lemma {:induction false} BucketOfPrefix(s: Settings, start: Option<Info>, times: seq<real>, more: seq<real>, n: nat)
    requires n <= |times|
    ensures Bucket(s, start, times + more, n) == Bucket(s, start, times, n)
  {
    if n > 0 {
      BucketOfPrefix(s, start, times, more, n - 1);
    }
  }

  lemma {:induction false} LastUpdateInPast(s: Settings, times: seq<real>, n: nat, t: real)
    requires n <= |times| && forall i :: 0 <= i < n ==> times[i] <= t
    ensures var b := Bucket(s, None, times, n); b.Some? ==> b.value.lastUpdate <= t
  {
  }

  /** Only rejected calls are left out. */
  predicate KeepsAdmitted(s: Settings, times: seq<real>, keep: seq<bool>) {
    |keep| == |times| && forall i :: 0 <= i < |times| && !keep[i] ==> !IsAdmitted(s, None, times, i)
  }

  lemma {:induction false} KeptHaveSameFuture(s: Settings, times: seq<real>, keep: seq<bool>, n: nat, t: real)
    requires InOrder(times) && KeepsAdmitted(s, times, keep) && n <= |times|
    requires forall i :: 0 <= i < n ==> times[i] <= t
    ensures var kept := Kept(times, keep, n);
            SameFuture(s, Bucket(s, None, times, n), Bucket(s, None, kept, |kept|), t)
  {
    hide Refilled, InOrder;
    if n > 0 {
      var last := times[n - 1];
      var kept := Kept(times, keep, n - 1);
      var full := Bucket(s, None, times, n - 1);
      var thin := Bucket(s, None, kept, |kept|);
      assert forall i :: 0 <= i < n - 1 ==> times[i] <= last by { Sorted(times, n - 1); }
      KeptHaveSameFuture(s, times, keep, n - 1, last);
      assert Refilled(s, full, last) == Refilled(s, thin, last);
      if keep[n - 1] {
        var longer := kept + [last];
        assert Kept(times, keep, n) == longer;
        BucketOfPrefix(s, None, kept, [last], |kept|);
        assert Bucket(s, None, longer, |longer|) == Some(After(s, thin, last));
        assert After(s, thin, last) == After(s, full, last);
      } else {
        assert Kept(times, keep, n) == kept;
        assert !IsAdmitted(s, None, times, n - 1);
        AdmittedByTokens(s, None, times, n - 1);
        LastUpdateInPast(s, times, n - 1, last);
        RejectionChangesNothing(s, full, last);
        assert Bucket(s, None, times, n) == Some(After(s, full, last));
      }
    }
  }

  lemma Sorted(times: seq<real>, n: nat)
    requires InOrder(times) && n < |times|
    ensures forall i :: 0 <= i < n ==> times[i] <= times[n]
  {
  }

  /** Leaving any rejected calls out of a client's history changes the decision on no later call. */
  lemma RejectionsAreFree(s: Settings, times: seq<real>, keep: seq<bool>, n: nat)
    requires InOrder(times) && KeepsAdmitted(s, times, keep) && n < |times|
    ensures var kept := Kept(times, keep, n);
            && TokensAt(s, None, kept + [times[n]], |kept|) == TokensAt(s, None, times, n)
            && (IsAdmitted(s, None, kept + [times[n]], |kept|) <==> IsAdmitted(s, None, times, n))
  {
    var kept := Kept(times, keep, n);
    AdmittedByTokens(s, None, kept + [times[n]], |kept|);
    AdmittedByTokens(s, None, times, n);
    hide Refilled, InOrder, IsAdmitted;
    Sorted(times, n);
    KeptHaveSameFuture(s, times, keep, n, times[n]);
    BucketOfPrefix(s, None, kept, [times[n]], |kept|);
  }

  // ----- The reported reset -----

  lemma CeilingBounds(x: real)
    ensures x <= Ceiling(x) as real < x + 1.0
  {
  }

  lemma QuotientTimes(x: real, r: real)
    requires r > 0.0
    ensures (x / r) * r == x
  {
  }

  /** The quotient is at most an hour's worth of the tokens missing, far from the limit of a u64. */
  lemma QuotientIsSmall(x: real, r: real)
    requires x >= 0.0 && r * 60.0 >= 1.0
    ensures 0.0 <= x / r <= 60.0 * x
  {
    var q := x / r;
    assert q * r == x;
    if q < 0.0 {
      ProductGrows(r, -q);
    } else {
      ProductGrows(q, r * 60.0 - 1.0);
      assert (r * 60.0 - 1.0) * q == 60.0 * x - q;
    }
  }

  lemma ResetIsCeiling(s: Settings, tokens: real)
    requires s.requestsPerMinute > 0 && 0.0 <= tokens < 1.0 && tokens <= Burst(s)
    ensures ResetSeconds(s, tokens) == Ceiling((Burst(s) - tokens) / Rate(s))
  {
    var x, r := Burst(s) - tokens, Rate(s);
    QuotientIsSmall(x, r);
    CeilingBounds(x / r);
  }

  /** The seconds that bring exactly the tokens missing, rounded up, are reported. */
  lemma ResetCoversMissing(s: Settings, tokens: real) returns (exact: real)
    requires s.requestsPerMinute > 0 && 0.0 <= tokens < 1.0 && tokens <= Burst(s)
    ensures 0.0 <= exact <= ResetSeconds(s, tokens) as real < exact + 1.0
    ensures Refill(s, exact) == Burst(s) - tokens
  {
    exact := (Burst(s) - tokens) / Rate(s);
    ResetIsCeiling(s, tokens);
    CeilingBounds(exact);
    QuotientTimes(Burst(s) - tokens, Rate(s));
    QuotientIsSmall(Burst(s) - tokens, Rate(s));
  }

  /** Waiting the reported seconds fills the bucket, and one second less does not. */
  lemma ResetFillsBucket(s: Settings, tokens: real, t: real)
    requires s.requestsPerMinute > 0 && 0.0 <= tokens < 1.0 && tokens <= Burst(s)
    ensures forall u: real :: t + ResetSeconds(s, tokens) as real <= u ==>
              Refilled(s, Some(Info(tokens, t)), u) == Burst(s)
    ensures var reset := ResetSeconds(s, tokens) as real;
            reset >= 1.0 ==> Refilled(s, Some(Info(tokens, t)), t + reset - 1.0) < Burst(s)
  {
    hide Refill, ResetSeconds, Burst;
    var exact := ResetCoversMissing(s, tokens);
    var reset := ResetSeconds(s, tokens) as real;
    forall u: real | t + reset <= u
      ensures Refilled(s, Some(Info(tokens, t)), u) == Burst(s)
    {
      RefillGrows(s, exact, u - t);
    }
    RefillGrows(s, reset - 1.0, exact);
  }

  lemma {:induction false} FullBucketServes(s: Settings, start: Option<Info>, times: seq<real>, n: nat)
    requires InOrder(times) && n < |times| <= s.burstSize
    requires Refilled(s, start, times[0]) == Burst(s)
    ensures TokensAt(s, start, times, n) >= Burst(s) - n as real
  {
    hide Refill, Refilled, InOrder;
    if n > 0 {
      FullBucketServes(s, start, times, n - 1);
      Sorted(times, n);
      RefilledAfter(s, Bucket(s, start, times, n - 1), times[n - 1], times[n]);
      RefillGrows(s, 0.0, times[n] - times[n - 1]);
    }
  }

  /**
   After a rejection at time t, a burst of calls none of which comes before t and the reported reset is
   admitted whole.
   */
  lemma ResetPromiseIsKept(s: Settings, client: Option<Info>, t: real, times: seq<real>, n: nat)
    requires s.requestsPerMinute > 0 && Sane(s, client) && InOrder(times) && n < |times| <= s.burstSize
    ensures Answer(s, client, t).Rejected? && t + Answer(s, client, t).reset as real <= times[0] ==>
              IsAdmitted(s, Some(After(s, client, t)), times, n)
  {
    hide InOrder, Refill, ResetSeconds;
    SaneAfter(s, client, t);
    var start := Some(After(s, client, t));
    if Answer(s, client, t).Rejected? && t + Answer(s, client, t).reset as real <= times[0] {
      ResetFillsBucket(s, start.value.tokens, t);
      FullBucketServes(s, start, times, n);
      AdmittedByTokens(s, start, times, n);
    }
  }

  /** One second before the reported reset a whole burst of calls is not admitted: its last call is rejected. */
  lemma ResetIsNoLater(s: Settings, client: Option<Info>, t: real, times: seq<real>, n: nat)
    requires s.requestsPerMinute > 0 && Sane(s, client) && n + 1 == |times| == s.burstSize
    requires forall i :: 0 <= i < |times| ==> times[i] == times[0]
    ensures var reply := Answer(s, client, t);
            reply.Rejected? && reply.reset >= 1 && times[0] == t + reply.reset as real - 1.0 ==>
              !IsAdmitted(s, Some(After(s, client, t)), times, n)
  {
    hide Refill, ResetSeconds, Refilled;
    SaneAfter(s, client, t);
    var reply, start := Answer(s, client, t), Some(After(s, client, t));
    if reply.Rejected? && reply.reset >= 1 && times[0] == t + reply.reset as real - 1.0 {
      ResetFillsBucket(s, start.value.tokens, t);
      SaneAfter(s, start, times[0]);
      TokensAtMoment(s, start, times, n);
      AdmittedByTokens(s, start, times, n);
    }
  }

  /** Calls at one moment take a token each while there is one. */
  lemma {:induction false} TokensAtMoment(s: Settings, start: Option<Info>, times: seq<real>, n: nat)
    requires Sane(s, start) && n < |times| && forall i :: 0 <= i < |times| ==> times[i] == times[0]
    ensures var tokens := Refilled(s, start, times[0]);
            TokensAt(s, start, times, n) == tokens - (if n < tokens.Floor then n else tokens.Floor) as real
  {
    hide Refill, Refilled;
    SaneAfter(s, start, times[0]);
    RefillGrows(s, 0.0, 0.0);
    if n > 0 {
      TokensAtMoment(s, start, times, n - 1);
      BucketIsSane(s, start, times, n - 1);
      SaneAfter(s, Bucket(s, start, times, n - 1), times[0]);
      RefilledAfter(s, Bucket(s, start, times, n - 1), times[0], times[0]);
    }
  }

  /** When nothing is refilled a rejected call is told 2^64 - 1 seconds, and 0 if the burst is 0 besides. */
  lemma ResetWithoutRefill(s: Settings, client: Option<Info>, t: real)
    requires s.requestsPerMinute == 0 && Sane(s, client)
    ensures var reply := Answer(s, client, t);
            reply.Rejected? ==> reply.reset == if s.burstSize == 0 then 0 else 0x1_0000_0000_0000_0000 - 1
  {
    SaneAfter(s, client, t);
  }

  lemma AdmittedResetIsSixty(s: Settings, client: Option<Info>, t: real)
    requires Sane(s, client)
    ensures Answer(s, client, t).Admitted? ==> Answer(s, client, t).reset == 60
  {
    if Answer(s, client, t).Admitted? {
      assert Refilled(s, client, t).Floor >= 1;
    }
  }

  /**
   An admitted call reports sixty seconds whatever is missing: after them the bucket is full exactly when no more
   tokens are missing than a minute brings.
   */
  lemma AdmittedResetFillsExactly(s: Settings, client: Option<Info>, t: real, u: real)
    requires Sane(s, client)
    ensures var after := After(s, client, t);
            Answer(s, client, t).Admitted? && u == t + Answer(s, client, t).reset as real ==>
              (Refilled(s, Some(after), u) == Burst(s) <==> Burst(s) - after.tokens <= s.requestsPerMinute as real)
  {
    AdmittedResetIsSixty(s, client, t);
    SaneAfter(s, client, t);
    MinuteBrings(s);
  }

  lemma MinuteBrings(s: Settings)
    ensures Refill(s, 60.0) == s.requestsPerMinute as real
  {
  }

  /**
   The reported remaining is the number of further calls at the same moment that are admitted, no more and no
   fewer.
   */
  lemma RemainingIsExact(s: Settings, client: Option<Info>, t: real, times: seq<real>, n: nat)
    requires Sane(s, client) && n < |times| && forall i :: 0 <= i < |times| ==> times[i] == t
    ensures Answer(s, client, t).Admitted? ==>
              (IsAdmitted(s, Some(After(s, client, t)), times, n) <==> n < Answer(s, client, t).remaining)
  {
    SaneAfter(s, client, t);
    var start := Some(After(s, client, t));
    TokensAtMoment(s, start, times, n);
    AdmittedByTokens(s, start, times, n);
    RefillGrows(s, 0.0, 0.0);
  }

  // ----- Many clients -----

  datatype Call = Call(ip: IpAddr, time: real)

  /** The table after all calls, as check_rate_limit leaves it one call after the other. */
  function AfterCalls(s: Settings, calls: seq<Call>): map<IpAddr, Info> {
    if calls == [] then map[]
    else
      var before, c := AfterCalls(s, calls[..|calls| - 1]), calls[|calls| - 1];
      before[c.ip := After(s, Lookup(before, c.ip), c.time)]
  }

  function TimesOf(calls: seq<Call>, ip: IpAddr): seq<real> {
    if calls == [] then []
    else
      var c := calls[|calls| - 1];
      TimesOf(calls[..|calls| - 1], ip) + (if c.ip == ip then [c.time] else [])
  }

  lemma EntryAfterCall(s: Settings, before: map<IpAddr, Info>, c: Call, ip: IpAddr)
    ensures Lookup(before[c.ip := After(s, Lookup(before, c.ip), c.time)], ip)
            == if c.ip == ip then Some(After(s, Lookup(before, ip), c.time)) else Lookup(before, ip)
  {
  }

  /** A client's entry depends on its own calls alone, however the calls of all clients interleave. */
  lemma {:induction false} ClientsAreIndependent(s: Settings, calls: seq<Call>, ip: IpAddr)
    ensures var own := TimesOf(calls, ip); Lookup(AfterCalls(s, calls), ip) == Bucket(s, None, own, |own|)
  {
    hide After, Lookup;
    if calls == [] {
      assert Lookup(map[], ip) == None by { NoClients(ip); }
    } else {
      var before, c := calls[..|calls| - 1], calls[|calls| - 1];
      var own := TimesOf(before, ip);
      ClientsAreIndependent(s, before, ip);
      EntryAfterCall(s, AfterCalls(s, before), c, ip);
      assert own + [] == own;
      if c.ip == ip {
        BucketOfPrefix(s, None, own, [c.time], |own|);
        assert Bucket(s, None, own + [c.time], |own| + 1) == Some(After(s, Bucket(s, None, own, |own|), c.time));
      }
    }
  }

  lemma NoClients(ip: IpAddr)
    ensures Lookup(map[], ip) == None
  {
  }
}
