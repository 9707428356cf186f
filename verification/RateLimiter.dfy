/** The gateway's token-bucket limiter: one stored number per client stands for a bound on
    every window of that client's calls. */
module RateLimiter {

  datatype Call = Call(time: real, allowed: bool)

  datatype Config = Config(rate: int, burst: int)

  function MinReal(a: real, b: real): (r: real)
    ensures r <= a && r <= b && (r == a || r == b)
  {
    if a < b then a else b
  }

  function Cost(allowed: bool): real {
    if allowed then 1.0 else 0.0
  }

  /** Tokens that arrive in a span of time. */
  function Refill(c: Config, span: real): real {
    c.rate as real * span
  }

  lemma RefillInNumbers(c: Config, span: real)
    ensures Refill(c, span) == c.rate as real * span
  {
  }

  lemma RefillAdds(c: Config, a: real, b: real)
    ensures Refill(c, a + b) == Refill(c, a) + Refill(c, b)
    ensures Refill(c, 0.0) == 0.0
  {
  }

  lemma RefillGrows(c: Config, a: real, b: real)
    requires a <= b && c.rate >= 0
    ensures Refill(c, a) <= Refill(c, b)
  {
  }

  // ---------------------------------------------------------------- the bucket as a function of the history

  /** Tokens in the bucket when a call at `now` follows the calls h. */
  function Refilled(c: Config, h: seq<Call>, now: real): (r: real)
    ensures r <= c.burst as real
    decreases |h|, 1
  {
    if h == [] then c.burst as real
    else MinReal(c.burst as real, Stored(c, h) + Refill(c, now - h[|h| - 1].time))
  }

  /** Tokens left in the bucket after the calls h. */
  function Stored(c: Config, h: seq<Call>): real
    requires h != []
    decreases |h|, 0
  {
    var n := |h| - 1;
    Refilled(c, h[..n], h[n].time) - Cost(h[n].allowed)
  }

  /** Each call was allowed exactly when a whole token was there. */
  ghost predicate Faithful(c: Config, h: seq<Call>) {
    forall i :: 0 <= i < |h| ==> (h[i].allowed <==> Refilled(c, h[..i], h[i].time) >= 1.0)
  }

  ghost predicate NonDecreasing(h: seq<Call>) {
    forall i, j :: 0 <= i < j < |h| ==> h[i].time <= h[j].time
  }

  // ---------------------------------------------------------------- windows

  /** Allowed calls from position i on. */
  function AllowedFrom(h: seq<Call>, i: nat): nat
    requires i <= |h|
    decreases |h|
  {
    if i == |h| then 0
    else AllowedFrom(h[..|h| - 1], i) + if h[|h| - 1].allowed then 1 else 0
  }

  /** AllowedFrom counts the positions of allowed calls. */
  lemma {:induction false} AllowedFromCounts(h: seq<Call>, i: nat)
    requires i <= |h|
    ensures AllowedFrom(h, i) == |set j | i <= j < |h| && h[j].allowed|
    decreases |h|
  {
    var all := set j | i <= j < |h| && h[j].allowed;
    if i == |h| {
      assert all == {};
    } else {
      var n := |h| - 1;
      var earlier := set j | i <= j < |h[..n]| && h[..n][j].allowed;
      AllowedFromCounts(h[..n], i);
      assert all == earlier + if h[n].allowed then {n} else {};
    }
  }

  function WindowStart(h: seq<Call>, now: real, i: nat): real
    requires i <= |h|
  {
    if i < |h| then h[i].time else now
  }

  /** What the window from call i to now still has room for; i = |h| is the current call. */
  function Room(c: Config, h: seq<Call>, now: real, i: nat): real
    requires i <= |h|
  {
    c.burst as real + Refill(c, now - WindowStart(h, now, i)) - AllowedFrom(h, i) as real
  }

  lemma RoomShrinks(c: Config, h: seq<Call>, now: real, i: nat)
    requires h != [] && i < |h|
    ensures var n := |h| - 1;
            Room(c, h, now, i) == Room(c, h[..n], h[n].time, i) - Cost(h[n].allowed) + Refill(c, now - h[n].time)
  {
    hide Refill;
    var n := |h| - 1;
    RefillAdds(c, h[n].time - h[i].time, now - h[n].time);
    assert (h[n].time - h[i].time) + (now - h[n].time) == now - h[i].time;
    if i == n { RefillAdds(c, 0.0, 0.0); }
  }

  /** The stored number is the least room of all windows that end now. */
  lemma {:induction false} TokensAreLeastRoom(c: Config, h: seq<Call>, now: real) returns (best: nat)
    ensures forall i :: 0 <= i <= |h| ==> Refilled(c, h, now) <= Room(c, h, now, i)
    ensures best <= |h| && Refilled(c, h, now) == Room(c, h, now, best)
  {
    hide Refill;
    best := |h|;
    RefillAdds(c, 0.0, 0.0);
    if h != [] {
      var n := |h| - 1;
      var earlier := TokensAreLeastRoom(c, h[..n], h[n].time);
      forall i | 0 <= i <= |h|
        ensures Refilled(c, h, now) <= Room(c, h, now, i)
      {
        if i < |h| { RoomShrinks(c, h, now, i); }
      }
      RoomShrinks(c, h, now, earlier);
      if Refilled(c, h, now) != c.burst as real { best := earlier; }
    }
  }

  lemma RefusedIffNoRoom(c: Config, h: seq<Call>, now: real)
    ensures Refilled(c, h, now) < 1.0 <==> exists i :: 0 <= i <= |h| && Room(c, h, now, i) < 1.0
  {
    var best := TokensAreLeastRoom(c, h, now);
    hide Room;
    if Refilled(c, h, now) < 1.0 {
      assert Room(c, h, now, best) < 1.0;
    }
  }

  lemma RoomInNumbers(c: Config, h: seq<Call>, now: real, i: nat)
    requires i <= |h|
    ensures Room(c, h, now, i)
         == c.burst as real + c.rate as real * (now - WindowStart(h, now, i)) - AllowedFrom(h, i) as real
  {
  }

  /** One more allowed call would make some window, from an earlier or the current call of the key until now,
      hold more than burst + rate * length. */
  ghost predicate WindowFull(c: Config, h: seq<Call>, now: real) {
    exists i :: 0 <= i <= |h| &&
      AllowedFrom(h, i) as real + 1.0 > c.burst as real + c.rate as real * (now - WindowStart(h, now, i))
  }

  /** A call is refused exactly when some window is full. */
  lemma RefusedIffWindowFull(c: Config, h: seq<Call>, now: real)
    ensures Refilled(c, h, now) < 1.0 <==> WindowFull(c, h, now)
  {
    RefusedIffNoRoom(c, h, now);
    forall i | 0 <= i <= |h|
      ensures Room(c, h, now, i) < 1.0 <==>
              AllowedFrom(h, i) as real + 1.0 > c.burst as real + c.rate as real * (now - WindowStart(h, now, i))
    {
      RoomInNumbers(c, h, now, i);
    }
    hide Room, Refilled, AllowedFrom;
  }

  /** Allowed calls at times in [a, b]. */
  function AllowedWithin(h: seq<Call>, a: real, b: real): nat {
    if h == [] then 0
    else
      var last := h[|h| - 1];
      AllowedWithin(h[..|h| - 1], a, b) + if last.allowed && a <= last.time <= b then 1 else 0
  }

  /** AllowedWithin counts the positions of allowed calls at those times. */
  lemma {:induction false} AllowedWithinCounts(h: seq<Call>, a: real, b: real)
    ensures AllowedWithin(h, a, b) == |set j | 0 <= j < |h| && h[j].allowed && a <= h[j].time <= b|
  {
    var all := set j | 0 <= j < |h| && h[j].allowed && a <= h[j].time <= b;
    if h == [] {
      assert all == {};
    } else {
      var n := |h| - 1;
      var earlier := set j | 0 <= j < |h[..n]| && h[..n][j].allowed && a <= h[..n][j].time <= b;
      AllowedWithinCounts(h[..n], a, b);
      assert all == earlier + if h[n].allowed && a <= h[n].time <= b then {n} else {};
    }
  }

  /** Calls before a do not count, and the calls from a on all count up to the last one. */
  lemma {:induction false} WithinIsFrom(h: seq<Call>, a: real, b: real, i: nat)
    requires NonDecreasing(h) && i <= |h| && (h != [] ==> h[|h| - 1].time <= b)
    requires (forall j :: 0 <= j < i ==> h[j].time < a) && (forall j :: i <= j < |h| ==> a <= h[j].time)
    ensures AllowedWithin(h, a, b) == AllowedFrom(h, i)
    decreases |h|
  {
    if h != [] {
      var n := |h| - 1;
      WithinIsFrom(h[..n], a, b, if i == |h| then n else i);
    }
  }

  lemma FirstFrom(h: seq<Call>, a: real) returns (i: nat)
    requires NonDecreasing(h)
    ensures i <= |h| && (forall j :: 0 <= j < i ==> h[j].time < a) && (forall j :: i <= j < |h| ==> a <= h[j].time)
  {
    i := 0;
    while i < |h| && h[i].time < a
      invariant i <= |h| && forall j :: 0 <= j < i ==> h[j].time < a
    {
      i := i + 1;
    }
  }

  /** An allowed call at the end of a window: the window from its first call had room. */
  lemma AllowedCallHadRoom(c: Config, h: seq<Call>, a: real, b: real)
    requires h != [] && NonDecreasing(h) && c.rate >= 0
    requires h[|h| - 1].allowed && a <= h[|h| - 1].time <= b
    requires Refilled(c, h[..|h| - 1], h[|h| - 1].time) >= 1.0
    ensures AllowedWithin(h, a, b) as real <= c.burst as real + Refill(c, b - a)
  {
    hide Refill, Refilled;
    var n := |h| - 1;
    var i := FirstFrom(h, a);
    WithinIsFrom(h, a, b, i);
    RefusedIffNoRoom(c, h[..n], h[n].time);
    assert Room(c, h[..n], h[n].time, i) >= 1.0;
    RefillGrows(c, h[n].time - h[i].time, b - a);
  }

  lemma FaithfulPrefix(c: Config, h: seq<Call>)
    requires Faithful(c, h) && h != []
    ensures Faithful(c, h[..|h| - 1])
  {
    hide Refill;
    var p := h[..|h| - 1];
    forall i | 0 <= i < |p|
      ensures p[i].allowed <==> Refilled(c, p[..i], p[i].time) >= 1.0
    {
      assert p[..i] == h[..i];
    }
  }

  lemma {:induction false} WindowHadRoom(c: Config, h: seq<Call>, a: real, b: real)
    requires c.rate >= 0 && c.burst >= 0 && a <= b
    requires Faithful(c, h) && NonDecreasing(h)
    ensures AllowedWithin(h, a, b) as real <= c.burst as real + Refill(c, b - a)
  {
    hide Refill, Refilled;
    if h == [] {
      RefillGrows(c, 0.0, b - a);
      RefillAdds(c, 0.0, 0.0);
    } else {
      var n := |h| - 1;
      FaithfulPrefix(c, h);
      WindowHadRoom(c, h[..n], a, b);
      if h[n].allowed && a <= h[n].time <= b {
        AllowedCallHadRoom(c, h, a, b);
      }
    }
  }

  /** In every run, no window of any length admits more than burst + rate * length calls. */
  lemma WindowBound(c: Config, h: seq<Call>, a: real, b: real)
    requires c.rate >= 0 && c.burst >= 0 && a <= b
    requires Faithful(c, h) && NonDecreasing(h)
    ensures AllowedWithin(h, a, b) as real <= c.burst as real + c.rate as real * (b - a)
  {
    hide *;
    WindowHadRoom(c, h, a, b);
    RefillInNumbers(c, b - a);
  }

  /** The bucket never holds less than nothing nor more than its capacity. */
  lemma {:induction false} TokensInRange(c: Config, h: seq<Call>)
    requires c.rate >= 0 && c.burst >= 0 && h != [] && Faithful(c, h) && NonDecreasing(h)
    ensures 0.0 <= Stored(c, h) <= c.burst as real
  {
    hide Refill;
    var n := |h| - 1;
    if n > 0 {
      FaithfulPrefix(c, h);
      TokensInRange(c, h[..n]);
      RefillGrows(c, 0.0, h[n].time - h[n - 1].time);
      RefillAdds(c, 0.0, 0.0);
    }
    assert h[n].allowed <==> Refilled(c, h[..n], h[n].time) >= 1.0;
  }

  // ---------------------------------------------------------------- the limiter

  lemma RefilledAfter(c: Config, h: seq<Call>, now: real)
    ensures h == [] ==> Faithful(c, h)
    ensures h == [] ==> Refilled(c, h, now) == c.burst as real ==
                        MinReal(c.burst as real, c.burst as real + Refill(c, 0.0))
    ensures h != [] ==> Refilled(c, h, now) ==
                        MinReal(c.burst as real, Stored(c, h) + Refill(c, now - h[|h| - 1].time))
  {
    RefillAdds(c, 0.0, 0.0);
    hide Refill;
  }

  lemma FaithfulSnoc(c: Config, h: seq<Call>, call: Call)
    requires Faithful(c, h) && (call.allowed <==> Refilled(c, h, call.time) >= 1.0)
    ensures Faithful(c, h + [call])
    ensures Stored(c, h + [call]) == Refilled(c, h, call.time) - Cost(call.allowed)
  {
    hide Refill;
    var r := h + [call];
    assert r[..|h|] == h;
    forall i | 0 <= i < |r|
      ensures r[i].allowed <==> Refilled(c, r[..i], r[i].time) >= 1.0
    {
      if i < |h| { assert r[..i] == h[..i]; }
    }
  }

  class TokenBucket {
    var tokens: real
    var lastTime: real
    /** The calls this bucket decided. */
    ghost var calls: seq<Call>

    constructor (tokens: real, lastTime: real)
      ensures this.tokens == tokens && this.lastTime == lastTime && calls == []
    {
      this.tokens, this.lastTime, calls := tokens, lastTime, [];
    }

    /** The stored number is what the calls so far leave. */
    ghost predicate Shows(c: Config)
      reads this
    {
      calls != [] && Faithful(c, calls) && tokens == Stored(c, calls) && lastTime == calls[|calls| - 1].time
    }

    /** Refill the bucket and take a token if a whole one is there. */
    method Decide(c: Config, now: real) returns (ok: bool)
      requires Shows(c) || (calls == [] && tokens == c.burst as real && lastTime == now)
      modifies this
      ensures ok <==> Refilled(c, old(calls), now) >= 1.0
      ensures Shows(c) && calls == old(calls) + [Call(now, ok)]
    {
      hide Refill, Refilled, Stored, Faithful;
      RefilledAfter(c, calls, now);
      var elapsed := now - lastTime;
      tokens := MinReal(c.burst as real, tokens + Refill(c, elapsed));
      lastTime := now;
      ok := !(tokens < 1.0);
      if ok {
        tokens := tokens - 1.0;
      }
      FaithfulSnoc(c, calls, Call(now, ok));
      calls := calls + [Call(now, ok)];
    }
  }

  class RateLimiter {
    const config: Config
    var buckets: map<string, TokenBucket>

    ghost predicate Valid()
      reads this, buckets.Values
    {
      && (forall j, k :: j in buckets && k in buckets && j != k ==> buckets[j] != buckets[k])
      && forall k :: k in buckets ==> buckets[k].Shows(config)
    }

    /** The calls of a key so far. */
    ghost function CallsOf(key: string): seq<Call>
      reads this, buckets.Values
    {
      if key in buckets then buckets[key].calls else []
    }

    constructor (rate: int, burst: int)
      ensures Valid() && buckets == map[] && config == Config(rate, burst)
    {
      config, buckets := Config(rate, burst), map[];
    }

    /** Decide one call of a key, from the calls of that key only. */
    method Allow(key: string, now: real) returns (ok: bool)
      requires Valid()
      modifies this, buckets.Values
      ensures Valid() && fresh(buckets.Values - old(buckets.Values))
      ensures ok <==> !WindowFull(config, old(CallsOf(key)), now)
      ensures CallsOf(key) == old(CallsOf(key)) + [Call(now, ok)]
      ensures forall k :: k != key ==> CallsOf(k) == old(CallsOf(k))
    {
      hide Refilled, Stored, Faithful, WindowFull;
      RefusedIffWindowFull(config, CallsOf(key), now);
      if key !in buckets {
        var fullBucket := new TokenBucket(config.burst as real, now);
        buckets := buckets[key := fullBucket];
      }
      ok := buckets[key].Decide(config, now);
    }
  }
}
