/**
 A token bucket per key, and the window law it enforces: a request is let
 through exactly when no stretch of requests ending with it would hold more than
 `burst + rate * length`.
 */
module RateLimit {

  datatype Bucket = Bucket(tokens: real, lastRef: real)

  /** One request of one key, as answered. */
  datatype Request = Request(time: real, allowed: bool)

  /** Tokens refilled over a time. */
  function Earned(rate: real, time: real): real {
    rate * time
  }

  lemma EarnedIsProduct(rate: real, time: real)
    ensures Earned(rate, time) == rate * time
  {
  }

  lemma EarnedAdds(rate: real, a: real, b: real)
    ensures Earned(rate, a + b) == Earned(rate, a) + Earned(rate, b)
  {
  }

  lemma EarnedGrows(rate: real, a: real, b: real)
    requires rate >= 0.0 && a <= b
    ensures Earned(rate, a) <= Earned(rate, b)
  {
  }

  datatype Rates = Rates(rate: real, burst: real)
  {
    function Refilled(b: Bucket, now: real): real {
      var tokens := b.tokens + Earned(rate, now - b.lastRef);
      if tokens > burst then burst else tokens
    }

    /** The bucket a history leaves; a key never seen has a full one. */
    ghost function After(h: seq<Request>): Bucket
      requires h != []
      decreases |h|, 0
    {
      var last := h[|h| - 1];
      var tokens := Before(h[..|h| - 1], last.time);
      Bucket(if last.allowed then tokens - 1.0 else tokens, last.time)
    }

    /** The tokens a request at `now` finds. */
    ghost function Before(h: seq<Request>, now: real): real
      decreases |h|, 1
    {
      if h == [] then burst else Refilled(After(h), now)
    }

    /** A history answered by the limiter. */
    ghost predicate Answered(h: seq<Request>) {
      forall i | 0 <= i < |h| :: h[i].allowed <==> Before(h[..i], h[i].time) >= 1.0
    }

    /** What the window from request `j` (or from `now`) still has room for. */
    ghost function Room(h: seq<Request>, now: real, j: nat): real
      requires j <= |h|
    {
      burst + Earned(rate, now - TimeOf(h, now, j)) - Allowed(h[j..]) as real
    }

  }

  ghost function TimeOf(h: seq<Request>, now: real, j: nat): real
    requires j <= |h|
  {
    if j < |h| then h[j].time else now
  }

  ghost function Allowed(h: seq<Request>): nat {
    if h == [] then 0 else Allowed(h[..|h| - 1]) + if h[|h| - 1].allowed then 1 else 0
  }

  ghost predicate Monotone(h: seq<Request>) {
    forall i, j | 0 <= i <= j < |h| :: h[i].time <= h[j].time
  }

  lemma RoomSnoc(r: Rates, h: seq<Request>, now: real, j: nat)
    requires h != [] && j < |h|
    ensures var last := h[|h| - 1];
      r.Room(h, now, j) == r.Room(h[..|h| - 1], last.time, j) + Earned(r.rate, now - last.time)
                           - if last.allowed then 1.0 else 0.0
  {
    hide Earned;
    var last, front := h[|h| - 1], h[..|h| - 1];
    assert h[j..][..|h[j..]| - 1] == front[j..];
    assert TimeOf(front, last.time, j) == TimeOf(h, now, j);
    var s := TimeOf(h, now, j);
    EarnedAdds(r.rate, last.time - s, now - last.time);
    assert (last.time - s) + (now - last.time) == now - s;
  }

  lemma {:induction false} TokensAreRoom(r: Rates, h: seq<Request>, now: real) returns (tight: nat)
    ensures forall j | 0 <= j <= |h| :: r.Before(h, now) <= r.Room(h, now, j)
    ensures tight <= |h| && r.Before(h, now) == r.Room(h, now, tight)
  {
    assert Earned(r.rate, 0.0) == 0.0;
    hide Earned;
    var n := |h|;
    assert h[n..] == [];
    assert r.Room(h, now, n) == r.burst;
    if h == [] {
      return 0;
    }
    var last, front := h[n - 1], h[..n - 1];
    var w := TokensAreRoom(r, front, last.time);
    forall j | 0 <= j <= n ensures r.Before(h, now) <= r.Room(h, now, j) {
      if j < n {
        RoomSnoc(r, h, now, j);
      }
    }
    RoomSnoc(r, h, now, w);
    tight := if r.Before(h, now) == r.burst then n else w;
  }

  /** The tokens a request finds are the least, over the key's request times up to
      now, of the burst and the refill since less the requests allowed since. */
  lemma TokensAreLeastRoom(r: Rates, h: seq<Request>, now: real) returns (tight: nat)
    ensures forall j | 0 <= j <= |h| ::
      r.Before(h, now) <= r.burst + r.rate * (now - TimeOf(h, now, j)) - Allowed(h[j..]) as real
    ensures tight <= |h|
    ensures r.Before(h, now) == r.burst + r.rate * (now - TimeOf(h, now, tight)) - Allowed(h[tight..]) as real
  {
    tight := TokensAreRoom(r, h, now);
    hide Earned, Rates.Before;
    forall j | 0 <= j <= |h|
      ensures r.Room(h, now, j) == r.burst + r.rate * (now - TimeOf(h, now, j)) - Allowed(h[j..]) as real
    {
      EarnedIsProduct(r.rate, now - TimeOf(h, now, j));
    }
  }

  /** No window ending at `now` is full: each has room for one request more. */
  ghost predicate Fits(rate: real, burst: real, h: seq<Request>, now: real) {
    forall j | 0 <= j <= |h| ::
      Allowed(h[j..]) as real + 1.0 <= burst + rate * (now - TimeOf(h, now, j))
  }

  /** A request is let through exactly when every window ending with it has room
      for one more; a denial has a full window to show for it. */
  lemma AllowsExactlyWhenFits(r: Rates, h: seq<Request>, now: real)
    ensures r.Before(h, now) >= 1.0 <==> Fits(r.rate, r.burst, h, now)
  {
    var tight := TokensAreLeastRoom(r, h, now);
    hide Rates.Before;
  }

  lemma AllowedSplits(h: seq<Request>, k: nat)
    requires k < |h|
    ensures Allowed(h[..k + 1]) == Allowed(h[..k]) + if h[k].allowed then 1 else 0
  {
    assert h[..k + 1][..k] == h[..k];
  }

  lemma AllowedHasRoom(r: Rates, h: seq<Request>, i: nat, j: nat)
    requires r.Answered(h) && i <= j < |h| && h[j].allowed
    ensures r.Room(h[..j], h[j].time, i) >= 1.0
  {
    hide Earned, Rates.Before, Rates.Room;
    var tight := TokensAreRoom(r, h[..j], h[j].time);
  }

  lemma {:induction false} WindowHolds(r: Rates, h: seq<Request>, i: nat, j: nat)
    requires r.Answered(h) && Monotone(h) && r.rate >= 0.0 && i <= j < |h|
    ensures var count := Allowed(h[i..j + 1]);
      count > 0 ==> count as real <= r.burst + Earned(r.rate, h[j].time - h[i].time)
    decreases j
  {
    assert Earned(r.rate, 0.0) == 0.0;
    hide Earned, Rates.Before, Rates.Answered;
    var upTo := h[..j];
    AllowedSplits(h[i..], j - i);
    assert h[i..][..j - i + 1] == h[i..j + 1] && h[i..][..j - i] == h[i..j] == upTo[i..];
    if h[j].allowed {
      AllowedHasRoom(r, h, i, j);
    } else if i < j {
      WindowHolds(r, h, i, j - 1);
      EarnedGrows(r.rate, h[j - 1].time - h[i].time, h[j].time - h[i].time);
    }
  }

  /** Over any stretch of consecutive requests no more are let through than the
      burst and the refill of the stretch's own length. */
  lemma WindowBound(r: Rates, h: seq<Request>, i: nat, j: nat)
    requires r.Answered(h) && Monotone(h) && r.rate >= 0.0 && i <= j < |h|
    ensures var count := Allowed(h[i..j + 1]);
      count > 0 ==> count as real <= r.burst + r.rate * (h[j].time - h[i].time)
  {
    WindowHolds(r, h, i, j);
    EarnedIsProduct(r.rate, h[j].time - h[i].time);
  }

  /** The same for a window of the clock: the requests that fall in `[from, to]`. */
  lemma ClockWindowBound(r: Rates, h: seq<Request>, i: nat, j: nat, from: real, to: real)
    requires r.Answered(h) && Monotone(h) && r.rate >= 0.0
    requires i <= j <= |h| && (forall k | i <= k < j :: from <= h[k].time <= to)
    ensures var count := Allowed(h[i..j]);
      count > 0 ==> count as real <= r.burst + r.rate * (to - from)
  {
    EarnedIsProduct(r.rate, to - from);
    hide Earned;
    if i < j {
      WindowHolds(r, h, i, j - 1);
      EarnedGrows(r.rate, h[j - 1].time - h[i].time, to - from);
    }
  }

  class Limiter {
    var buckets: map<string, Bucket>
    const rates: Rates
    /** Every request so far, by key. */
    ghost var log: map<string, seq<Request>>

    ghost predicate Valid()
      reads this
    {
      && buckets.Keys == log.Keys
      && forall key | key in log :: log[key] != [] && rates.Answered(log[key]) && buckets[key] == rates.After(log[key])
    }

    ghost function History(key: string): seq<Request>
      reads this
    {
      if key in log then log[key] else []
    }

    constructor (ratePerMinute: int, burst: int)
      ensures Valid() && log == map[]
      ensures rates == Rates(ratePerMinute as real / 60.0, burst as real)
    {
      buckets, log := map[], map[];
      rates := Rates(ratePerMinute as real / 60.0, burst as real);
    }

    method Allow(key: string, now: real) returns (allowed: bool)
      requires Valid()
      modifies this
      ensures Valid()
      ensures allowed <==> Fits(rates.rate, rates.burst, old(History(key)), now)
      ensures log == old(log)[key := old(History(key)) + [Request(now, allowed)]]
      ensures forall other | other != key :: other in buckets <==> other in old(buckets)
      ensures forall other | other != key && other in buckets :: buckets[other] == old(buckets)[other]
    {
      hide Earned, Rates.Before, Rates.After, Rates.Answered, Fits, Rates.Refilled;
      ghost var h := History(key);
      FoundTokens(rates, h, now);
      AllowsExactlyWhenFits(rates, h, now);
      var b;
      if key !in buckets {
        b := Bucket(rates.burst, now);
      } else {
        b := buckets[key];
        b := Bucket(rates.Refilled(b, now), now);
      }
      assert b == Bucket(rates.Before(h, now), now);
      allowed := b.tokens >= 1.0;
      if allowed {
        b := b.(tokens := b.tokens - 1.0);
      }
      ghost var h' := h + [Request(now, allowed)];
      AnsweredSnoc(rates, h, now, allowed);
      buckets := buckets[key := b];
      log := log[key := h'];
    }
  }

  lemma FoundTokens(r: Rates, h: seq<Request>, now: real)
    ensures r.Before(h, now) == if h == [] then r.burst else r.Refilled(r.After(h), now)
    ensures r.Answered([])
  {
  }

  lemma {:induction false} AnsweredSnoc(r: Rates, h: seq<Request>, now: real, allowed: bool)
    requires r.Answered(h) && (allowed <==> r.Before(h, now) >= 1.0)
    ensures r.Answered(h + [Request(now, allowed)])
    ensures r.After(h + [Request(now, allowed)]) ==
      Bucket(r.Before(h, now) - (if allowed then 1.0 else 0.0), now)
  {
    var h' := h + [Request(now, allowed)];
    forall i | 0 <= i < |h'| ensures h'[i].allowed <==> r.Before(h'[..i], h'[i].time) >= 1.0 {
      assert h'[..i] == h[..i];
      assert i == |h| ==> h[..i] == h;
    }
    assert h'[..|h|] == h;
  }
}
