/** The client token bucket of lxmf_hub/egress.py, over exact reals.

    How many tokens time adds is a parameter `gain`, which the class instantiates with
    a constant rate. */
module TokenBuckets {

  type Gain = (real, real) -> real

  /** Tokens added at a constant rate. */
  function AtRate(rate: real): Gain {
    (t: real, u: real) => (u - t) * rate
  }

  ghost predicate Additive(gain: Gain) {
    forall t, u, v | t <= u <= v :: gain(t, v) == gain(t, u) + gain(u, v) && gain(t, u) >= 0.0 && gain(u, v) >= 0.0
  }

  lemma AtRateAdds(rate: real, t: real, u: real, v: real)
    requires rate >= 0.0 && t <= u <= v
    ensures AtRate(rate)(t, v) == AtRate(rate)(t, u) + AtRate(rate)(u, v)
    ensures AtRate(rate)(t, u) >= 0.0 && AtRate(rate)(u, v) >= 0.0
  {
    ProductNonNegative(u - t, rate);
    ProductNonNegative(v - u, rate);
  }

  lemma AtRateAdditive(rate: real, gain: Gain)
    requires rate >= 0.0 && gain == AtRate(rate)
    ensures Additive(gain)
  {
    forall t, u, v | t <= u <= v
      ensures gain(t, v) == gain(t, u) + gain(u, v) && gain(t, u) >= 0.0 && gain(u, v) >= 0.0
    {
      AtRateAdds(rate, t, u, v);
    }
  }

  lemma ProductNonNegative(x: real, y: real)
    requires x >= 0.0 && y >= 0.0
    ensures x * y >= 0.0
  {
  }

  function Min(x: real, y: real): real {
    if x <= y then x else y
  }

  function Max(x: real, y: real): real {
    if x >= y then x else y
  }

  datatype Bucket = Bucket(burst: real, tokens: real, updated: real) {
    predicate Valid() {
      burst >= 1.0 && 0.0 <= tokens <= burst
    }

    /** The tokens a refill at time t would find. */
    function Level(gain: Gain, t: real): real {
      Min(burst, tokens + gain(updated, t))
    }

    /** The bucket after `consume` at time t, which succeeds if a token is there. */
    function Consumed(gain: Gain, t: real): Bucket {
      var level := Level(gain, t);
      Bucket(burst, if level >= 1.0 then level - 1.0 else level, t)
    }

    function Refunded(): Bucket {
      Bucket(burst, Min(burst, tokens + 1.0), updated)
    }
  }

  class TokenBucket {
    const rate: real
    const burst: real
    var tokens: real
    var updated: real

    function State(): Bucket
      reads this
    {
      Bucket(burst, tokens, updated)
    }

    ghost predicate Valid()
      reads this
    {
      rate >= 0.0 && State().Valid()
    }

    constructor (rate: real, burst: real, now: real)
      ensures Valid()
      ensures this.rate == Max(rate, 0.0)
      ensures State() == Bucket(Max(burst, 1.0), Max(burst, 1.0), now)
    {
      this.rate, this.burst := Max(rate, 0.0), Max(burst, 1.0);
      tokens, updated := Max(burst, 1.0), now;
    }

    method Consume(now: real) returns (ok: bool)
      requires Valid() && updated <= now
      modifies this
      ensures Valid() && State() == old(State()).Consumed(AtRate(rate), now)
      ensures ok <==> old(State()).Level(AtRate(rate), now) >= 1.0
      ensures tokens == old(State()).Level(AtRate(rate), now) - (if ok then 1.0 else 0.0) && updated == now
    {
      AtRateAdds(rate, updated, updated, now);
      var gained := AtRate(rate)(updated, now);
      tokens := Min(burst, tokens + gained);
      updated := now;
      if tokens >= 1.0 {
        tokens := tokens - 1.0;
        return true;
      }
      return false;
    }

    method Refund()
      requires Valid()
      modifies this
      ensures Valid() && State() == old(State()).Refunded()
      ensures tokens == (if old(tokens) + 1.0 <= burst then old(tokens) + 1.0 else burst) && updated == old(updated)
    {
      tokens := Min(burst, tokens + 1.0);
    }

    /** How long until the next token: with a positive rate, a consume after waiting
        this long is sure to succeed. */
    method TimeUntil() returns (wait: real)
      requires Valid()
      ensures wait >= 0.0
      ensures rate == 0.0 ==> wait == 60.0
      ensures rate > 0.0 ==> forall t | t >= updated + wait :: State().Level(AtRate(rate), t) >= 1.0
      ensures rate > 0.0 && wait > 0.0 ==> State().Level(AtRate(rate), updated + wait) == 1.0
    {
      if rate <= 0.0 {
        return 60.0;
      }
      wait := Max(0.0, (1.0 - tokens) / rate);
      forall t | t >= updated + wait
        ensures State().Level(AtRate(rate), t) >= 1.0
      {
        Waited(tokens, rate, wait, t - updated);
      }
      Waited(tokens, rate, wait, wait);
    }
  }

  lemma Waited(tokens: real, rate: real, wait: real, elapsed: real)
    requires rate > 0.0 && wait == Max(0.0, (1.0 - tokens) / rate) && elapsed >= wait
    ensures tokens + elapsed * rate >= 1.0
    ensures wait > 0.0 ==> tokens + wait * rate == 1.0
  {
    var exact := (1.0 - tokens) / rate;
    assert exact * rate == 1.0 - tokens;
    ProductNonNegative(elapsed - exact, rate);
    assert elapsed * rate == exact * rate + (elapsed - exact) * rate;
  }

  // -- pacing over a daemon's life ---------------------------------------------

  /** One paced send: a consume at `at`, the send itself done by `out`, and the refund
      when nothing went on air. `handed` says whether the router was given a message,
      which happens at `out`. */
  datatype Attempt = Attempt(at: real, out: real, kept: bool, handed: bool)

  function Try(gain: Gain, b: Bucket, a: Attempt): Bucket {
    if b.Level(gain, a.at) >= 1.0 && !a.kept then b.Consumed(gain, a.at).Refunded() else b.Consumed(gain, a.at)
  }

  function Replay(gain: Gain, b: Bucket, log: seq<Attempt>): Bucket {
    if log == [] then b else Try(gain, Replay(gain, b, log[..|log| - 1]), log[|log| - 1])
  }

  /** Times do not go back, one send is done before the next consume, and a message is
      handed over only on a token that was there and was kept. */
  ghost predicate Paced(gain: Gain, b: Bucket, log: seq<Attempt>) {
    log == [] ||
    var before, last := log[..|log| - 1], log[|log| - 1];
    && Paced(gain, b, before)
    && last.at <= last.out && (before != [] ==> before[|before| - 1].out <= last.at)
    && Replay(gain, b, before).updated <= last.at
    && (last.handed ==> last.kept && Replay(gain, b, before).Level(gain, last.at) >= 1.0)
  }

  lemma PacedGrows(gain: Gain, b: Bucket, log: seq<Attempt>, a: Attempt)
    requires Paced(gain, b, log) && Replay(gain, b, log).updated <= a.at <= a.out
    requires log != [] ==> log[|log| - 1].out <= a.at
    requires a.handed ==> a.kept && Replay(gain, b, log).Level(gain, a.at) >= 1.0
    ensures Paced(gain, b, log + [a])
    ensures Replay(gain, b, log + [a]) == Try(gain, Replay(gain, b, log), a)
  {
    assert (log + [a])[..|log|] == log;
  }

  function Count(a: Attempt): nat {
    if a.handed then 1 else 0
  }

  function Handed(log: seq<Attempt>): nat {
    if log == [] then 0 else Handed(log[..|log| - 1]) + Count(log[|log| - 1])
  }

  lemma {:induction false} HandedAdds(before: seq<Attempt>, after: seq<Attempt>)
    ensures Handed(before + after) == Handed(before) + Handed(after)
  {
    if after == [] {
      assert before + after == before;
    } else {
      assert (before + after)[..|before + after| - 1] == before + after[..|after| - 1];
      HandedAdds(before, after[..|after| - 1]);
    }
  }

  /** One attempt, seen from a time t since the last refill: the bucket stays within
      bounds, and what it holds plus what was handed over is covered. */
  lemma OneAttempt(gain: Gain, b: Bucket, a: Attempt, t: real)
    requires Additive(gain) && b.Valid() && b.updated <= t <= a.at
    requires a.handed ==> a.kept && b.Level(gain, a.at) >= 1.0
    ensures var c := Try(gain, b, a);
      && c.Valid() && c.updated == a.at && c.burst == b.burst
      && Count(a) as real + c.tokens <= b.Level(gain, t) + gain(t, a.at)
  {
    assert gain(b.updated, a.at) == gain(b.updated, t) + gain(t, a.at);
  }

  lemma {:induction false} ReplayValid(gain: Gain, b: Bucket, log: seq<Attempt>)
    requires Additive(gain) && b.Valid() && Paced(gain, b, log)
    ensures Replay(gain, b, log).Valid() && Replay(gain, b, log).burst == b.burst
    ensures log != [] ==> Replay(gain, b, log).updated == log[|log| - 1].at
  {
    if log != [] {
      var n := |log| - 1;
      ReplayValid(gain, b, log[..n]);
      OneAttempt(gain, Replay(gain, b, log[..n]), log[n], log[n].at);
    }
  }

  /** Replaying a log is replaying its parts one after the other. */
  lemma {:induction false} PacedSplit(gain: Gain, b: Bucket, before: seq<Attempt>, after: seq<Attempt>)
    requires Paced(gain, b, before + after)
    ensures Paced(gain, b, before) && Paced(gain, Replay(gain, b, before), after)
    ensures Replay(gain, b, before + after) == Replay(gain, Replay(gain, b, before), after)
  {
    if after == [] {
      assert before + after == before;
    } else {
      var log := before + after;
      assert log[..|log| - 1] == before + after[..|after| - 1];
      PacedSplit(gain, b, before, after[..|after| - 1]);
    }
  }

  /** The accounting behind the bound: tokens left plus messages handed over never
      exceed what was there at t0 plus what time has added since. */
  lemma {:induction false} HandedAccounted(gain: Gain, b: Bucket, log: seq<Attempt>, t0: real)
    requires Additive(gain) && b.Valid() && Paced(gain, b, log) && log != []
    requires b.updated <= t0 <= log[0].at
    ensures t0 <= log[|log| - 1].at
    ensures Handed(log) as real + Replay(gain, b, log).tokens <= b.Level(gain, t0) + gain(t0, log[|log| - 1].at)
  {
    var init, last := log[..|log| - 1], log[|log| - 1];
    if init == [] {
      OneAttempt(gain, b, last, t0);
    } else {
      var mid := init[|init| - 1].at;
      ReplayValid(gain, b, init);
      HandedAccounted(gain, b, init, t0);
      LastAttempt(gain, Replay(gain, b, init), last, t0, mid);
    }
  }

  lemma LastAttempt(gain: Gain, b: Bucket, a: Attempt, t0: real, t: real)
    requires Additive(gain) && b.Valid() && b.updated == t && t0 <= t <= a.at
    requires a.handed ==> a.kept && b.Level(gain, a.at) >= 1.0
    ensures Count(a) as real + Try(gain, b, a).tokens <= b.tokens + (gain(t0, a.at) - gain(t0, t))
  {
    OneAttempt(gain, b, a, t);
    assert gain(t, t) == gain(t, t) + gain(t, t);
    assert gain(t0, a.at) == gain(t0, t) + gain(t, a.at);
  }

  /** In any window [t0, t1] of one daemon's life the messages whose tokens are taken
      in it number at most burst + rate * (t1 - t0), refunds notwithstanding. `before`
      is everything the bucket paced before the window. */
  lemma WindowBound(rate: real, b: Bucket, before: seq<Attempt>, window: seq<Attempt>, t0: real, t1: real)
    requires rate >= 0.0 && b.Valid() && Paced(AtRate(rate), b, before + window)
    requires b.updated <= t0 <= t1
    requires before != [] ==> before[|before| - 1].at <= t0
    requires forall a | a in window :: t0 <= a.at <= t1
    ensures Handed(window) as real <= b.burst + rate * (t1 - t0)
  {
    var gain := AtRate(rate);
    AtRateAdditive(rate, gain);
    WindowGain(gain, b, before, window, t0, t1);
    Commute(rate, t0, t1);
  }

  lemma {:induction false} SendsInTurn(gain: Gain, b: Bucket, log: seq<Attempt>, i: nat, j: nat)
    requires Paced(gain, b, log) && i < j < |log|
    ensures log[i].at <= log[i].out <= log[j].at <= log[j].out
    decreases |log|, j
  {
    var init := log[..|log| - 1];
    if j < |log| - 1 {
      SendsInTurn(gain, b, init, i, j);
    } else if i < j - 1 {
      SendsInTurn(gain, b, init, i, j - 1);
    } else if 0 < i {
      SendsInTurn(gain, b, init, i - 1, i);
    }
  }

  /** The first send of the window took its token before the window began. */
  ghost predicate Straddles(window: seq<Attempt>, t0: real) {
    window != [] && window[0].handed && window[0].at < t0
  }

  ghost predicate OutWithin(window: seq<Attempt>, t0: real, t1: real) {
    forall a | a in window :: t0 <= a.out <= t1
  }

  lemma HandoffGain(gain: Gain, b: Bucket, before: seq<Attempt>, window: seq<Attempt>, t0: real, t1: real)
    requires Additive(gain) && b.Valid() && Paced(gain, b, before + window)
    requires b.updated <= t0 <= t1
    requires before != [] ==> before[|before| - 1].out <= t0
    requires OutWithin(window, t0, t1)
    ensures Handed(window) as real <= b.burst + gain(t0, t1) + if Straddles(window, t0) then 1.0 else 0.0
  {
    InTurnBefore(gain, b, before, window, t0);
    if window == [] || window[0].at >= t0 {
      TakenWithin(gain, b, before, window, t0, t1);
      WindowGain(gain, b, before, window, t0, t1);
    } else {
      assert window == [window[0]] + window[1..];
      StraddledGain(gain, b, before, window[0], window[1..], t0, t1);
      HandedHead(window);
    }
  }

  lemma HandedHead(log: seq<Attempt>)
    requires log != []
    ensures Handed(log) == Count(log[0]) + Handed(log[1..])
  {
    assert log == [log[0]] + log[1..];
    HandedAdds([log[0]], log[1..]);
    assert [log[0]][..0] == [];
  }

  lemma StraddledGain(
    gain: Gain, b: Bucket, before: seq<Attempt>, first: Attempt, rest: seq<Attempt>, t0: real, t1: real)
    requires Additive(gain) && b.Valid() && Paced(gain, b, before + ([first] + rest))
    requires b.updated <= t0 <= t1 && first.at < t0 && OutWithin([first] + rest, t0, t1)
    ensures Handed(rest) as real <= b.burst + gain(t0, t1)
  {
    assert before + ([first] + rest) == (before + [first]) + rest;
    assert ([first] + rest)[1..] == rest;
    TakenAfterFirst(gain, b, before, [first] + rest, t0, t1);
    WindowGain(gain, b, before + [first], rest, t0, t1);
  }

  /** Client pacing: in any window [t0, t1] of one daemon's life the messages handed to
      the router number at most burst + rate * (t1 - t0), and one more only if the first
      of them had taken its token before the window. */
  lemma HandoffBound(rate: real, b: Bucket, before: seq<Attempt>, window: seq<Attempt>, t0: real, t1: real)
    requires rate >= 0.0 && b.Valid() && Paced(AtRate(rate), b, before + window)
    requires b.updated <= t0 <= t1
    requires before != [] ==> before[|before| - 1].out <= t0
    requires OutWithin(window, t0, t1)
    ensures Handed(window) as real <= b.burst + rate * (t1 - t0) + if Straddles(window, t0) then 1.0 else 0.0
  {
    var gain := AtRate(rate);
    AtRateAdditive(rate, gain);
    HandoffGain(gain, b, before, window, t0, t1);
    Commute(rate, t0, t1);
  }

  lemma InTurnBefore(gain: Gain, b: Bucket, before: seq<Attempt>, window: seq<Attempt>, t0: real)
    requires Paced(gain, b, before + window)
    requires before != [] ==> before[|before| - 1].out <= t0
    ensures before != [] ==> before[|before| - 1].at <= t0
  {
    PacedSplit(gain, b, before, window);
  }

  lemma TakenWithin(gain: Gain, b: Bucket, before: seq<Attempt>, window: seq<Attempt>, t0: real, t1: real)
    requires Paced(gain, b, before + window) && OutWithin(window, t0, t1)
    requires window != [] ==> window[0].at >= t0
    ensures forall a | a in window :: t0 <= a.at <= t1
  {
    forall i | 0 <= i < |window|
      ensures t0 <= window[i].at <= t1
    {
      assert window[i] in window;
      TakenBeforeOut(gain, b, before + window, |before| + i);
      if i > 0 {
        SendsInTurn(gain, b, before + window, |before|, |before| + i);
      }
    }
  }

  lemma TakenBeforeOut(gain: Gain, b: Bucket, log: seq<Attempt>, i: nat)
    requires Paced(gain, b, log) && i < |log|
    ensures log[i].at <= log[i].out
  {
    if i + 1 < |log| {
      SendsInTurn(gain, b, log, i, i + 1);
    }
  }

  lemma TakenAfterFirst(gain: Gain, b: Bucket, before: seq<Attempt>, window: seq<Attempt>, t0: real, t1: real)
    requires Paced(gain, b, before + window) && OutWithin(window, t0, t1) && window != []
    ensures forall a | a in window[1..] :: t0 <= a.at <= t1
  {
    assert window[0] in window;
    forall i | 0 < i < |window|
      ensures t0 <= window[i].at <= t1
    {
      assert window[i] in window;
      SendsInTurn(gain, b, before + window, |before|, |before| + i);
    }
  }

  /** From n tokens on, n sends at one instant. */
  lemma {:induction false} SendsAtOnce(rate: real, b: Bucket, log: seq<Attempt>, n: nat, t: real)
    returns (more: seq<Attempt>)
    requires Paced(AtRate(rate), b, log) && OutWithin(log, t, t) && log != []
    requires Replay(AtRate(rate), b, log) == Bucket(b.burst, Replay(AtRate(rate), b, log).tokens, t)
    requires n as real <= Replay(AtRate(rate), b, log).tokens <= b.burst
    ensures Paced(AtRate(rate), b, more) && OutWithin(more, t, t) && log <= more
    ensures Handed(more) == Handed(log) + n
    decreases n
  {
    if n == 0 {
      more := log;
    } else {
      var quick := Attempt(t, t, true, true);
      var before := Replay(AtRate(rate), b, log);
      assert log[|log| - 1] in log;
      LevelAtOnce(rate, before, t);
      PacedGrows(AtRate(rate), b, log, quick);
      HandedAdds(log, [quick]);
      assert [quick][..0] == [];
      more := SendsAtOnce(rate, b, log + [quick], n - 1, t);
    }
  }

  lemma LevelAtOnce(rate: real, b: Bucket, t: real)
    requires b.updated == t && b.tokens <= b.burst
    ensures b.Level(AtRate(rate), t) == b.tokens
  {
  }

  /** A slow send from a full bucket: by the time it is done the token has come back. */
  lemma SlowSend(rate: real, burst: real, t: real)
    requires rate > 0.0 && burst >= 1.0 && t == 1.0 / rate
    ensures var b, slow := Bucket(burst, burst, 0.0), Attempt(0.0, t, true, true);
      && Paced(AtRate(rate), b, [slow]) && Replay(AtRate(rate), b, [slow]) == Bucket(burst, burst - 1.0, 0.0)
      && Handed([slow]) == 1
      && Bucket(burst, burst - 1.0, 0.0).Level(AtRate(rate), t) == burst
  {
    var b, slow := Bucket(burst, burst, 0.0), Attempt(0.0, t, true, true);
    LevelAtOnce(rate, b, 0.0);
    PacedGrows(AtRate(rate), b, [], slow);
    assert [] + [slow] == [slow] && [slow][..0] == [];
    InverseTimes(rate);
  }

  lemma InverseTimes(rate: real)
    requires rate > 0.0
    ensures 1.0 / rate > 0.0 && (1.0 / rate) * rate == 1.0
  {
  }

  /** The extra message of `HandoffBound` is needed at every rate and burst: with a first
      send that straddles, one more than the burst goes out at one instant. */
  lemma OneOverTheBurst(rate: real, burst: real) returns (log: seq<Attempt>, t: real)
    requires rate > 0.0 && burst >= 1.0
    ensures Paced(AtRate(rate), Bucket(burst, burst, 0.0), log)
    ensures t > 0.0 && OutWithin(log, t, t) && Straddles(log, t)
    ensures Handed(log) == burst.Floor + 1
  {
    t := 1.0 / rate;
    InverseTimes(rate);
    var gain, b := AtRate(rate), Bucket(burst, burst, 0.0);
    var slow, quick := Attempt(0.0, t, true, true), Attempt(t, t, true, true);
    SlowSend(rate, burst, t);
    PacedGrows(gain, b, [slow], quick);
    log := [slow] + [quick];
    HandedAdds([slow], [quick]);
    assert [quick][..0] == [];
    assert Replay(gain, b, log) == Bucket(burst, burst - 1.0, t);
    log := SendsAtOnce(rate, b, log, burst.Floor - 1, t);
    assert log[0] == slow;
  }

  lemma HandedGain(gain: Gain, b: Bucket, log: seq<Attempt>, from: nat, t0: real, t1: real)
    requires Additive(gain) && b.Valid() && Paced(gain, b, log)
    requires from <= |log| && b.updated <= t0 <= t1
    requires from > 0 ==> log[from - 1].out <= t0
    requires OutWithin(log[from..], t0, t1)
    ensures (Handed(log) - Handed(log[..from])) as real
            <= b.burst + gain(t0, t1) + if Straddles(log[from..], t0) then 1.0 else 0.0
  {
    var before, window := log[..from], log[from..];
    assert log == before + window;
    HandedAdds(before, window);
    HandoffGain(gain, b, before, window, t0, t1);
    assert Handed(log) - Handed(before) == Handed(window);
  }

  /** The same for everything handed over since attempt number `from`. */
  lemma HandedSince(rate: real, b: Bucket, log: seq<Attempt>, from: nat, t0: real, t1: real)
    requires rate >= 0.0 && b.Valid() && Paced(AtRate(rate), b, log)
    requires from <= |log| && b.updated <= t0 <= t1
    requires from > 0 ==> log[from - 1].out <= t0
    requires OutWithin(log[from..], t0, t1)
    ensures (Handed(log) - Handed(log[..from])) as real
            <= b.burst + rate * (t1 - t0) + if Straddles(log[from..], t0) then 1.0 else 0.0
  {
    var gain := AtRate(rate);
    AtRateAdditive(rate, gain);
    HandedGain(gain, b, log, from, t0, t1);
    Commute(rate, t0, t1);
  }

  lemma Commute(rate: real, t: real, u: real)
    ensures AtRate(rate)(t, u) == rate * (u - t)
  {
  }

  lemma WindowGain(gain: Gain, b: Bucket, before: seq<Attempt>, window: seq<Attempt>, t0: real, t1: real)
    requires Additive(gain) && b.Valid() && Paced(gain, b, before + window)
    requires b.updated <= t0 <= t1
    requires before != [] ==> before[|before| - 1].at <= t0
    requires forall a | a in window :: t0 <= a.at <= t1
    ensures Handed(window) as real <= b.burst + gain(t0, t1)
  {
    var start := Replay(gain, b, before);
    PacedSplit(gain, b, before, window);
    ReplayValid(gain, b, before);
    assert gain(t0, t1) == gain(t0, t0) + gain(t0, t1);
    if window != [] {
      assert window[0] in window && window[|window| - 1] in window;
      FromStart(gain, start, window, t0, t1);
    }
  }

  /** From a bucket last refilled before the window. */
  lemma FromStart(gain: Gain, b: Bucket, window: seq<Attempt>, t0: real, t1: real)
    requires Additive(gain) && b.Valid() && Paced(gain, b, window) && window != []
    requires b.updated <= t0 <= window[0].at && window[|window| - 1].at <= t1
    ensures Handed(window) as real <= b.burst + gain(t0, t1)
  {
    var end := window[|window| - 1].at;
    HandedAccounted(gain, b, window, t0);
    ReplayValid(gain, b, window);
    assert gain(t0, t1) == gain(t0, end) + gain(end, t1);
  }
}
