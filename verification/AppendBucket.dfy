/** The token bucket that limits how fast envelopes are appended to one mailbox, over exact real tokens. */
module AppendBucket {
  import opened Wrappers

  const MINUTE := 60_000

  /** The tokens left, and the time in milliseconds they were counted at. */
  datatype Bucket = Bucket(tokens: real, refilledAt: int)

  /** What a span of time adds at a rate per minute. */
  function Gained(span: int, perMinute: nat): real {
    if span < 0 then 0.0 else span as real * perMinute as real / MINUTE as real
  }

  function Available(bucket: Bucket, now: int, perMinute: nat): real {
    var refilled := bucket.tokens + Gained(now - bucket.refilledAt, perMinute);
    if perMinute as real < refilled then perMinute as real else refilled
  }

  /** The bucket after an append at `now`, or nothing when the append is refused. */
  function Consume(bucket: Bucket, now: int, perMinute: nat): Option<Bucket> {
    if perMinute == 0 then Some(bucket)
    else if Available(bucket, now, perMinute) < 1.0 then None
    else Some(Bucket(Available(bucket, now, perMinute) - 1.0, now))
  }

  /** The bucket after a run of appends; a refused one leaves it untouched. */
  function After(bucket: Bucket, times: seq<int>, perMinute: nat): Bucket
    decreases |times|
  {
    if times == [] then bucket else
      var next := Consume(bucket, times[0], perMinute);
      After(if next.Some? then next.value else bucket, times[1..], perMinute)
  }

  function Accepted(bucket: Bucket, times: seq<int>, perMinute: nat): nat
    decreases |times|
  {
    if times == [] then 0 else
      var next := Consume(bucket, times[0], perMinute);
      if next.Some? then 1 + Accepted(next.value, times[1..], perMinute) else Accepted(bucket, times[1..], perMinute)
  }

  ghost predicate Orderly(times: seq<int>) {
    forall i, j :: 0 <= i < j < |times| ==> times[i] <= times[j]
  }

  ghost predicate Within(times: seq<int>, from: int, until: int) {
    forall i :: 0 <= i < |times| ==> from <= times[i] <= until
  }

  lemma GainedAdds(a: int, b: int, perMinute: nat)
    requires 0 <= a && 0 <= b
    ensures Gained(a + b, perMinute) == Gained(a, perMinute) + Gained(b, perMinute)
    ensures Gained(a, perMinute) >= 0.0
  {
  }

  /** No window sees more appends than what was left in the bucket when the last one before it was counted
      plus what the window refills. */
  lemma {:induction false} SpendsWhatItHas(bucket: Bucket, times: seq<int>, perMinute: nat, until: int)
    requires perMinute > 0 && bucket.tokens >= 0.0
    requires Orderly(times) && Within(times, bucket.refilledAt, until) && bucket.refilledAt <= until
    ensures Accepted(bucket, times, perMinute) as real <= bucket.tokens + Gained(until - bucket.refilledAt, perMinute)
    decreases |times|
  {
    GainedAdds(until - bucket.refilledAt, 0, perMinute);
    if times != [] {
      var now := times[0];
      var next := Consume(bucket, now, perMinute);
      if next.Some? {
        SpendsWhatItHas(next.value, times[1..], perMinute, until);
        GainedAdds(now - bucket.refilledAt, until - now, perMinute);
      } else {
        SpendsWhatItHas(bucket, times[1..], perMinute, until);
      }
    }
  }

  /** However the bucket got where it is, any window sees at most one minute's worth of appends at once
      plus what the rate allows over the window. */
  lemma {:induction false} AnyWindowIsBounded(bucket: Bucket, times: seq<int>, perMinute: nat, from: int, width: nat)
    requires perMinute > 0 && bucket.tokens >= 0.0
    requires Orderly(times) && Within(times, from, from + width)
    ensures Accepted(bucket, times, perMinute) as real <= perMinute as real + Gained(width, perMinute)
    decreases |times|
  {
    GainedAdds(width, 0, perMinute);
    if times != [] {
      var now := times[0];
      var next := Consume(bucket, now, perMinute);
      if next.Some? {
        SpendsWhatItHas(next.value, times[1..], perMinute, from + width);
        GainedAdds(now - from, from + width - now, perMinute);
      } else {
        AnyWindowIsBounded(bucket, times[1..], perMinute, from, width);
      }
    }
  }

  /** Whatever is appended, the tokens stay between none and one minute's worth. */
  lemma {:induction false} TokensStayWithinBounds(bucket: Bucket, times: seq<int>, perMinute: nat)
    requires 0.0 <= bucket.tokens <= perMinute as real
    ensures 0.0 <= After(bucket, times, perMinute).tokens <= perMinute as real
    decreases |times|
  {
    if times != [] {
      var next := Consume(bucket, times[0], perMinute);
      TokensStayWithinBounds(if next.Some? then next.value else bucket, times[1..], perMinute);
    }
  }

  ghost predicate Spaced(times: seq<int>, gap: nat) {
    forall i :: 0 < i < |times| ==> times[i - 1] + gap <= times[i]
  }

  /** Appends no faster than the rate are never refused, even from an empty bucket. */
  lemma {:induction false} SteadyAppendsPass(bucket: Bucket, times: seq<int>, perMinute: nat, gap: nat)
    requires perMinute > 0 && bucket.tokens >= 0.0 && gap * perMinute >= MINUTE
    requires Spaced(times, gap) && (times != [] ==> bucket.refilledAt + gap <= times[0])
    ensures Accepted(bucket, times, perMinute) == |times|
    decreases |times|
  {
    if times != [] {
      var now := times[0];
      GainedAdds(gap, now - bucket.refilledAt - gap, perMinute);
      GapGainsOne(gap, perMinute);
      var next := Consume(bucket, now, perMinute);
      SteadyAppendsPass(next.value, times[1..], perMinute, gap);
    }
  }

  ghost predicate AllAt(times: seq<int>, now: int) {
    forall i :: 0 <= i < |times| ==> times[i] == now
  }

  /** Of the appends of one instant as many pass as there are whole tokens, and no fewer. */
  lemma {:induction false} BurstSpendsWholeTokens(bucket: Bucket, times: seq<int>, perMinute: nat, now: int)
    requires perMinute > 0 && bucket.tokens >= 0.0 && AllAt(times, now)
    ensures var whole := Available(bucket, now, perMinute).Floor;
            Accepted(bucket, times, perMinute) == if |times| < whole then |times| else whole
    decreases |times|
  {
    var available := Available(bucket, now, perMinute);
    AvailableIsSome(bucket, now, perMinute);
    if times != [] {
      if available < 1.0 {
        BurstSpendsWholeTokens(bucket, times[1..], perMinute, now);
      } else {
        var next := Bucket(available - 1.0, now);
        assert Available(next, now, perMinute) == available - 1.0;
        BurstSpendsWholeTokens(next, times[1..], perMinute, now);
      }
    }
  }

  lemma AvailableIsSome(bucket: Bucket, now: int, perMinute: nat)
    requires bucket.tokens >= 0.0
    ensures 0.0 <= Available(bucket, now, perMinute) <= perMinute as real
  {
    if now >= bucket.refilledAt {
      GainedAdds(now - bucket.refilledAt, 0, perMinute);
    }
  }

  /** A bucket left alone for a minute, or never touched, lets exactly P appends of one instant through; a
      fuller one never holds more. Without a limit every append passes. */
  lemma RestedBucketAdmitsOneMinutesWorth(bucket: Bucket, times: seq<int>, perMinute: nat, now: int)
    requires bucket.tokens >= 0.0 && AllAt(times, now)
    requires bucket.tokens >= perMinute as real || now - bucket.refilledAt >= 60_000
    ensures Accepted(bucket, times, perMinute) == if perMinute == 0 || |times| < perMinute then |times| else perMinute
  {
    if perMinute == 0 {
      UnlimitedPasses(bucket, times);
    } else {
      var span := now - bucket.refilledAt;
      if span >= 0 {
        GainedAdds(span, 0, perMinute);
      }
      if span >= 60_000 {
        GainedAdds(60_000, span - 60_000, perMinute);
        GainedAdds(span - 60_000, 0, perMinute);
        assert Gained(60_000, perMinute) == perMinute as real;
      }
      assert Available(bucket, now, perMinute) == perMinute as real;
      BurstSpendsWholeTokens(bucket, times, perMinute, now);
    }
  }

  lemma {:induction false} UnlimitedPasses(bucket: Bucket, times: seq<int>)
    ensures Accepted(bucket, times, 0) == |times|
    decreases |times|
  {
    if times != [] {
      UnlimitedPasses(bucket, times[1..]);
    }
  }

  lemma GapGainsOne(gap: nat, perMinute: nat)
    requires gap * perMinute >= MINUTE
    ensures Gained(gap, perMinute) >= 1.0
  {
    assert gap as real * perMinute as real == (gap * perMinute) as real;
  }

  /** A window of a longer history: what came before it only decides the bucket it starts from. */
  lemma {:induction false} HistorySplits(bucket: Bucket, before: seq<int>, window: seq<int>, perMinute: nat)
    ensures Accepted(bucket, before + window, perMinute)
         == Accepted(bucket, before, perMinute) + Accepted(After(bucket, before, perMinute), window, perMinute)
    decreases |before|
  {
    if before == [] {
      assert before + window == window;
    } else {
      assert (before + window)[1..] == before[1..] + window;
      var next := Consume(bucket, before[0], perMinute);
      HistorySplits(if next.Some? then next.value else bucket, before[1..], window, perMinute);
    }
  }

  /** In any history, from any bucket within bounds, any window is bounded alike. */
  lemma EveryWindowOfAHistoryIsBounded(bucket: Bucket, before: seq<int>, window: seq<int>, perMinute: nat, from: int,
                                       width: nat)
    requires perMinute > 0 && 0.0 <= bucket.tokens <= perMinute as real
    requires Orderly(window) && Within(window, from, from + width)
    ensures (Accepted(bucket, before + window, perMinute) - Accepted(bucket, before, perMinute)) as real
         <= perMinute as real + Gained(width, perMinute)
  {
    HistorySplits(bucket, before, window, perMinute);
    TokensStayWithinBounds(bucket, before, perMinute);
    AnyWindowIsBounded(After(bucket, before, perMinute), window, perMinute, from, width);
  }
}
