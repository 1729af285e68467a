/** Held-out peak measurement: probe order is rotated by round and reversed in odd rounds. */
module PeakCalibration {
  import opened Results
  import opened Sorting

  datatype Entry<P> = Entry(round: nat, position: nat, probe: P)
  datatype Measured<P, B> = Measured(collected: map<P, seq<B>>, log: seq<Entry<P>>)
  datatype Fault = ZeroDivision | SampleFailed

  function Reversed<T>(s: seq<T>): seq<T> {
    seq(|s|, k requires 0 <= k < |s| => s[|s| - 1 - k])
  }

  /** Python's `%` for a positive divisor. */
  function Mod(x: int, n: nat): (r: nat)
    requires n > 0
    ensures r < n
  {
    x % n
  }

  function RoundOrder<T>(probes: seq<T>, round: nat): (order: seq<T>)
    requires probes != []
    ensures |order| == |probes|
  {
    var offset := Mod(round, |probes|);
    var rotated := probes[offset..] + probes[..offset];
    if round % 2 == 1 then Reversed(rotated) else rotated
  }

  // ----- the measuring loop

  function OneRound<P>(probes: seq<P>, round: nat): (r: seq<Entry<P>>)
    requires probes != []
    ensures |r| == |probes|
  {
    var order := RoundOrder(probes, round);
    seq(|order|, position requires 0 <= position < |order| => Entry(round, position, order[position]))
  }

  /** Every (round, position) pair in the order the calibration log lists them. */
  function Schedule<P>(probes: seq<P>, rounds: nat): (r: seq<Entry<P>>)
    requires probes != [] || rounds == 0
  {
    if rounds == 0 then [] else Schedule(probes, rounds - 1) + OneRound(probes, rounds - 1)
  }

  lemma {:induction false} ScheduleLength<P>(probes: seq<P>, rounds: nat)
    requires probes != [] || rounds == 0
    ensures |Schedule(probes, rounds)| == rounds * |probes|
  {
    if rounds > 0 {
      ScheduleLength(probes, rounds - 1);
      Distribute(rounds, |probes|);
    }
  }

  lemma Distribute(a: int, n: int)
    ensures a * n == (a - 1) * n + n
  {
  }

  lemma {:induction false} ScheduleGrows<P>(probes: seq<P>, round: nat, rounds: nat)
    requires probes != [] && round < rounds
    ensures Schedule(probes, round) + OneRound(probes, round) <= Schedule(probes, rounds)
  {
    hide OneRound;
    if round < rounds - 1 { ScheduleGrows(probes, round, rounds - 1); }
  }

  /** The batches `samples[k]` whose log entry names `probe`, in log order. */
  function SamplesOf<P(==), B>(log: seq<Entry<P>>, samples: seq<B>, probe: P): seq<B>
    requires |log| == |samples|
  {
    if log == [] then [] else
      var last := |log| - 1;
      SamplesOf(log[..last], samples[..last], probe) + (if log[last].probe == probe then [samples[last]] else [])
  }

  ghost predicate CollectedFrom<P(!new), B>(m: Measured<P, B>, probes: seq<P>, samples: seq<B>) {
    && |m.log| == |samples|
    && m.collected.Keys == SetOf(probes)
    && forall p :: p in m.collected ==> m.collected[p] == SamplesOf(m.log, samples, p)
  }

  /** What the first `calls` sample batches returned. */
  ghost function Returned<B>(sample: nat -> Option<B>, calls: nat): seq<B>
    requires forall k: nat :: k < calls ==> sample(k).Some?
  {
    seq(calls, k requires 0 <= k < calls => sample(k).value)
  }

  /** `sample(k)` is the outcome of the k-th batch process; a failing batch abandons the measurement. */
  method MeasureHeldOut<P(==, !new), B>(probes: seq<P>, rounds: nat, sample: nat -> Option<B>)
    returns (r: Result<Measured<P, B>, Fault>)
    ensures r == Err(ZeroDivision) <==> probes == [] && rounds > 0
    ensures probes != [] || rounds == 0 ==>
              (r.Ok? <==> forall k: nat :: k < |Schedule(probes, rounds)| ==> sample(k).Some?)
    ensures r.Ok? ==> (probes != [] || rounds == 0) && r.value.log == Schedule(probes, rounds)
                      && CollectedFrom(r.value, probes, Returned(sample, |r.value.log|))
  {
    hide CollectedFrom, SamplesOf, RoundOrder, Mod;
    var collected: map<P, seq<B>> := map p | p in probes :: [];
    var log: seq<Entry<P>> := [];
    ghost var samples: seq<B> := [];
    NothingCollected(Measured(collected, log), probes, samples);
    var round := 0;
    while round < rounds
      invariant 0 <= round <= rounds
      invariant round > 0 ==> probes != []
      invariant log == Schedule(probes, round) && |samples| == |log|
      invariant forall k: nat :: k < |samples| ==> sample(k).Some? && sample(k).value == samples[k]
      invariant CollectedFrom(Measured(collected, log), probes, samples)
    {
      if probes == [] { return Err(ZeroDivision); }
      var order := RoundOrder(probes, round);
      RoundOrderPermutes(probes, round);
      SameMultiset(order, probes);
      ScheduleGrows(probes, round, rounds);
      ghost var before := log;
      var position := 0;
      while position < |order|
        invariant 0 <= position <= |order| && order == RoundOrder(probes, round)
        invariant log == before + OneRound(probes, round)[..position] && |samples| == |log|
        invariant forall k: nat :: k < |samples| ==> sample(k).Some? && sample(k).value == samples[k]
        invariant CollectedFrom(Measured(collected, log), probes, samples)
      {
        assert order[position] in probes;
        var probe := order[position];
        var batch := sample(|log|);
        if batch.None? {
          assert |log| < |Schedule(probes, rounds)|;
          return Err(SampleFailed);
        }
        AppendSample(Measured(collected, log), probes, samples, Entry(round, position, probe), batch.value);
        collected := collected[probe := collected[probe] + [batch.value]];
        log := log + [Entry(round, position, probe)];
        samples := samples + [batch.value];
        position := position + 1;
      }
      assert OneRound(probes, round)[..position] == OneRound(probes, round);
      round := round + 1;
    }
    assert samples == Returned(sample, |log|);
    r := Ok(Measured(collected, log));
  }

  lemma NothingCollected<P(!new), B>(m: Measured<P, B>, probes: seq<P>, samples: seq<B>)
    requires m.log == [] && samples == [] && m.collected == map p | p in probes :: []
    ensures CollectedFrom(m, probes, samples)
  {
  }

  lemma AppendSample<P(!new), B>(m: Measured<P, B>, probes: seq<P>, samples: seq<B>, entry: Entry<P>, batch: B)
    requires CollectedFrom(m, probes, samples) && entry.probe in probes
    ensures entry.probe in m.collected
    ensures CollectedFrom(Measured(m.collected[entry.probe := m.collected[entry.probe] + [batch]], m.log + [entry]),
                          probes, samples + [batch])
  {
    assert (m.log + [entry])[..|m.log|] == m.log;
    assert (samples + [batch])[..|samples|] == samples;
    var next := m.collected[entry.probe := m.collected[entry.probe] + [batch]];
    assert next.Keys == m.collected.Keys;
  }

  // ----- each round is a permutation

  lemma {:induction false} ReversedPermutes<T>(s: seq<T>)
    ensures multiset(Reversed(s)) == multiset(s)
  {
    if s == [] {
      assert Reversed(s) == s;
    } else {
      ReversedPermutes(s[1..]);
      assert Reversed(s) == Reversed(s[1..]) + [s[0]];
      assert s == [s[0]] + s[1..];
    }
  }

  /** No round drops or repeats a probe. */
  lemma RoundOrderPermutes<T>(probes: seq<T>, round: nat)
    requires probes != []
    ensures multiset(RoundOrder(probes, round)) == multiset(probes)
  {
    var offset := Mod(round, |probes|);
    assert probes == probes[..offset] + probes[offset..];
    ReversedPermutes(probes[offset..] + probes[..offset]);
  }

  // ----- where a probe stands in a round

  function PositionOf(n: nat, round: nat, i: nat): (p: nat)
    requires i < n
    ensures p < n
  {
    var rotated := Mod(i - round, n);
    if round % 2 == 1 then n - 1 - rotated else rotated
  }

  // ----- remainders

  lemma Multiples(d: int, n: nat)
    requires n > 0
    ensures d >= 1 ==> d * n >= n
    ensures d <= -1 ==> d * n + n <= 0
  {
  }

  /** A number has one quotient and one remainder. */
  lemma SameCall(q: int, p: int, q': int, p': int, n: nat)
    requires n > 0 && q * n + p == q' * n + p' && 0 <= p < n && 0 <= p' < n
    ensures q == q' && p == p'
  {
    assert (q - q') * n == q * n - q' * n;
    Multiples(q - q', n);
  }

  lemma ModBlocks(x: int, n: nat, k: int)
    requires n > 0
    ensures Mod(x + k * n, n) == Mod(x, n)
  {
    var y := x + k * n;
    assert y == (y / n) * n + y % n && x == (x / n) * n + x % n;
    assert (x / n + k) * n == (x / n) * n + k * n;
    SameCall(y / n, y % n, x / n + k, x % n, n);
  }

  lemma ModRange(x: nat, n: nat)
    requires x < n
    ensures Mod(x, n) == x
  {
  }

  /** The remainder of a number less than one block below or two blocks above zero. */
  function Wrap(x: int, n: nat): int {
    if x < 0 then x + n else if x < n then x else x - n
  }

  lemma ModSmall(x: int, n: nat)
    requires 0 < n && 0 <= x + n < 3 * n
    ensures Mod(x, n) == Wrap(x, n)
  {
    hide Mod;
    ModBlocks(x, n, 1);
    ModBlocks(x, n, -1);
    ModRange(Wrap(x, n), n);
  }

  lemma ModMinus(x: int, y: int, n: nat)
    requires n > 0
    ensures Mod(y - x, n) == Mod(y - Mod(x, n), n)
  {
    var k := x / n;
    assert x == k * n + Mod(x, n);
    hide Mod;
    assert (-k) * n == -(k * n);
    ModBlocks(y - Mod(x, n), n, -k);
  }

  // ----- each probe stands at one position of a round

  /** The probe index at position `p` of a round. */
  function ProbeAt(n: nat, round: nat, p: nat): (i: nat)
    requires p < n
    ensures i < n
  {
    var straight := if round % 2 == 1 then n - 1 - p else p;
    Wrap(Mod(round, n) + straight, n)
  }

  lemma RotatedAt<T>(s: seq<T>, offset: nat, p: nat)
    requires offset < |s| && p < |s|
    ensures (s[offset..] + s[..offset])[p] == s[Wrap(offset + p, |s|)]
  {
  }

  lemma OrderAt<T>(probes: seq<T>, round: nat, p: nat)
    requires p < |probes|
    ensures RoundOrder(probes, round)[p] == probes[ProbeAt(|probes|, round, p)]
  {
    hide Mod, Wrap;
    RotatedAt(probes, Mod(round, |probes|), if round % 2 == 1 then |probes| - 1 - p else p);
  }

  lemma PositionFound(n: nat, round: nat, i: nat, p: nat)
    requires i < n && p < n
    ensures ProbeAt(n, round, p) == i <==> PositionOf(n, round, i) == p
  {
    hide Mod;
    ModMinus(round, i, n);
    ModSmall(i - Mod(round, n), n);
  }

  /** Probe `i` stands at position `PositionOf`, and nowhere else. */
  lemma StandsAt<T>(probes: seq<T>, round: nat, i: nat, p: nat)
    requires Distinct(probes) && i < |probes| && p < |probes|
    ensures RoundOrder(probes, round)[p] == probes[i] <==> p == PositionOf(|probes|, round, i)
  {
    hide Mod, Distinct, RoundOrder, ProbeAt, PositionOf;
    OrderAt(probes, round, p);
    PositionFound(|probes|, round, i, p);
    OnlyAt(probes, ProbeAt(|probes|, round, p), i);
  }

  lemma OnlyAt<T>(s: seq<T>, i: nat, j: nat)
    requires Distinct(s) && i < |s| && j < |s|
    ensures s[i] == s[j] <==> i == j
  {
    if i < j { assert s[i] != s[j]; } else if j < i { assert s[j] != s[i]; }
  }

  /** Each (round, probe) pair is measured exactly once, after everything the earlier rounds measured. */
  lemma {:induction false} MeasuredOnce<P>(probes: seq<P>, rounds: nat, round: nat, i: nat, k: nat)
    requires Distinct(probes) && i < |probes| && round < rounds && k < |Schedule(probes, rounds)|
    ensures var e := Schedule(probes, rounds)[k];
            e.round == round && e.probe == probes[i] <==>
                k == |Schedule(probes, round)| + PositionOf(|probes|, round, i)
  {
    hide RoundOrder, PositionOf, Distinct;
    var last := rounds - 1;
    var before := |Schedule(probes, last)|;
    if k < before {
      if round < last {
        MeasuredOnce(probes, last, round, i, k);
      } else {
        RoundsSoFar(probes, last, k);
      }
    } else {
      StandsAt(probes, last, i, k - before);
      if round < last { ScheduleGrows(probes, round, last); }
    }
  }

  lemma {:induction false} RoundsSoFar<P>(probes: seq<P>, rounds: nat, k: nat)
    requires probes != [] && k < |Schedule(probes, rounds)|
    ensures Schedule(probes, rounds)[k].round < rounds
  {
    hide RoundOrder;
    if k < |Schedule(probes, rounds - 1)| { RoundsSoFar(probes, rounds - 1, k); }
  }

  // ----- what each probe collects

  lemma {:induction false} SamplesConcat<P, B>(a: seq<Entry<P>>, b: seq<Entry<P>>, s: seq<B>, t: seq<B>, probe: P)
    requires |a| == |s| && |b| == |t|
    ensures SamplesOf(a + b, s + t, probe) == SamplesOf(a, s, probe) + SamplesOf(b, t, probe)
  {
    if b == [] {
      assert a + b == a && s + t == s;
    } else {
      var last := |b| - 1;
      SamplesConcat(a, b[..last], s, t[..last], probe);
      assert (a + b)[..|a + b| - 1] == a + b[..last];
      assert (s + t)[..|s + t| - 1] == s + t[..last];
    }
  }

  lemma {:induction false} SamplesOnce<P, B>(log: seq<Entry<P>>, samples: seq<B>, probe: P, at: nat)
    requires |log| == |samples|
    requires forall k :: 0 <= k < |log| ==> (log[k].probe == probe <==> k == at)
    ensures SamplesOf(log, samples, probe) == if at < |log| then [samples[at]] else []
  {
    if log != [] { SamplesOnce(log[..|log| - 1], samples[..|log| - 1], probe, at); }
  }

  /** The batches of probe `i`: in each round the one at the probe's own position. */
  ghost function InRoundOrder<P, B>(probes: seq<P>, rounds: nat, samples: seq<B>, i: nat): (r: seq<B>)
    requires i < |probes| && |samples| == |Schedule(probes, rounds)|
    ensures |r| == rounds
  {
    if rounds == 0 then [] else
      var before := |Schedule(probes, rounds - 1)|;
      InRoundOrder(probes, rounds - 1, samples[..before], i) + [samples[before + PositionOf(|probes|, rounds - 1, i)]]
  }

  /** Every probe collects one batch per round, in round order. */
  lemma {:induction false} CollectedInRoundOrder<P, B>(probes: seq<P>, rounds: nat, samples: seq<B>, i: nat)
    requires Distinct(probes) && i < |probes| && |samples| == |Schedule(probes, rounds)|
    ensures SamplesOf(Schedule(probes, rounds), samples, probes[i]) == InRoundOrder(probes, rounds, samples, i)
  {
    hide Schedule, InRoundOrder, OneRound, PositionOf, SamplesOf, Distinct;
    LastRound(probes, rounds, samples, i);
    if rounds > 0 {
      CollectedInRoundOrder(probes, rounds - 1, samples[..|Schedule(probes, rounds - 1)|], i);
      OneMoreRound(probes, rounds - 1, samples, i);
    }
  }

  lemma LastRound<P, B>(probes: seq<P>, rounds: nat, samples: seq<B>, i: nat)
    requires i < |probes| && |samples| == |Schedule(probes, rounds)|
    ensures rounds == 0 ==>
              SamplesOf(Schedule(probes, rounds), samples, probes[i]) == []
                  && InRoundOrder(probes, rounds, samples, i) == []
    ensures rounds > 0 ==>
              var earlier := Schedule(probes, rounds - 1);
              && Schedule(probes, rounds) == earlier + OneRound(probes, rounds - 1) && |samples| == |earlier| + |probes|
              && InRoundOrder(probes, rounds, samples, i)
              == InRoundOrder(probes, rounds - 1, samples[..|earlier|], i)
                  + [samples[|earlier| + PositionOf(|probes|, rounds - 1, i)]]
  {
    hide PositionOf, OneRound;
  }

  lemma OneMoreRound<P, B>(probes: seq<P>, round: nat, samples: seq<B>, i: nat)
    requires Distinct(probes) && i < |probes| && |samples| == |Schedule(probes, round)| + |probes|
    ensures SamplesOf(Schedule(probes, round) + OneRound(probes, round), samples, probes[i])
         == SamplesOf(Schedule(probes, round), samples[..|Schedule(probes, round)|], probes[i])
            + [samples[|Schedule(probes, round)| + PositionOf(|probes|, round, i)]]
  {
    hide OneRound, PositionOf, SamplesOf, Distinct, Schedule;
    var before := |Schedule(probes, round)|;
    var earlier, latest := samples[..before], samples[before..];
    assert samples == earlier + latest;
    SamplesConcat(Schedule(probes, round), OneRound(probes, round), earlier, latest, probes[i]);
    SampledInRound(probes, round, latest, i);
  }

  /** What a completed measurement holds for each probe. */
  lemma EachProbeCollected<P(!new), B>(m: Measured<P, B>, probes: seq<P>, rounds: nat, samples: seq<B>, i: nat)
    requires Distinct(probes) && i < |probes|
    requires m.log == Schedule(probes, rounds) && CollectedFrom(m, probes, samples)
    ensures probes[i] in m.collected && m.collected[probes[i]] == InRoundOrder(probes, rounds, samples, i)
    ensures |m.collected[probes[i]]| == rounds
  {
    hide Distinct, SamplesOf, InRoundOrder, Schedule;
    assert probes[i] in SetOf(probes);
    CollectedInRoundOrder(probes, rounds, samples, i);
  }

  lemma SampledInRound<P, B>(probes: seq<P>, round: nat, samples: seq<B>, i: nat)
    requires Distinct(probes) && i < |probes| && |samples| == |probes|
    ensures SamplesOf(OneRound(probes, round), samples, probes[i]) == [samples[PositionOf(|probes|, round, i)]]
  {
    hide RoundOrder, PositionOf, SamplesOf, Distinct;
    forall k | 0 <= k < |probes|
      ensures OneRound(probes, round)[k].probe == probes[i] <==> k == PositionOf(|probes|, round, i)
    {
      StandsAt(probes, round, i, k);
    }
    SamplesOnce(OneRound(probes, round), samples, probes[i], PositionOf(|probes|, round, i));
  }

  // ----- counterbalancing

  /** How many of the first `rounds` rounds put probe `i` of `n` at position `p`. */
  function Visits(n: nat, rounds: nat, i: nat, p: nat): nat
    requires i < n
  {
    if rounds == 0 then 0 else Visits(n, rounds - 1, i, p) + if PositionOf(n, rounds - 1, i) == p then 1 else 0
  }

  ghost predicate Balanced(n: nat, rounds: nat, each: nat) {
    forall i: nat, p: nat {:trigger Visits(n, rounds, i, p)} :: i < n && p < n ==> Visits(n, rounds, i, p) == each
  }

  /** The even and the odd round of a block of `2n` that put probe `i` at position `p`. */
  function EvenRound(n: nat, i: nat, p: nat): nat
    requires i < n && p < n
  {
    var r := Mod(i - p, n);
    if r % 2 == 0 then r else r + n
  }

  function OddRound(n: nat, i: nat, p: nat): nat
    requires i < n && p < n
  {
    var r := Mod(i + 1 + p, n);
    if r % 2 == 1 then r else r + n
  }

  lemma RoundParity(n: nat, i: nat, p: nat)
    requires n % 2 == 1 && i < n && p < n
    ensures EvenRound(n, i, p) % 2 == 0 && OddRound(n, i, p) % 2 == 1
    ensures EvenRound(n, i, p) < 2 * n && OddRound(n, i, p) < 2 * n
  {
    hide Mod;
  }

  lemma EvenHits(n: nat, c: nat, i: nat, p: nat)
    requires n % 2 == 1 && c < 2 * n && c % 2 == 0 && i < n && p < n
    ensures PositionOf(n, c, i) == p <==> c == EvenRound(n, i, p)
  {
    hide Mod;
    ModMinus(c, i, n);
    ModSmall(c, n);
    ModSmall(i - Mod(c, n), n);
    ModSmall(i - p, n);
  }

  lemma OddHits(n: nat, c: nat, i: nat, p: nat)
    requires n % 2 == 1 && c < 2 * n && c % 2 == 1 && i < n && p < n
    ensures PositionOf(n, c, i) == p <==> c == OddRound(n, i, p)
  {
    hide Mod;
    ModMinus(c, i, n);
    ModSmall(c, n);
    ModSmall(i - Mod(c, n), n);
    ModSmall(i + 1 + p, n);
  }

  lemma HitsInBlock(n: nat, c: nat, i: nat, p: nat)
    requires n % 2 == 1 && c < 2 * n && i < n && p < n
    ensures PositionOf(n, c, i) == p <==> c == EvenRound(n, i, p) || c == OddRound(n, i, p)
  {
    hide Mod, PositionOf, EvenRound, OddRound;
    RoundParity(n, i, p);
    if c % 2 == 0 { EvenHits(n, c, i, p); } else { OddHits(n, c, i, p); }
  }

  /** Positions repeat every `2n` rounds. */
  lemma PositionRepeats(n: nat, blocks: nat, c: nat, i: nat)
    requires i < n
    ensures PositionOf(n, blocks * (2 * n) + c, i) == PositionOf(n, c, i)
  {
    hide Mod;
    var b := blocks * (2 * n) + c;
    TwiceBlocks(blocks, n);
    ModBlocks(i - c, n, -2 * blocks);
  }

  lemma TwiceBlocks(blocks: nat, n: nat)
    ensures blocks * (2 * n) == 2 * (blocks * n)
    ensures (-2 * blocks) * n == -(blocks * (2 * n))
  {
  }

  lemma {:induction false} VisitsInBlock(n: nat, blocks: nat, done: nat, i: nat, p: nat)
    requires n % 2 == 1 && i < n && p < n && done <= 2 * n
    ensures Visits(n, blocks * (2 * n) + done, i, p)
         == Visits(n, blocks * (2 * n), i, p) + (if EvenRound(n, i, p) < done then 1 else 0)
             + (if OddRound(n, i, p) < done then 1 else 0)
  {
    hide PositionOf, EvenRound, OddRound;
    if done > 0 {
      VisitsInBlock(n, blocks, done - 1, i, p);
      PositionRepeats(n, blocks, done - 1, i);
      HitsInBlock(n, done - 1, i, p);
      RoundParity(n, i, p);
      assert blocks * (2 * n) + done - 1 == blocks * (2 * n) + (done - 1);
    }
  }

  lemma {:induction false} OddVisits(n: nat, blocks: nat, i: nat, p: nat)
    requires n % 2 == 1 && i < n && p < n
    ensures Visits(n, blocks * (2 * n), i, p) == 2 * blocks
  {
    hide PositionOf, EvenRound, OddRound;
    if blocks > 0 {
      OddVisits(n, blocks - 1, i, p);
      RoundParity(n, i, p);
      VisitsInBlock(n, blocks - 1, 2 * n, i, p);
      assert blocks * (2 * n) == (blocks - 1) * (2 * n) + 2 * n;
    }
  }

  lemma TwiceProduct(q: int, half: int)
    ensures q * (2 * half) == 2 * (q * half)
  {
  }

  lemma ParityKept(x: int, n: nat)
    requires n > 0 && n % 2 == 0
    ensures Mod(x, n) % 2 == x % 2
  {
    var q, r := x / n, Mod(x, n);
    assert x == q * n + r;
    TwiceProduct(q, n / 2);
    SumParity(x, q * (n / 2), r);
  }

  lemma SumParity(x: int, k: int, r: int)
    requires x == 2 * k + r
    ensures r % 2 == x % 2
  {
  }

  lemma Mirrored(n: nat, r: nat, x: int)
    requires n % 2 == 0 && r < n && r % 2 == x % 2
    ensures (n - 1 - r) % 2 != x % 2
  {
  }

  lemma SameParity(n: nat, round: nat, i: nat)
    requires n % 2 == 0 && i < n
    ensures PositionOf(n, round, i) % 2 == i % 2
  {
    hide Mod;
    var r := Mod(i - round, n);
    ParityKept(i - round, n);
    Mirrored(n, r, i - round);
    assert PositionOf(n, round, i) == if round % 2 == 1 then n - 1 - r else r;
  }

  /** With an even number of probes a probe only ever takes positions of its own parity. */
  lemma {:induction false} EvenKeepsParity(n: nat, rounds: nat, i: nat, p: nat)
    requires n % 2 == 0 && i < n && p < n && (i + p) % 2 == 1
    ensures Visits(n, rounds, i, p) == 0
  {
    hide PositionOf;
    if rounds > 0 {
      EvenKeepsParity(n, rounds - 1, i, p);
      SameParity(n, rounds - 1, i);
    }
  }

  /** Whole blocks of `2n` rounds with an odd number of probes are counterbalanced. */
  lemma WholeBlocksBalanced(n: nat, blocks: nat)
    requires n % 2 == 1
    ensures Balanced(n, blocks * (2 * n), 2 * blocks)
  {
    forall i: nat, p: nat | i < n && p < n ensures Visits(n, blocks * (2 * n), i, p) == 2 * blocks {
      OddVisits(n, blocks, i, p);
    }
  }

  /** Which of the first `done` rounds of a block put probe `i` at position `p`. */
  function PartialVisits(n: nat, done: nat, i: nat, p: nat): nat
    requires i < n && p < n
  {
    (if EvenRound(n, i, p) < done then 1 else 0) + (if OddRound(n, i, p) < done then 1 else 0)
  }

  lemma PartialBlock(n: nat, blocks: nat, done: nat, i: nat, p: nat)
    requires n % 2 == 1 && i < n && p < n && done <= 2 * n
    ensures Visits(n, blocks * (2 * n) + done, i, p) == 2 * blocks + PartialVisits(n, done, i, p)
  {
    hide EvenRound, OddRound;
    VisitsInBlock(n, blocks, done, i, p);
    OddVisits(n, blocks, i, p);
  }

  /** The rounds of three (probe, position) pairs that tell a partial block from a whole one. */
  lemma ThreePairs(n: nat)
    requires n % 2 == 1 && n > 1
    ensures EvenRound(n, 0, 0) == 0 && OddRound(n, 0, 0) == 1
    ensures EvenRound(n, n - 1, 1) == 2 * n - 2 && OddRound(n, n - 1, 1) == 1
    ensures EvenRound(n, n - 1, n - 1) == 0 && OddRound(n, n - 1, n - 1) == 2 * n - 1
  {
    hide Mod;
    ModSmall(0, n);
    ModSmall(1, n);
    ModSmall(n - 2, n);
    ModSmall(n + 1, n);
    ModSmall(2 * n - 1, n);
  }

  lemma PartialUnbalanced(n: nat, blocks: nat, done: nat, each: nat)
    requires n % 2 == 1 && n > 1 && 0 < done < 2 * n
    ensures !Balanced(n, blocks * (2 * n) + done, each)
  {
    hide EvenRound, OddRound, Visits;
    ThreePairs(n);
    PartialBlock(n, blocks, done, 0, 0);
    PartialBlock(n, blocks, done, n - 1, 1);
    PartialBlock(n, blocks, done, n - 1, n - 1);
    if done == 1 {
      assert PartialVisits(n, done, 0, 0) != PartialVisits(n, done, n - 1, 1);
    } else {
      assert PartialVisits(n, done, 0, 0) != PartialVisits(n, done, n - 1, n - 1);
    }
  }

  lemma {:induction false} FirstRoundCounts(n: nat, rounds: nat)
    requires n > 0 && rounds > 0
    ensures Visits(n, rounds, 0, 0) >= 1
  {
    hide PositionOf;
    if rounds > 1 { FirstRoundCounts(n, rounds - 1); } else { FirstPosition(n); }
  }

  lemma FirstPosition(n: nat)
    requires n > 0
    ensures PositionOf(n, 0, 0) == 0
  {
    hide Mod;
    ModRange(0, n);
  }

  lemma EvenUnbalanced(n: nat, rounds: nat, each: nat)
    requires n > 0 && n % 2 == 0 && rounds > 0
    ensures !Balanced(n, rounds, each)
  {
    hide Visits;
    EvenKeepsParity(n, rounds, 0, 1);
    FirstRoundCounts(n, rounds);
    assert Visits(n, rounds, 0, 0) != Visits(n, rounds, 0, 1);
  }

  lemma {:induction false} OneProbe(rounds: nat)
    ensures Balanced(1, rounds, rounds)
  {
    hide PositionOf;
    if rounds > 0 {
      OneProbe(rounds - 1);
      assert Visits(1, rounds - 1, 0, 0) == rounds - 1;
    }
  }

  lemma BlocksAndRest(rounds: nat, m: nat) returns (blocks: nat, done: nat)
    requires m > 0
    ensures rounds == blocks * m + done && done == rounds % m && done < m && (rounds == 0 ==> done == 0)
  {
    blocks, done := rounds / m, rounds % m;
  }

  ghost predicate Counterbalanced(n: nat, rounds: nat) {
    exists each :: Balanced(n, rounds, each)
  }

  lemma OddExactly(n: nat, rounds: nat, blocks: nat, done: nat)
    requires n % 2 == 1 && n > 1 && done < 2 * n && rounds == blocks * (2 * n) + done
    ensures Counterbalanced(n, rounds) <==> done == 0
  {
    hide Balanced;
    if done == 0 {
      WholeBlocksBalanced(n, blocks);
    } else {
      forall each ensures !Balanced(n, rounds, each) { PartialUnbalanced(n, blocks, done, each); }
    }
  }

  lemma EvenExactly(n: nat, rounds: nat)
    requires n > 0 && n % 2 == 0
    ensures Counterbalanced(n, rounds) <==> rounds == 0
  {
    if rounds == 0 {
      assert Balanced(n, 0, 0);
    } else {
      forall each ensures !Balanced(n, rounds, each) { EvenUnbalanced(n, rounds, each); }
    }
  }

  /** The exact condition, for any number of probes and rounds: every probe takes every position equally often
      precisely when there is one probe, or no round, or an odd number of probes and whole blocks of `2n` rounds. */
  lemma BalancedExactly(n: nat, rounds: nat)
    requires n > 0
    ensures Counterbalanced(n, rounds) <==> n == 1 || rounds == 0 || (n % 2 == 1 && rounds % (2 * n) == 0)
  {
    hide Counterbalanced;
    if n == 1 {
      OneIsBalanced(rounds);
    } else if n % 2 == 0 {
      EvenExactly(n, rounds);
    } else {
      var blocks, done := BlocksAndRest(rounds, 2 * n);
      OddExactly(n, rounds, blocks, done);
    }
  }

  lemma OneIsBalanced(rounds: nat)
    ensures Counterbalanced(1, rounds)
  {
    OneProbe(rounds);
  }

  // ----- tuning: the order only alternates

  function TuningOrder<T>(candidates: seq<T>, round: nat): (order: seq<T>)
    ensures |order| == |candidates|
  {
    if round % 2 == 0 then candidates else Reversed(candidates)
  }

  function TuningRound<P>(candidates: seq<P>, round: nat): (r: seq<Entry<P>>)
    ensures |r| == |candidates|
  {
    var order := TuningOrder(candidates, round);
    seq(|order|, position requires 0 <= position < |order| => Entry(round, position, order[position]))
  }

  function TuningSchedule<P>(candidates: seq<P>, rounds: nat): seq<Entry<P>> {
    if rounds == 0 then [] else TuningSchedule(candidates, rounds - 1) + TuningRound(candidates, rounds - 1)
  }

  lemma {:induction false} TuningScheduleGrows<P>(candidates: seq<P>, round: nat, rounds: nat)
    requires round < rounds
    ensures TuningSchedule(candidates, round) + TuningRound(candidates, round) <= TuningSchedule(candidates, rounds)
  {
    hide TuningRound;
    if round < rounds - 1 { TuningScheduleGrows(candidates, round, rounds - 1); }
  }

  /** The tuning samples of every candidate; a failing batch abandons the tuning. */
  method GatherTuning<P(==, !new), B>(candidates: seq<P>, rounds: nat, sample: nat -> Option<B>)
    returns (r: Option<Measured<P, B>>)
    ensures r.Some? <==> forall k: nat :: k < |TuningSchedule(candidates, rounds)| ==> sample(k).Some?
    ensures r.Some? ==> r.value.log == TuningSchedule(candidates, rounds)
                        && CollectedFrom(r.value, candidates, Returned(sample, |r.value.log|))
  {
    hide CollectedFrom, SamplesOf, TuningOrder;
    var observed: map<P, seq<B>> := map p | p in candidates :: [];
    var log: seq<Entry<P>> := [];
    ghost var samples: seq<B> := [];
    NothingCollected(Measured(observed, log), candidates, samples);
    var round := 0;
    while round < rounds
      invariant 0 <= round <= rounds
      invariant log == TuningSchedule(candidates, round) && |samples| == |log|
      invariant forall k: nat :: k < |samples| ==> sample(k).Some? && sample(k).value == samples[k]
      invariant CollectedFrom(Measured(observed, log), candidates, samples)
    {
      var order := TuningOrder(candidates, round);
      TuningOrderPermutes(candidates, round);
      SameMultiset(order, candidates);
      TuningScheduleGrows(candidates, round, rounds);
      ghost var before := log;
      var position := 0;
      while position < |order|
        invariant 0 <= position <= |order| && order == TuningOrder(candidates, round)
        invariant log == before + TuningRound(candidates, round)[..position] && |samples| == |log|
        invariant forall k: nat :: k < |samples| ==> sample(k).Some? && sample(k).value == samples[k]
        invariant CollectedFrom(Measured(observed, log), candidates, samples)
      {
        assert order[position] in candidates;
        var candidate := order[position];
        var batch := sample(|log|);
        if batch.None? {
          assert |log| < |TuningSchedule(candidates, rounds)|;
          return None;
        }
        AppendSample(Measured(observed, log), candidates, samples, Entry(round, position, candidate), batch.value);
        observed := observed[candidate := observed[candidate] + [batch.value]];
        log := log + [Entry(round, position, candidate)];
        samples := samples + [batch.value];
        position := position + 1;
      }
      assert TuningRound(candidates, round)[..position] == TuningRound(candidates, round);
      round := round + 1;
    }
    assert samples == Returned(sample, |log|);
    r := Some(Measured(observed, log));
  }

  lemma TuningOrderPermutes<T>(candidates: seq<T>, round: nat)
    ensures multiset(TuningOrder(candidates, round)) == multiset(candidates)
  {
    ReversedPermutes(candidates);
  }

  function TuningPosition(n: nat, round: nat, i: nat): nat
    requires i < n
  {
    if round % 2 == 0 then i else n - 1 - i
  }

  /** Candidate `i` stands at position `TuningPosition`, and nowhere else. */
  lemma TunedAt<T>(candidates: seq<T>, round: nat, i: nat, p: nat)
    requires Distinct(candidates) && i < |candidates| && p < |candidates|
    ensures TuningOrder(candidates, round)[p] == candidates[i] <==> p == TuningPosition(|candidates|, round, i)
  {
    hide Distinct;
    OnlyAt(candidates, if round % 2 == 0 then p else |candidates| - 1 - p, i);
  }

  function TuningVisits(n: nat, rounds: nat, i: nat, p: nat): nat
    requires i < n
  {
    if rounds == 0 then 0 else
      TuningVisits(n, rounds - 1, i, p) + if TuningPosition(n, rounds - 1, i) == p then 1 else 0
  }

  lemma {:induction false} TuningVisitsAre(n: nat, rounds: nat, i: nat, p: nat)
    requires i < n && p < n
    ensures TuningVisits(n, rounds, i, p)
         == (if p == i then (rounds + 1) / 2 else 0) + (if p == n - 1 - i then rounds / 2 else 0)
  {
    if rounds > 0 { TuningVisitsAre(n, rounds - 1, i, p); }
  }

  ghost predicate EvenlyMirrored(n: nat, rounds: nat) {
    forall i: nat, p: nat {:trigger TuningVisits(n, rounds, i, p)} ::
      i < n && p < n ==> TuningVisits(n, rounds, i, p) == TuningVisits(n, rounds, i, n - 1 - p)
  }

  /** Alternating directions makes up for each other, a candidate taking position `p` as often as `n - 1 - p`, exactly
      when there is one candidate or an even number of rounds. */
  lemma TuningBalancedExactly(n: nat, rounds: nat)
    requires n > 0
    ensures EvenlyMirrored(n, rounds) <==> n == 1 || rounds % 2 == 0
  {
    forall i: nat, p: nat | i < n && p < n && (n == 1 || rounds % 2 == 0)
      ensures TuningVisits(n, rounds, i, p) == TuningVisits(n, rounds, i, n - 1 - p)
    {
      TuningVisitsAre(n, rounds, i, p);
      TuningVisitsAre(n, rounds, i, n - 1 - p);
    }
    if n > 1 && rounds % 2 == 1 {
      TuningVisitsAre(n, rounds, 0, 0);
      TuningVisitsAre(n, rounds, 0, n - 1);
      assert TuningVisits(n, rounds, 0, 0) != TuningVisits(n, rounds, 0, n - 1 - 0);
    }
  }

  // ----- choosing a tuned configuration

  /** No candidate scores higher, and none of those that score the same is smaller. */
  ghost predicate IsTuned(candidates: seq<int>, score: int -> real, best: int) {
    && best in candidates
    && forall c :: c in candidates ==> score(c) < score(best) || (score(c) == score(best) && best <= c)
  }

  /** The candidate of the highest score; the smallest wins an exact tie. Without candidates there is nothing to
      choose. */
  method SelectTuned(candidates: seq<int>, score: int -> real) returns (best: Option<int>)
    ensures best == None <==> candidates == []
    ensures best.Some? ==> IsTuned(candidates, score, best.value)
  {
    if candidates == [] { return None; }
    var selected := candidates[0];
    for i := 1 to |candidates|
      invariant IsTuned(candidates[..i], score, selected)
    {
      var c := candidates[i];
      if score(selected) < score(c) || (score(selected) == score(c) && -selected < -c) {
        selected := c;
      }
      assert candidates[..i + 1] == candidates[..i] + [c];
    }
    assert candidates[..|candidates|] == candidates;
    return Some(selected);
  }

  /** The choice does not depend on the order in which the candidates are listed. */
  lemma TunedIgnoresOrder(candidates: seq<int>, others: seq<int>, score: int -> real, a: int, b: int)
    requires SetOf(candidates) == SetOf(others)
    requires IsTuned(candidates, score, a) && IsTuned(others, score, b)
    ensures a == b
  {
    assert a in SetOf(candidates) && b in SetOf(others);
  }
}
