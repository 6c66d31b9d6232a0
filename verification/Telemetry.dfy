/** telemetry.rs: the sampling loop. Times are microseconds; percentages are exact. */
module Telemetry {
  import opened Wrappers

  const PERIOD: int := 100_000

  /** One reading of /proc/stat: busy time, and idle plus I/O wait. */
  datatype SysTime = SysTime(active: nat, idle: nat)

  /** What one round of the loop meets. `work` passes between the previous sample and the look at
      the clock; `late` is how far the sample then comes behind the time aimed at. A reading that
      fails is None. */
  datatype Round = Round(work: nat, late: nat, cgroup: Option<nat>, sys: Option<SysTime>)

  datatype Sample = Sample(at: int, elapsed: int, fromCgroup: bool, cpuPct: real, cpuUsec: nat)

  function Max(a: int, b: int): int { if a > b then a else b }

  function SaturatingSub(a: nat, b: nat): nat { if a > b then a - b else 0 }

  // ---------- the schedule ----------

  function Tick(start: int, k: nat): int { start + PERIOD * (k + 1) }

  /** The two readings of the clock before the loop: the first sets the schedule, the second is where the
      first interval begins. */
  datatype Clock = Clock(start: int, begin: int)

  function Before(begin: int, at: seq<Sample>, k: nat): int
    requires k <= |at|
  {
    if k == 0 then begin else at[k - 1].at
  }

  /** Sample `k` waits for its tick, or follows at once when that has passed. */
  predicate OnTime(clock: Clock, script: seq<Round>, at: seq<Sample>, k: nat)
    requires k < |at| <= |script|
  {
    at[k].at == Max(Tick(clock.start, k), Before(clock.begin, at, k) + script[k].work) + script[k].late
  }

  predicate Timed(clock: Clock, script: seq<Round>, at: seq<Sample>) {
    |at| <= |script| && forall k :: 0 <= k < |at| ==> OnTime(clock, script, at, k)
  }

  /** Sampling never runs ahead of its schedule, however the earlier rounds went. */
  lemma NeverEarly(clock: Clock, script: seq<Round>, at: seq<Sample>, k: nat)
    requires Timed(clock, script, at) && k < |at|
    ensures at[k].at >= clock.start + 100_000 * (k + 1)
  {
    assert OnTime(clock, script, at, k);
  }

  /** A round whose work fits the time left puts the schedule right, whatever the delay before. */
  lemma NoDrift(clock: Clock, script: seq<Round>, at: seq<Sample>, k: nat)
    requires Timed(clock, script, at) && k < |at| && Before(clock.begin, at, k) + script[k].work <= Tick(clock.start, k)
    ensures at[k].at == Tick(clock.start, k) + script[k].late
  {
    assert OnTime(clock, script, at, k);
  }

  /** If the first round fits in front of its tick and no later one takes longer than a period, the lateness
      stays below the largest overshoot. */
  lemma {:induction false} LatenessBounded(clock: Clock, script: seq<Round>, at: seq<Sample>, k: nat, most: nat)
    requires Timed(clock, script, at) && k < |at|
    requires clock.begin + script[0].work + script[0].late <= Tick(clock.start, 0)
    requires forall j :: 0 < j <= k ==> script[j].work + script[j].late <= PERIOD
    requires forall j :: 0 <= j <= k ==> script[j].late <= most
    ensures Tick(clock.start, k) <= at[k].at <= Tick(clock.start, k) + most
  {
    if k == 0 {
    } else {
      LatenessBounded(clock, script, at, k - 1, most);
    }
    assert OnTime(clock, script, at, k);
  }

  // ---------- the accounts ----------

  /** The CPU time behind a percentage of an interval. */
  function Share(pct: real, elapsed: int): real { pct * (elapsed as real) / 100.0 }

  /** The CPU time that the samples taken from the cgroup account for. */
  function Charged(samples: seq<Sample>): real {
    if samples == [] then 0.0 else
    var n := |samples| - 1;
    var s := samples[n];
    Charged(samples[..n]) + (if s.fromCgroup then Share(s.cpuPct, s.elapsed) else 0.0)
  }

  /** How much the counter rose from one successful reading to the next, and how much it fell. */
  function Rises(prev: Option<nat>, script: seq<Round>): nat
    decreases script
  {
    if script == [] then 0 else
    match script[0].cgroup
    case None => Rises(prev, script[1..])
    case Some(c) => (if prev.Some? then SaturatingSub(c, prev.value) else 0) + Rises(Some(c), script[1..])
  }

  function Falls(prev: Option<nat>, script: seq<Round>): nat
    decreases script
  {
    if script == [] then 0 else
    match script[0].cgroup
    case None => Falls(prev, script[1..])
    case Some(c) => (if prev.Some? then SaturatingSub(prev.value, c) else 0) + Falls(Some(c), script[1..])
  }

  /** The first and the last reading that succeeded. */
  function FirstReading(prev: Option<nat>, script: seq<Round>): Option<nat>
    decreases script
  {
    if prev.Some? || script == [] then prev else FirstReading(script[0].cgroup, script[1..])
  }

  function LastReading(prev: Option<nat>, script: seq<Round>): Option<nat>
    decreases script
  {
    if script == [] then prev
    else LastReading(if script[0].cgroup.Some? then script[0].cgroup else prev, script[1..])
  }

  predicate CounterMonotone(prev: Option<nat>, script: seq<Round>)
    decreases script
  {
    script == [] ||
    match script[0].cgroup
    case None => CounterMonotone(prev, script[1..])
    case Some(c) => (prev.Some? ==> prev.value <= c) && CounterMonotone(Some(c), script[1..])
  }

  /** What was charged and what was lost to falls of the counter add up to its whole change. */
  lemma {:induction false} RisesTelescope(prev: Option<nat>, script: seq<Round>)
    ensures FirstReading(prev, script).Some? <==> LastReading(prev, script).Some?
    ensures FirstReading(prev, script).Some? ==>
      Rises(prev, script) - Falls(prev, script) ==
      LastReading(prev, script).value - FirstReading(prev, script).value
    ensures CounterMonotone(prev, script) <==> Falls(prev, script) == 0
    decreases script
  {
    if script == [] {
    } else {
      RisesTelescope(if script[0].cgroup.Some? then script[0].cgroup else prev, script[1..]);
    }
  }

  /** Busy and idle time never go back between the /proc/stat readings that count: those of rounds
      without a cgroup reading. */
  predicate SysMonotone(prev: Option<SysTime>, script: seq<Round>)
    decreases script
  {
    script == [] ||
    if script[0].cgroup.Some? || script[0].sys.None? then SysMonotone(prev, script[1..])
    else
      (prev.Some? ==> prev.value.active <= script[0].sys.value.active && prev.value.idle <= script[0].sys.value.idle) &&
      SysMonotone(script[0].sys, script[1..])
  }

  function Total(t: SysTime): nat { t.active + t.idle }

  /** The share of busy time between two readings of /proc/stat. */
  function SysPct(prev: SysTime, now: SysTime): (r: real)
    ensures r >= 0.0
    ensures prev.active <= now.active && prev.idle <= now.idle ==> r <= 100.0
    ensures var before, after := prev.active + prev.idle, now.active + now.idle;
      && (after > before && now.active >= prev.active ==>
            r * (after - before) as real == 100.0 * (now.active - prev.active) as real)
      && (after <= before || now.active < prev.active ==> r == 0.0)
  {
    var dActive, dTotal := SaturatingSub(now.active, prev.active), SaturatingSub(Total(now), Total(prev));
    if dTotal > 0 then
      ShareBounds(dActive, dTotal);
      (dActive as real) / (dTotal as real) * 100.0
    else 0.0
  }

  lemma ShareBounds(a: nat, t: nat)
    requires t > 0
    ensures (a as real) / (t as real) * 100.0 >= 0.0
    ensures a <= t ==> (a as real) / (t as real) * 100.0 <= 100.0
    ensures (a as real) / (t as real) * 100.0 * (t as real) == 100.0 * a as real
  {
    var q := (a as real) / (t as real);
    assert q * (t as real) == a as real;
    assert q * 100.0 * (t as real) == 100.0 * (q * (t as real));
    assert q >= 0.0;
    if a <= t { assert q <= 1.0; }
  }

  lemma ChargeOne(rise: nat, elapsed: int)
    requires elapsed > 0
    ensures Share((rise as real) / (elapsed as real) * 100.0, elapsed) == rise as real
  {
    var e := elapsed as real;
    var q := (rise as real) / e;
    assert q * e == rise as real;
    assert (q * 100.0) * e == (q * e) * 100.0;
  }

  lemma ChargedStep(samples: seq<Sample>, s: Sample)
    ensures Charged(samples + [s]) ==
      Charged(samples) + (if s.fromCgroup then Share(s.cpuPct, s.elapsed) else 0.0)
  {
    assert (samples + [s])[..|samples|] == samples;
  }

  ghost predicate AllPositive(samples: seq<Sample>) { forall i :: 0 <= i < |samples| ==> samples[i].elapsed > 0 }

  /** What a fallback sample shows: nothing without two readings of /proc/stat. */
  function Fallback(prev: Option<SysTime>, now: Option<SysTime>): real {
    if prev.Some? && now.Some? then SysPct(prev.value, now.value) else 0.0
  }

  /** `pct` of a positive interval is the CPU time since the previous reading of the counter. */
  predicate Accounts(pct: real, elapsed: int, prev: Option<nat>, now: nat) {
    var rise := if prev.Some? && now > prev.value then now - prev.value else 0;
    if elapsed > 0 then pct * (elapsed as real) == 100.0 * (rise as real) else pct == 0.0
  }

  /** The latest reading of the counter before round `j`, however many failed since. */
  function CgroupBefore(baseline: Option<nat>, script: seq<Round>, j: nat): Option<nat>
    requires j <= |script|
  {
    if j == 0 then baseline
    else if script[j - 1].cgroup.Some? then script[j - 1].cgroup
    else CgroupBefore(baseline, script, j - 1)
  }

  /** The latest reading of /proc/stat before round `j`; only rounds without the counter take one. */
  function SysBefore(baseline: Option<SysTime>, script: seq<Round>, j: nat): Option<SysTime>
    requires j <= |script|
  {
    if j == 0 then baseline
    else if script[j - 1].cgroup.None? && script[j - 1].sys.Some? then script[j - 1].sys
    else SysBefore(baseline, script, j - 1)
  }

  /** The CPU part of one round: the cgroup counter if it can be read, else the system's. */
  method Measure(round: Round, elapsed: int, prevCgroup: Option<nat>, prevSys: Option<SysTime>)
    returns (cpuPct: real, cpuUsec: nat, cgroup: Option<nat>, sys: Option<SysTime>)
    ensures cpuPct >= 0.0
    ensures round.cgroup.Some? ==> cgroup == round.cgroup && sys == prevSys && cpuUsec == cgroup.value
    ensures round.cgroup.Some? ==> Accounts(cpuPct, elapsed, prevCgroup, round.cgroup.value)
    ensures round.cgroup.None? ==> cgroup == prevCgroup && cpuUsec == 0 && cpuPct == Fallback(prevSys, round.sys)
    ensures round.cgroup.None? ==> sys == if round.sys.Some? then round.sys else prevSys
    ensures round.cgroup.None? && (prevSys.Some? && round.sys.Some? ==>
        prevSys.value.active <= round.sys.value.active && prevSys.value.idle <= round.sys.value.idle) ==>
      cpuPct <= 100.0
  {
    cpuPct, cpuUsec, cgroup, sys := 0.0, 0, prevCgroup, prevSys;
    if round.cgroup.Some? {
      var c := round.cgroup.value;
      cpuUsec := c;
      if prevCgroup.Some? && elapsed > 0 {
        var rise := SaturatingSub(c, prevCgroup.value);
        ChargeOne(rise, elapsed);
        cpuPct := (rise as real) / (elapsed as real) * 100.0;
        assert (rise as real) / (elapsed as real) >= 0.0;
      }
      cgroup := Some(c);
    } else if round.sys.Some? {
      if prevSys.Some? { cpuPct := SysPct(prevSys.value, round.sys.value); }
      sys := round.sys;
    }
  }

  lemma PositivePrefix(samples: seq<Sample>, s: Sample)
    ensures AllPositive(samples + [s]) <==> AllPositive(samples) && s.elapsed > 0
  {
    if AllPositive(samples + [s]) {
      forall i | 0 <= i < |samples| ensures samples[i].elapsed > 0 { assert (samples + [s])[i] == samples[i]; }
      assert (samples + [s])[|samples|] == s;
    }
  }

  /** The readings tried before the loop. */
  datatype Baseline = Baseline(cgroup: Option<nat>, sys: Option<SysTime>)

  /** Sample `j` says truly how it was made. */
  predicate Truthful(clock: Clock, base: Baseline, script: seq<Round>, samples: seq<Sample>, j: nat)
    requires j < |samples| <= |script|
  {
    TruthfulSample(samples[j], Before(clock.begin, samples, j), script[j],
                   CgroupBefore(base.cgroup, script, j), SysBefore(base.sys, script, j))
  }

  predicate TruthfulSample(s: Sample, before: int, round: Round, cgroup: Option<nat>, sys: Option<SysTime>) {
    && s.elapsed == s.at - before >= 0
    && (s.fromCgroup <==> round.cgroup.Some?)
    && s.cpuPct >= 0.0
    && match round.cgroup
       case Some(c) => s.cpuUsec == c && Accounts(s.cpuPct, s.elapsed, cgroup, c)
       case None => s.cpuUsec == 0 && s.cpuPct == Fallback(sys, round.sys)
  }

  predicate Kept(clock: Clock, base: Baseline, script: seq<Round>, samples: seq<Sample>) {
    Timed(clock, script, samples) && forall j :: 0 <= j < |samples| ==> Truthful(clock, base, script, samples, j)
  }

  lemma KeptStep(clock: Clock, base: Baseline, script: seq<Round>, samples: seq<Sample>, s: Sample)
    requires Kept(clock, base, script, samples) && |samples| < |script|
    requires var i := |samples|;
      && s.at == Max(Tick(clock.start, i), Before(clock.begin, samples, i) + script[i].work) + script[i].late
      && TruthfulSample(s, Before(clock.begin, samples, i), script[i],
                        CgroupBefore(base.cgroup, script, i), SysBefore(base.sys, script, i))
    ensures Kept(clock, base, script, samples + [s])
  {
    hide TruthfulSample, CgroupBefore, SysBefore;
    var more := samples + [s];
    forall k | 0 <= k < |more| ensures OnTime(clock, script, more, k) && Truthful(clock, base, script, more, k) {
      if k < |samples| { assert OnTime(clock, script, samples, k) && Truthful(clock, base, script, samples, k); }
    }
  }

  /** The fallback percentages are at most 100. */
  ghost predicate Proper(samples: seq<Sample>) {
    forall j :: 0 <= j < |samples| && !samples[j].fromCgroup ==> samples[j].cpuPct <= 100.0
  }

  lemma ProperStep(samples: seq<Sample>, s: Sample)
    requires Proper(samples) && (!s.fromCgroup ==> s.cpuPct <= 100.0)
    ensures Proper(samples + [s])
  {
  }

  /** One round in the accounts of the counter and of the system times. */
  lemma ScriptStep(script: seq<Round>, i: nat, cgroup: Option<nat>, sys: Option<SysTime>)
    requires i < |script|
    ensures var c := script[i].cgroup;
      Rises(cgroup, script[i..]) ==
        (if c.Some? && cgroup.Some? then SaturatingSub(c.value, cgroup.value) else 0) +
        Rises(if c.Some? then c else cgroup, script[i + 1..])
    ensures SysMonotone(sys, script[i..]) ==>
      SysMonotone(if script[i].cgroup.None? && script[i].sys.Some? then script[i].sys else sys, script[i + 1..])
    ensures SysMonotone(sys, script[i..]) && script[i].cgroup.None? && script[i].sys.Some? && sys.Some? ==>
      sys.value.active <= script[i].sys.value.active && sys.value.idle <= script[i].sys.value.idle
  {
    assert script[i..][0] == script[i] && script[i..][1..] == script[i + 1..];
  }

  /** `run`, for as many rounds as it makes before it sees the stop flag. `baseline` and
      `sysBaseline` are the readings tried before the loop; the second only counts without the
      first.

      The samples keep the schedule, and each shows the share of its interval that its readings
      give; over positive intervals the percentages of the cgroup samples account for every rise of
      the counter, whichever readings failed in between; and the fallback percentages are proper
      ones while the system counters do not go back. */
  method Run(clock: Clock, script: seq<Round>, baseline: Option<nat>, sysBaseline: Option<SysTime>)
    returns (samples: seq<Sample>)
    ensures |samples| == |script|
    ensures Kept(clock, Baseline(baseline, if baseline.None? then sysBaseline else None), script, samples)
    ensures AllPositive(samples) ==> Charged(samples) == Rises(baseline, script) as real
    ensures SysMonotone(if baseline.None? then sysBaseline else None, script) ==> Proper(samples)
  {
    var nextTick := clock.start + PERIOD;
    var prevCgroup := baseline;
    var prevSys := if prevCgroup.None? then sysBaseline else None;
    var prevInstant := clock.begin;
    samples := [];
    ghost var base := Baseline(prevCgroup, prevSys);
    NothingYet(clock, base, script);
    assert script[0..] == script;
    hide Charged, Share, AllPositive, Kept, Proper, Rises, SysMonotone, SaturatingSub, Fallback, Accounts;
    var i := 0;
    while i < |script|
      invariant 0 <= i <= |script| && |samples| == i
      invariant nextTick == Tick(clock.start, i) && prevInstant == Before(clock.begin, samples, i)
      invariant prevCgroup == CgroupBefore(base.cgroup, script, i) && prevSys == SysBefore(base.sys, script, i)
      invariant Kept(clock, base, script, samples)
      invariant AllPositive(samples) ==>
        Charged(samples) + Rises(prevCgroup, script[i..]) as real == Rises(baseline, script) as real
      invariant SysMonotone(base.sys, script) ==> SysMonotone(prevSys, script[i..]) && Proper(samples)
    {
      ScriptStep(script, i, prevCgroup, prevSys);
      var now := prevInstant + script[i].work;
      var sampleInstant := (if nextTick > now then nextTick else now) + script[i].late;
      nextTick := nextTick + PERIOD;
      var elapsed := sampleInstant - prevInstant;
      var cpuPct, cpuUsec, cgroup, sys := Measure(script[i], elapsed, prevCgroup, prevSys);
      var s := Sample(sampleInstant, elapsed, script[i].cgroup.Some?, cpuPct, cpuUsec);
      assert TruthfulSample(s, prevInstant, script[i], prevCgroup, prevSys);
      hide TruthfulSample, Max;
      Rose(s, prevCgroup, script[i]);
      prevCgroup, prevSys, prevInstant := cgroup, sys, sampleInstant;
      ChargedStep(samples, s);
      PositivePrefix(samples, s);
      KeptStep(clock, base, script, samples, s);
      if SysMonotone(base.sys, script) { ProperStep(samples, s); }
      samples := samples + [s];
      i := i + 1;
    }
    NothingLeft(prevCgroup, script[i..]);
  }

  /** A cgroup sample over a positive interval charges the rise since the previous reading. */
  lemma Rose(s: Sample, prev: Option<nat>, round: Round)
    requires round.cgroup.Some? ==> Accounts(s.cpuPct, s.elapsed, prev, round.cgroup.value)
    ensures round.cgroup.Some? && s.elapsed > 0 ==>
      Share(s.cpuPct, s.elapsed) == (if prev.Some? then SaturatingSub(round.cgroup.value, prev.value) else 0) as real
  {
  }

  lemma NothingYet(clock: Clock, base: Baseline, script: seq<Round>)
    ensures Charged([]) == 0.0 && Kept(clock, base, script, []) && Proper([])
  {
  }

  lemma NothingLeft(prev: Option<nat>, script: seq<Round>)
    requires script == []
    ensures Rises(prev, script) == 0
  {
  }

  /** CPU accounting telescopes: with positive intervals and a counter that never falls, the cgroup
      samples of a run account for exactly what the counter gained since the baseline. */
  lemma AccountsTelescope(samples: seq<Sample>, baseline: Option<nat>, script: seq<Round>)
    requires Charged(samples) == Rises(baseline, script) as real && FirstReading(baseline, script).Some?
    ensures LastReading(baseline, script).Some?
    ensures CounterMonotone(baseline, script) <==>
      Charged(samples) == (LastReading(baseline, script).value - FirstReading(baseline, script).value) as real
  {
    RisesTelescope(baseline, script);
  }
}
