/**
 * The asynchronous ping scanner (net_scanner/scanner.py): latency extraction
 * from ping output, the retry loop around one ping, the averaging of latency
 * samples, the two scan phases that fill the per-host result map, the scan
 * summary, and the progress counter.
 *
 * A ping attempt's outcome is an input (the subprocess is not modelled), the
 * timed sampling loop of phase 2 is replaced by its list of samples, and the
 * asyncio task groups are sequential loops over the hosts in input order.
 */
module Scanner {
  import opened Wrappers
  import Text
  import Rx
  import Dict
  import opened ScanConfig
  import Decimal

  // ---------------- latency extraction ----------------

  /** `\d+\.?\d*` inside a capturing group. */
  const Number: seq<Rx.Elem> := [Rx.Open, Rx.Atom(Rx.Digit, Rx.One), Rx.Atom(Rx.Digit, Rx.Star),
                                 Rx.Atom(Rx.Chr('.'), Rx.Opt), Rx.Atom(Rx.Digit, Rx.Star), Rx.Close]

  /** `[=<>]` */
  const Relation := Rx.Atom(Rx.Ranges([('=', '='), ('<', '<'), ('>', '>')]), Rx.One)

  /** The three patterns of _extract_latency, in the order they are tried. */
  const LatencyPatterns: seq<Rx.Pattern> := [
    [Rx.LitElems("time") + [Relation] + Number + [Rx.Atom(Rx.Space, Rx.Star)] + Rx.LitElems("ms")],
    [Rx.LitElems("время") + [Relation] + Number + [Rx.Atom(Rx.Space, Rx.Star)] + Rx.LitElems("мс")],
    [Number + [Rx.Atom(Rx.Space, Rx.Star)] + Rx.LitElems("ms")]]

  predicate AllDigits(s: string)
  {
    forall i | 0 <= i < |s| :: Text.IsAsciiDigit(s[i])
  }

  /** float(s) for an unsigned decimal: digits, at most one point, and at least one digit. */
  function ParseDecimal(s: string): (r: Option<real>)
    ensures r.Some? ==> r.value >= 0.0
    ensures s != "" && AllDigits(s) ==> r == Some(Text.DigitsValue(s) as real)
    ensures r.Some? ==> s != "" && forall i | 0 <= i < |s| :: Text.IsAsciiDigit(s[i]) || s[i] == '.'
  {
    var k := Text.IndexOf(s, '.');
    if k < 0 then
      if s != "" && AllDigits(s) then Some(Text.DigitsValue(s) as real) else None
    else
      var whole := s[..k];
      var frac := s[k + 1..];
      assert !AllDigits(s) by { assert s[k] == '.'; }
      if (whole != "" || frac != "") && AllDigits(whole) && AllDigits(frac) then
        assert forall i | 0 <= i < |s| :: Text.IsAsciiDigit(s[i]) || s[i] == '.' by {
          forall i | 0 <= i < |s| ensures Text.IsAsciiDigit(s[i]) || s[i] == '.' {
            if i < k { assert s[i] == whole[i]; }
            else if i > k { assert s[i] == frac[i - k - 1]; }
          }
        }
        var scale := Text.Pow10(|frac|) as real;
        assert scale > 0.0 && Text.DigitsValue(frac) as real / scale >= 0.0;
        Some(Text.DigitsValue(whole) as real + Text.DigitsValue(frac) as real / scale)
      else None
  }

  /** Pattern `p` gives a latency for `output`: it has a match, and its last match reads as a number. */
  function LastMatch(p: Rx.Pattern, output: string): (r: Option<real>)
  {
    var ms := Rx.FindAll(p, output, 0, true);
    if ms == [] then None else ParseDecimal(ms[|ms| - 1])
  }

  /**
   * _extract_latency over a list of patterns: the last match of the first
   * pattern, in list order, whose last match reads as a number (a match
   * that does not is skipped, as the `except ValueError: continue` does).
   */
  function LatencyFrom(pats: seq<Rx.Pattern>, output: string): (r: Option<real>)
    decreases |pats|
  {
    if pats == [] then None
    else if LastMatch(pats[0], output).Some? then LastMatch(pats[0], output)
    else LatencyFrom(pats[1..], output)
  }

  /** The latency is None exactly when no pattern reads. */
  lemma {:induction false} LatencyNone(pats: seq<Rx.Pattern>, output: string)
    ensures LatencyFrom(pats, output).None? <==> forall k | 0 <= k < |pats| :: LastMatch(pats[k], output).None?
    decreases |pats|
  {
    if pats != [] && LastMatch(pats[0], output).None? {
      LatencyNone(pats[1..], output);
      assert forall k | 1 <= k < |pats| :: pats[k] == pats[1..][k - 1];
    }
  }

  /** A latency is the reading of the first pattern that reads. */
  lemma {:induction false} LatencyFromFirst(pats: seq<Rx.Pattern>, output: string)
    ensures var r := LatencyFrom(pats, output);
      r.Some? ==> exists k | 0 <= k < |pats| :: LastMatch(pats[k], output) == r
                    && forall j | 0 <= j < k :: LastMatch(pats[j], output).None?
    decreases |pats|
  {
    if pats == [] {
      return;
    }
    var r := LatencyFrom(pats, output);
    var head := LastMatch(pats[0], output);
    if head.Some? {
      assert r == head;
      assert LastMatch(pats[0], output) == r;
    } else {
      var rest := pats[1..];
      assert r == LatencyFrom(rest, output);
      LatencyFromFirst(rest, output);
      if r.Some? {
        var k :| 0 <= k < |rest| && LastMatch(rest[k], output) == r
                 && forall j | 0 <= j < k :: LastMatch(rest[j], output).None?;
        forall j | 0 <= j < k + 1
          ensures LastMatch(pats[j], output).None?
        {
          if j > 0 {
            assert pats[j] == rest[j - 1];
          }
        }
        assert pats[k + 1] == rest[k];
      }
    }
  }

  /** A pattern without a match contributes nothing, so the search moves to the next pattern. */
  lemma LatencySkipsUnmatched(pats: seq<Rx.Pattern>, output: string)
    requires pats != [] && Rx.FindAll(pats[0], output, 0, true) == []
    ensures LatencyFrom(pats, output) == LatencyFrom(pats[1..], output)
  {
  }

  function ExtractLatency(output: string): Option<real>
  {
    LatencyFrom(LatencyPatterns, output)
  }

  // ---------------- one ping with retries ----------------

  /** How one run of the ping command ended. */
  datatype Attempt = Exited(code: int, output: string) | TimedOut | Raised

  /** The result of _execute_ping from attempt `a` on, for `n` allowed attempts. */
  function PingFrom(n: int, tries: nat -> Attempt, a: nat): (r: (PingResult, Option<real>))
    ensures r.0 != PingSuccess ==> r.1.None?
    decreases n - a
  {
    if a >= n then (PingError, None)
    else
      match tries(a)
      case Exited(code, output) =>
        if code == 0 then (PingSuccess, ExtractLatency(output))
        else if a < n - 1 then PingFrom(n, tries, a + 1) else (PingUnreachable, None)
      case TimedOut => if a < n - 1 then PingFrom(n, tries, a + 1) else (PingTimeout, None)
      case Raised => if a < n - 1 then PingFrom(n, tries, a + 1) else (PingError, None)
  }

  predicate ZeroExit(t: Attempt)
  {
    t.Exited? && t.code == 0
  }

  /** With no attempt left the ping is an ERROR. */
  lemma NoAttemptLeft(n: int, tries: nat -> Attempt, a: nat)
    requires n <= a
    ensures PingFrom(n, tries, a) == (PingError, None)
  {
  }

  /**
   * The retry loop's outcome is SUCCESS exactly when some attempt within the
   * allowance exits with 0.
   */
  lemma {:induction false} SuccessIffZeroExit(n: int, tries: nat -> Attempt, a: nat)
    ensures PingFrom(n, tries, a).0 == PingSuccess <==> exists b :: a <= b < n && ZeroExit(tries(b))
    decreases n - a
  {
    if a < n {
      SuccessIffZeroExit(n, tries, a + 1);
    }
  }

  /** An attempt that does not exit with 0, with attempts left after it, passes on to the next one. */
  lemma PingSkips(n: int, tries: nat -> Attempt, a: nat)
    requires a < n - 1 && !ZeroExit(tries(a))
    ensures PingFrom(n, tries, a) == PingFrom(n, tries, a + 1)
  {
    match tries(a)
    case Exited(code, output) =>
    case TimedOut =>
    case Raised =>
  }

  /** The first attempt that exits with 0 supplies the latency. */
  lemma {:induction false} FirstZeroExit(n: int, tries: nat -> Attempt, a: nat, b: nat)
    requires a <= b < n && ZeroExit(tries(b))
    requires forall c | a <= c < b :: !ZeroExit(tries(c))
    ensures PingFrom(n, tries, a) == (PingSuccess, ExtractLatency(tries(b).output))
    decreases b - a
  {
    if a < b {
      PingSkips(n, tries, a);
      FirstZeroExit(n, tries, a + 1, b);
    }
  }

  /** When no attempt exits with 0, the kind of the final attempt decides the result. */
  lemma {:induction false} FinalAttemptDecides(n: int, tries: nat -> Attempt, a: nat)
    requires a < n && forall b | a <= b < n :: !ZeroExit(tries(b))
    ensures PingFrom(n, tries, a).0 == (match tries(n - 1)
                                        case Exited(_, _) => PingUnreachable
                                        case TimedOut => PingTimeout
                                        case Raised => PingError)
    decreases n - a
  {
    if a < n - 1 {
      FinalAttemptDecides(n, tries, a + 1);
    }
  }

  /** The backoff pauses after attempts 0 .. k-1: 0.1 × (attempt + 1) after each non-zero exit. */
  function Backoff(tries: nat -> Attempt, k: nat): (r: seq<real>)
    ensures |r| <= k
    decreases k
  {
    if k == 0 then []
    else Backoff(tries, k - 1) + (if tries(k - 1).Exited? && tries(k - 1).code != 0 then [0.1 * (k as real)] else [])
  }

  /**
   * _execute_ping: `made` attempts are run, at most max_retries; `sleeps`
   * lists the backoff pauses taken, which follow only non-zero exits of
   * attempts that were not the last.
   */
  method ExecutePing(maxRetries: int, tries: nat -> Attempt)
    returns (result: PingResult, latency: Option<real>, made: nat, sleeps: seq<real>)
    ensures (result, latency) == PingFrom(maxRetries, tries, 0)
    ensures made <= if maxRetries < 0 then 0 else maxRetries
    ensures forall a | 0 <= a < made - 1 :: !ZeroExit(tries(a))
    ensures result == PingSuccess ==> made > 0 && ZeroExit(tries(made - 1))
    ensures sleeps == Backoff(tries, if made == 0 then 0 else made - 1)
  {
    made := 0;
    sleeps := [];
    var attempt := 0;
    while attempt < maxRetries
      invariant 0 <= attempt && made == attempt
      invariant attempt == 0 || attempt < maxRetries
      invariant PingFrom(maxRetries, tries, 0) == PingFrom(maxRetries, tries, attempt)
      invariant forall a | 0 <= a < attempt :: !ZeroExit(tries(a))
      invariant sleeps == Backoff(tries, attempt)
      decreases maxRetries - attempt
    {
      made := made + 1;
      match tries(attempt)
      case Exited(code, output) =>
        if code == 0 {
          latency := ExtractLatency(output);
          return PingSuccess, latency, made, sleeps;
        } else {
          if attempt < maxRetries - 1 {
            sleeps := sleeps + [0.1 * ((attempt + 1) as real)];
            attempt := attempt + 1;
            continue;
          }
          return PingUnreachable, None, made, sleeps;
        }
      case TimedOut =>
        if attempt < maxRetries - 1 {
          attempt := attempt + 1;
          continue;
        }
        return PingTimeout, None, made, sleeps;
      case Raised =>
        if attempt < maxRetries - 1 {
          attempt := attempt + 1;
          continue;
        }
        return PingError, None, made, sleeps;
    }
    return PingError, None, made, sleeps;
  }

  // ---------------- latency averaging ----------------

  function Sum(xs: seq<real>): real
    decreases |xs|
  {
    if xs == [] then 0.0 else Sum(xs[..|xs| - 1]) + xs[|xs| - 1]
  }

  /** One sample of the timed loop: the outcome of one ping, or the exception it raised. */
  type Sample = Result<(PingResult, Option<real>), string>

  /** The latencies the loop keeps: those of successful pings that reported one. */
  function Kept(samples: seq<Sample>): (r: seq<real>)
    ensures |r| <= |samples|
    decreases |samples|
  {
    if samples == [] then []
    else
      var last := samples[|samples| - 1];
      Kept(samples[..|samples| - 1])
      + (if last.Success? && last.value.0 == PingSuccess && last.value.1.Some? then [last.value.1.value] else [])
  }

  /** The mean lies between the smallest and the largest value. */
  lemma {:induction false} SumBounds(xs: seq<real>, lo: real, hi: real)
    requires forall i | 0 <= i < |xs| :: lo <= xs[i] <= hi
    ensures lo * (|xs| as real) <= Sum(xs) <= hi * (|xs| as real)
    decreases |xs|
  {
    if xs != [] {
      SumBounds(xs[..|xs| - 1], lo, hi);
    }
  }

  /** _measure_latency: the mean of the kept latencies rounded to 2 decimals, or None when none were kept. */
  method MeasureLatency(samples: seq<Sample>) returns (avg: Option<real>)
    ensures avg.None? <==> Kept(samples) == []
    ensures avg.Some? ==> avg.value == Decimal.Round2(Sum(Kept(samples)) / (|Kept(samples)| as real))
  {
    var latencies: seq<real> := [];
    var i := 0;
    while i < |samples|
      invariant 0 <= i <= |samples|
      invariant latencies == Kept(samples[..i])
    {
      var s := samples[i];
      if s.Success? && s.value.0 == PingSuccess && s.value.1.Some? {
        latencies := latencies + [s.value.1.value];
      }
      assert samples[..i + 1][..i] == samples[..i];
      i := i + 1;
    }
    assert samples[..i] == samples;
    if latencies != [] {
      return Some(Decimal.Round2(Sum(latencies) / (|latencies| as real)));
    }
    return None;
  }

  /** A quotient by a positive count stays within bounds scaled by that count. */
  lemma QuotientBounds(s: real, n: real, lo: real, hi: real)
    requires n > 0.0 && lo * n <= s <= hi * n
    ensures lo <= s / n <= hi
  {
    var m := s / n;
    assert m * n == s;
  }

  /** The rounded mean lies within 0.005 of the range of the samples it averages. */
  lemma AverageInRange(xs: seq<real>, lo: real, hi: real)
    requires xs != [] && forall i | 0 <= i < |xs| :: lo <= xs[i] <= hi
    ensures lo - 0.005 <= Decimal.Round2(Sum(xs) / (|xs| as real)) <= hi + 0.005
  {
    SumBounds(xs, lo, hi);
    QuotientBounds(Sum(xs), |xs| as real, lo, hi);
  }

  // ---------------- the two phases ----------------

  /** The phase-1 record of one host, from its ping outcome or the exception it raised. */
  function Phase1Result(ip: string, outcome: Sample): (r: ScanResult)
    ensures r.ip == ip
    ensures r.isAlive <==> outcome.Success? && outcome.value.0 == PingSuccess
    ensures !r.isAlive ==> r.avgLatency.None?
    ensures r.isAlive ==> r.avgLatency == outcome.value.1
    ensures r.lastError.Some? <==> outcome.Failure?
  {
    match outcome
    case Failure(e) => NewResult(ip, false).(lastError := Some(e))
    case Success((result, latency)) =>
      var alive := result == PingSuccess;
      NewResult(ip, alive).(avgLatency := if alive then latency else None)
  }

  predicate Alive(outcome: Sample)
  {
    outcome.Success? && outcome.value.0 == PingSuccess
  }

  /** The hosts found alive, in input order. */
  function AliveOf(ips: seq<string>, ping: string -> Sample): (r: seq<string>)
    ensures |r| <= |ips|
    decreases |ips|
  {
    if ips == [] then []
    else AliveOf(ips[..|ips| - 1], ping) + (if Alive(ping(ips[|ips| - 1])) then [ips[|ips| - 1]] else [])
  }

  /** A host is listed alive exactly when it is an input whose ping succeeded. */
  lemma {:induction false} AliveOfMembers(ips: seq<string>, ping: string -> Sample, ip: string)
    ensures ip in AliveOf(ips, ping) <==> ip in ips && Alive(ping(ip))
    decreases |ips|
  {
    if ips != [] {
      var front := ips[..|ips| - 1];
      AliveOfMembers(front, ping, ip);
      assert ips == front + [ips[|ips| - 1]];
    }
  }

  /** How many hosts did not raise: each of those advances the progress counter. */
  function Answered(ips: seq<string>, ping: string -> Sample): (r: nat)
    ensures r <= |ips|
    decreases |ips|
  {
    if ips == [] then 0 else Answered(ips[..|ips| - 1], ping) + (if ping(ips[|ips| - 1]).Success? then 1 else 0)
  }

  /** The records after phase 1 stores each host's record in turn. */
  function Phase1Records(before: Dict.Dict<string, ScanResult>, ips: seq<string>, ping: string -> Sample): Dict.Dict<string, ScanResult>
    decreases |ips|
  {
    if ips == [] then before
    else
      var ip := ips[|ips| - 1];
      Dict.Put(Phase1Records(before, ips[..|ips| - 1], ping), ip, Phase1Result(ip, ping(ip)))
  }

  /** Phase 1 is a Put of each host's record. */
  lemma {:induction false} Phase1RecordsEach(before: Dict.Dict<string, ScanResult>, ips: seq<string>, ping: string -> Sample)
    ensures Phase1Records(before, ips, ping) == Dict.PutEach(before, ips, x => Phase1Result(x, ping(x)))
    decreases |ips|
  {
    if ips != [] {
      Phase1RecordsEach(before, ips[..|ips| - 1], ping);
    }
  }

  /** One more host of phase 1: its record is stored, it joins the alive list when alive, and it counts when it answered. */
  lemma PhaseOneStep(before: Dict.Dict<string, ScanResult>, ips: seq<string>, i: int, ping: string -> Sample)
    requires 0 <= i < |ips|
    ensures Phase1Records(before, ips[..i + 1], ping) == Dict.Put(Phase1Records(before, ips[..i], ping), ips[i], Phase1Result(ips[i], ping(ips[i])))
    ensures AliveOf(ips[..i + 1], ping) == AliveOf(ips[..i], ping) + (if Alive(ping(ips[i])) then [ips[i]] else [])
    ensures Answered(ips[..i + 1], ping) == Answered(ips[..i], ping) + (if ping(ips[i]).Success? then 1 else 0)
  {
    assert ips[..i + 1][..i] == ips[..i];
    assert ips[..i + 1][i] == ips[i];
  }

  /** One phase-2 measurement applied to a record: a failure is recorded, a latency replaces the old one. */
  function Apply(r: ScanResult, m: Result<Option<real>, string>): (t: ScanResult)
    ensures t.ip == r.ip && t.isAlive == r.isAlive
    ensures t.avgLatency == r.avgLatency || (m.Success? && m.value.Some? && t.avgLatency == m.value)
  {
    match m
    case Failure(e) => r.(lastError := Some(e))
    case Success(Some(l)) => r.(avgLatency := Some(l))
    case Success(None) => r
  }

  /** The map after phase 2 over `alive`, in order. */
  function Measured(results: Dict.Dict<string, ScanResult>, alive: seq<string>,
                    measure: string -> Result<Option<real>, string>): Dict.Dict<string, ScanResult>
    decreases |alive|
  {
    if alive == [] then results
    else
      var prev := Measured(results, alive[..|alive| - 1], measure);
      var ip := alive[|alive| - 1];
      match Dict.Get(prev, ip)
      case Some(r) => Dict.Put(prev, ip, Apply(r, measure(ip)))
      case None => prev
  }

  /**
   * Phase 2 keeps every host's liveness and address, stores under each
   * measured host what its measurement says, and touches no other host.
   */
  lemma {:induction false} MeasuredGet(results: Dict.Dict<string, ScanResult>, alive: seq<string>,
                                       measure: string -> Result<Option<real>, string>, k: string)
    requires Dict.UniqueKeys(results)
    ensures Dict.UniqueKeys(Measured(results, alive, measure))
    ensures Dict.Get(Measured(results, alive, measure), k)
            == match Dict.Get(results, k)
               case None => None
               case Some(r) => if k in alive then Some(Apply(r, measure(k))) else Some(r)
    decreases |alive|
  {
    if alive != [] {
      var front := alive[..|alive| - 1];
      var ip := alive[|alive| - 1];
      var prev := Measured(results, front, measure);
      MeasuredGet(results, front, measure, k);
      MeasuredGet(results, front, measure, ip);
      assert alive == front + [ip];
      if Dict.Get(prev, ip).Some? {
        var r := Dict.Get(prev, ip).value;
        Dict.PutUnique(prev, ip, Apply(r, measure(ip)));
        if k == ip {
          Dict.GetPutSame(prev, ip, Apply(r, measure(ip)));
        } else {
          Dict.GetPutOther(prev, ip, Apply(r, measure(ip)), k);
        }
      }
    }
  }

  // ---------------- the summary of a finished scan ----------------

  /** The addresses whose result is alive (or dead), in map order. */
  function IpsWhere(results: Dict.Dict<string, ScanResult>, alive: bool): (r: seq<string>)
    ensures forall ip :: ip in r <==> exists i | 0 <= i < |results| :: results[i].0 == ip && results[i].1.isAlive == alive
    decreases |results|
  {
    if results == [] then []
    else
      var last := results[|results| - 1];
      IpsWhere(results[..|results| - 1], alive) + (if last.1.isAlive == alive then [last.0] else [])
  }

  /** A latency counted in the overall average: present and non-zero (a truthy float). */
  predicate Truthy(l: Option<real>)
  {
    l.Some? && l.value != 0.0
  }

  /** The truthy latencies of the listed hosts, in list order. */
  function AverageInputs(results: Dict.Dict<string, ScanResult>, ips: seq<string>): (r: seq<real>)
    decreases |ips|
  {
    if ips == [] then []
    else
      var l := Dict.Get(results, ips[|ips| - 1]);
      AverageInputs(results, ips[..|ips| - 1])
      + (if l.Some? && Truthy(l.value.avgLatency) then [l.value.avgLatency.value] else [])
  }

  /** The `latencies` dictionary: every listed host whose latency is not None, zero included. */
  function LatencyMap(results: Dict.Dict<string, ScanResult>, ips: seq<string>): (r: Dict.Dict<string, real>)
    ensures forall i | 0 <= i < |r| :: r[i].0 in ips
    decreases |ips|
  {
    if ips == [] then []
    else
      var ip := ips[|ips| - 1];
      var l := Dict.Get(results, ip);
      var prev := LatencyMap(results, ips[..|ips| - 1]);
      if l.Some? && l.value.avgLatency.Some? then Dict.Put(prev, ip, l.value.avgLatency.value) else prev
  }

  /** The latency recorded for `ip`, when the scan result holds one. */
  function LatencyOf(results: Dict.Dict<string, ScanResult>, ip: string): Option<real>
  {
    var l := Dict.Get(results, ip);
    if l.Some? then l.value.avgLatency else None
  }

  /**
   * The latencies dictionary maps each listed host to its latency exactly when
   * that latency is not None (zero included), and holds no other key.
   */
  lemma {:induction false} LatencyMapGet(results: Dict.Dict<string, ScanResult>, ips: seq<string>)
    ensures Dict.UniqueKeys(LatencyMap(results, ips))
    ensures forall ip :: Dict.Get(LatencyMap(results, ips), ip) == (if ip in ips then LatencyOf(results, ip) else None)
    decreases |ips|
  {
    if ips != [] {
      var ip0 := ips[|ips| - 1];
      var front := ips[..|ips| - 1];
      var l := Dict.Get(results, ip0);
      var prev := LatencyMap(results, front);
      LatencyMapGet(results, front);
      assert ips == front + [ip0];
      if l.Some? && l.value.avgLatency.Some? {
        var v := l.value.avgLatency.value;
        Dict.PutUnique(prev, ip0, v);
        Dict.GetPutSame(prev, ip0, v);
        forall ip | ip != ip0
          ensures Dict.Get(LatencyMap(results, ips), ip) == (if ip in ips then LatencyOf(results, ip) else None)
        {
          Dict.GetPutOther(prev, ip0, v, ip);
        }
      }
    } else {
      forall ip ensures Dict.Get(LatencyMap(results, ips), ip) == None {
        assert !Dict.HasKey(LatencyMap(results, ips), ip);
      }
    }
  }

  /** The average's inputs are exactly the truthy latencies of the listed hosts. */
  lemma {:induction false} AverageInputsMembers(results: Dict.Dict<string, ScanResult>, ips: seq<string>)
    ensures forall x :: x in AverageInputs(results, ips) <==>
      exists ip | ip in ips :: Truthy(LatencyOf(results, ip)) && LatencyOf(results, ip).value == x
    decreases |ips|
  {
    if ips != [] {
      var ip0 := ips[|ips| - 1];
      var front := ips[..|ips| - 1];
      AverageInputsMembers(results, front);
      assert ips == front + [ip0];
      forall x | x in AverageInputs(results, ips)
        ensures exists ip | ip in ips :: Truthy(LatencyOf(results, ip)) && LatencyOf(results, ip).value == x
      {
        if x !in AverageInputs(results, front) {
          assert ip0 in ips && Truthy(LatencyOf(results, ip0)) && LatencyOf(results, ip0).value == x;
        }
      }
      forall x | exists ip | ip in ips :: Truthy(LatencyOf(results, ip)) && LatencyOf(results, ip).value == x
        ensures x in AverageInputs(results, ips)
      {
        var ip :| ip in ips && Truthy(LatencyOf(results, ip)) && LatencyOf(results, ip).value == x;
        if ip != ip0 {
          assert ip in front;
        }
      }
    }
  }

  datatype Report = Report(
    total: int,
    alive: int,
    dead: int,
    alivePercent: real,
    deadPercent: real,
    avgLatencyMs: real,
    scanDurationSeconds: real,
    aliveHosts: seq<string>,
    deadHosts: seq<string>,
    latencies: Dict.Dict<string, real>)

  /** get_summary */
  function SummaryOf(results: Dict.Dict<string, ScanResult>, summary: ScanSummary): (r: Report)
    ensures forall ip :: ip in r.aliveHosts || ip in r.deadHosts <==> Dict.HasKey(results, ip)
    ensures forall i | 0 <= i < |r.latencies| :: r.latencies[i].0 in r.aliveHosts
    ensures r.total == summary.totalHosts && r.alive == summary.aliveHosts && r.dead == summary.deadHosts
    ensures forall ip :: ip in r.aliveHosts <==> exists i | 0 <= i < |results| :: results[i].0 == ip && results[i].1.isAlive
    ensures forall ip :: Dict.Get(r.latencies, ip) == (if ip in r.aliveHosts then LatencyOf(results, ip) else None)
    ensures Dict.UniqueKeys(r.latencies)
    ensures var inputs := AverageInputs(results, r.aliveHosts);
      (inputs == [] ==> r.avgLatencyMs == 0.0)
      && (inputs != [] ==> r.avgLatencyMs == Decimal.Round2(Sum(inputs) / (|inputs| as real)))
    ensures r.alivePercent == AlivePercent(summary) && r.deadPercent == DeadPercent(summary)
    ensures r.scanDurationSeconds == Decimal.Round2(summary.scanDuration)
  {
    var alive := IpsWhere(results, true);
    LatencyMapGet(results, alive);
    Decimal.RoundExact(0);
    var dead := IpsWhere(results, false);
    var inputs := AverageInputs(results, alive);
    var avg := if inputs != [] then Sum(inputs) / (|inputs| as real) else 0.0;
    Report(summary.totalHosts, summary.aliveHosts, summary.deadHosts, AlivePercent(summary), DeadPercent(summary),
           Decimal.Round2(avg), Decimal.Round2(summary.scanDuration), alive, dead, LatencyMap(results, alive))
  }

  // ---------------- the progress counter ----------------

  class ProgressTracker {
    const total: int
    var completed: int

    constructor (total: int)
      ensures this.total == total && completed == 0
    {
      this.total := total;
      completed := 0;
    }

    /** update(count) */
    method Update(count: int)
      modifies this
      ensures completed == old(completed) + count
    {
      completed := completed + count;
    }

    /** The percentage get_stats reports: completed / total * 100, or 0 without hosts. */
    function Percent(): (r: real)
      reads this
      ensures total <= 0 ==> r == 0.0
      ensures total > 0 ==> r * (total as real) == (completed as real) * 100.0
    {
      if total > 0 then (completed as real) / (total as real) * 100.0 else 0.0
    }
  }

  // ---------------- the scanner ----------------

  class PingScanner {
    var results: Dict.Dict<string, ScanResult>
    var summary: ScanSummary
    var progress: ProgressTracker?

    predicate Valid()
      reads this
    {
      Dict.UniqueKeys(results)
    }

    constructor ()
      ensures Valid() && results == [] && summary == ScanSummary(0, 0, 0, 0.0) && progress == null
    {
      results := [];
      summary := ScanSummary(0, 0, 0, 0.0);
      progress := null;
    }

    /**
     * _check_availability: every host gets a phase-1 record; the hosts
     * found alive are returned in input order; each host that did not raise
     * advances the progress counter.
     */
    method CheckAvailability(ips: seq<string>, ping: string -> Sample) returns (alive: seq<string>)
      requires Valid()
      modifies this, progress
      ensures Valid() && progress == old(progress) && summary == old(summary)
      ensures results == Dict.PutEach(old(results), ips, ip => Phase1Result(ip, ping(ip)))
      ensures alive == AliveOf(ips, ping)
      ensures progress != null ==> progress.completed == old(progress.completed) + Answered(ips, ping)
    {
      alive := [];
      var tracker := progress;
      var i := 0;
      while i < |ips|
        invariant 0 <= i <= |ips|
        invariant progress == tracker && summary == old(summary)
        invariant results == Phase1Records(old(results), ips[..i], ping)
        invariant alive == AliveOf(ips[..i], ping)
        invariant tracker != null ==> tracker.completed == old(tracker.completed) + Answered(ips[..i], ping)
      {
        var ip := ips[i];
        var outcome := ping(ip);
        PhaseOneStep(old(results), ips, i, ping);
        RecordHost(ip, outcome, tracker);
        if Alive(outcome) {
          alive := alive + [ip];
        }
        i := i + 1;
      }
      assert ips[..i] == ips;
      Phase1RecordsEach(old(results), ips, ping);
      Dict.PutEachUnique(old(results), ips, ip => Phase1Result(ip, ping(ip)));
    }

    /** One host of the phase-1 loop: its record is stored, and the counter advances when the ping did not raise. */
    method RecordHost(ip: string, outcome: Sample, tracker: ProgressTracker?)
      modifies this, tracker
      ensures results == Dict.Put(old(results), ip, Phase1Result(ip, outcome))
      ensures progress == old(progress) && summary == old(summary)
      ensures tracker != null ==> tracker.completed == old(tracker.completed) + (if outcome.Success? then 1 else 0)
    {
      results := Dict.Put(results, ip, Phase1Result(ip, outcome));
      if outcome.Success? && tracker != null {
        tracker.Update(1);
      }
    }

    /** _measure_latencies: each alive host's measurement is applied to its record. */
    method MeasureLatencies(alive: seq<string>, measure: string -> Result<Option<real>, string>)
      requires Valid()
      requires forall ip | ip in alive :: Dict.HasKey(results, ip)
      modifies this
      ensures Valid() && progress == old(progress) && summary == old(summary)
      ensures results == Measured(old(results), alive, measure)
    {
      var i := 0;
      while i < |alive|
        invariant 0 <= i <= |alive|
        invariant progress == old(progress) && summary == old(summary)
        invariant results == Measured(old(results), alive[..i], measure)
        invariant Valid()
      {
        var ip := alive[i];
        MeasuredGet(old(results), alive[..i], measure, ip);
        assert alive[..i + 1][..i] == alive[..i];
        var r := Dict.Get(results, ip).value;
        Dict.PutUnique(results, ip, Apply(r, measure(ip)));
        match measure(ip) {
          case Failure(e) =>
            results := Dict.Put(results, ip, r.(lastError := Some(e)));
          case Success(l) =>
            if l.Some? {
              results := Dict.Put(results, ip, r.(avgLatency := l));
            }
        }
        i := i + 1;
      }
      assert alive[..i] == alive;
    }

    /**
     * scan_hosts: phase 1 over every address, phase 2 over the alive ones,
     * then the summary counts; `elapsed` is the clock's measure of the scan.
     */
    method ScanHosts(ips: seq<string>, ping: string -> Sample, measure: string -> Result<Option<real>, string>,
                     elapsed: real)
      returns (r: Dict.Dict<string, ScanResult>)
      requires Valid()
      modifies this
      ensures Valid() && r == results
      ensures results == Measured(Dict.PutEach(old(results), ips, ip => Phase1Result(ip, ping(ip))),
                                  AliveOf(ips, ping), measure)
      ensures summary.totalHosts == |ips| && summary.aliveHosts == |AliveOf(ips, ping)|
      ensures summary.deadHosts == summary.totalHosts - summary.aliveHosts
      ensures progress != null && fresh(progress) && progress.completed == Answered(ips, ping)
      ensures progress.total == |ips| && summary.scanDuration == elapsed
    {
      summary := summary.(totalHosts := |ips|);
      progress := new ProgressTracker(|ips|);
      var alive := CheckAvailability(ips, ping);
      forall ip | ip in alive
        ensures Dict.HasKey(results, ip)
      {
        AliveOfMembers(ips, ping, ip);
        Dict.PutEachGet(old(results), ips, ip => Phase1Result(ip, ping(ip)), ip);
      }
      MeasureLatencies(alive, measure);
      summary := summary.(scanDuration := elapsed, aliveHosts := |alive|);
      summary := summary.(deadHosts := summary.totalHosts - summary.aliveHosts);
      return results;
    }

    /** get_summary */
    function GetSummary(): (r: Report)
      reads this
      ensures forall ip :: ip in r.aliveHosts || ip in r.deadHosts <==> Dict.HasKey(results, ip)
      ensures forall ip :: ip in r.aliveHosts <==> exists i | 0 <= i < |results| :: results[i].0 == ip && results[i].1.isAlive
      ensures forall ip :: Dict.Get(r.latencies, ip) == (if ip in r.aliveHosts then LatencyOf(results, ip) else None)
      ensures var inputs := AverageInputs(results, r.aliveHosts);
        (inputs == [] ==> r.avgLatencyMs == 0.0)
        && (inputs != [] ==> r.avgLatencyMs == Decimal.Round2(Sum(inputs) / (|inputs| as real)))
      ensures r.total == summary.totalHosts && r.alive == summary.aliveHosts && r.dead == summary.deadHosts
      ensures r.alivePercent == AlivePercent(summary) && r.deadPercent == DeadPercent(summary)
      ensures r.scanDurationSeconds == Decimal.Round2(summary.scanDuration)
      ensures r == SummaryOf(results, summary)
    {
      SummaryOf(results, summary)
    }
  }

  /**
   * After a scan every input address has a record, and a record is alive
   * exactly when that host's ping succeeded: phase 2 changes no liveness.
   */
  lemma ScanLiveness(before: Dict.Dict<string, ScanResult>, ips: seq<string>, ping: string -> Sample,
                     measure: string -> Result<Option<real>, string>, ip: string)
    requires Dict.UniqueKeys(before) && ip in ips
    ensures var after := Measured(Dict.PutEach(before, ips, x => Phase1Result(x, ping(x))), AliveOf(ips, ping), measure);
            Dict.Get(after, ip).Some? && (Dict.Get(after, ip).value.isAlive <==> Alive(ping(ip)))
            && (!Alive(ping(ip)) ==> Dict.Get(after, ip).value == Phase1Result(ip, ping(ip)))
  {
    var f := x => Phase1Result(x, ping(x));
    Dict.PutEachGet(before, ips, f, ip);
    Dict.PutEachUnique(before, ips, f);
    AliveOfMembers(ips, ping, ip);
    MeasuredGet(Dict.PutEach(before, ips, f), AliveOf(ips, ping), measure, ip);
  }
}
