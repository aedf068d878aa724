/**
 * The alert service: the comparison of two snapshots into resolved,
 * unresolved and new alerts, the fetch step (decode every feed entity that
 * carries an alert, then drop near-duplicate descriptions), and the polling
 * loop, which keeps the last snapshot it fetched successfully and retries
 * after a minute when a fetch fails.
 */
module Fetcher {
  import opened Options
  import opened AlertModel
  import opened Filter

  // ---------------------------------------------------------------------
  // compare_alerts
  // ---------------------------------------------------------------------

  /** The three lists `compare_alerts` returns, as the sets they are built from. */
  datatype Partition = Partition(resolved: set<Alert>, unresolved: set<Alert>, added: set<Alert>)

  /** Python's `set(alerts)`. */
  function Elements(s: seq<Alert>): set<Alert>
  {
    set a | a in s
  }

  /**
   * `compare_alerts(previous, current)`: what was there and is gone, what is
   * still there, and what is new. The three parts are pairwise disjoint;
   * still-there and new make up the current snapshot, still-there and gone
   * the previous one.
   */
  function CompareAlerts(previous: seq<Alert>, current: seq<Alert>): (p: Partition)
    ensures forall a :: a in p.resolved <==> a in previous && a !in current
    ensures forall a :: a in p.unresolved <==> a in previous && a in current
    ensures forall a :: a in p.added <==> a in current && a !in previous
    ensures p.resolved !! p.unresolved && p.resolved !! p.added && p.unresolved !! p.added
    ensures p.unresolved + p.added == Elements(current)
    ensures p.unresolved + p.resolved == Elements(previous)
  {
    var prev, cur := Elements(previous), Elements(current);
    Partition(prev - cur, prev * cur, cur - prev)
  }

  /** Every distinct previous alert is counted once, as gone or as still there; likewise every current one. */
  lemma PartitionSizes(previous: seq<Alert>, current: seq<Alert>)
    ensures var p := CompareAlerts(previous, current);
      |p.resolved| + |p.unresolved| == |Elements(previous)| &&
      |p.unresolved| + |p.added| == |Elements(current)|
  {
    var p := CompareAlerts(previous, current);
    assert |p.resolved + p.unresolved| == |p.resolved| + |p.unresolved| by {
      assert p.resolved * p.unresolved == {};
    }
    assert |p.unresolved + p.added| == |p.unresolved| + |p.added| by {
      assert p.unresolved * p.added == {};
    }
  }

  /** On the first cycle there is no previous snapshot: everything is new. */
  lemma FirstCycleAllNew(current: seq<Alert>)
    ensures CompareAlerts([], current) == Partition({}, {}, Elements(current))
  {
  }

  /** Comparing a snapshot with itself: nothing is gone, nothing is new. */
  lemma UnchangedSnapshot(s: seq<Alert>)
    ensures CompareAlerts(s, s) == Partition({}, Elements(s), {})
  {
  }

  // ---------------------------------------------------------------------
  // get_alerts, after the feed has been decoded
  // ---------------------------------------------------------------------

  /**
   * The `alert` object of a decoded feed entity, with the four values the
   * alert record reads from it (the first header translation's text, the
   * first description translation's text, the cause, the effect), each of
   * which may be missing.
   */
  datatype RawAlert = RawAlert(header: Option<string>, description: Option<string>,
                               cause: Option<string>, effect: Option<string>)

  /** A decoded feed entity: `None` when it carries no alert or an empty one. */
  datatype Entity = Entity(alert: Option<RawAlert>)

  /** All four values the record needs are present. */
  predicate Complete(raw: RawAlert)
  {
    raw.header.Some? && raw.description.Some? && raw.cause.Some? && raw.effect.Some?
  }

  /** The record built from a complete raw alert. */
  function ToAlert(raw: RawAlert): Alert
    requires Complete(raw)
  {
    MakeAlert(raw.header.value, raw.description.value, raw.cause.value, raw.effect.value)
  }

  /**
   * The decoding loop: one record per entity with an alert, in entity order;
   * `None` when some alert lacks one of the four values, since building its
   * record raises and nothing is returned.
   */
  function DecodeAll(es: seq<Entity>): Option<seq<Alert>>
    decreases |es|
  {
    if es == [] then Some([])
    else
      var prev, e := DecodeAll(es[..|es| - 1]), es[|es| - 1].alert;
      if prev.None? then None
      else if e.None? then prev
      else if Complete(e.value) then Some(prev.value + [ToAlert(e.value)])
      else None
  }

  /** The entity carries no alert, or one that is complete. */
  predicate Decodable(e: Entity)
  {
    e.alert.Some? ==> Complete(e.alert.value)
  }

  /** Alert `x` is the record built from entity `i`. */
  predicate DecodedFrom(x: Alert, es: seq<Entity>, i: int)
  {
    0 <= i < |es| && es[i].alert.Some? && Complete(es[i].alert.value) && x == ToAlert(es[i].alert.value)
  }

  /** Decoding succeeds exactly when every alert the feed carries is complete. */
  lemma {:induction false} DecodeAllSucceeds(es: seq<Entity>)
    ensures DecodeAll(es).Some? <==> forall i :: 0 <= i < |es| ==> Decodable(es[i])
    decreases |es|
  {
    if es != [] {
      var es' := es[..|es| - 1];
      DecodeAllSucceeds(es');
      assert (forall i :: 0 <= i < |es| ==> Decodable(es[i]))
         <==> (forall i :: 0 <= i < |es'| ==> Decodable(es'[i])) && Decodable(es[|es| - 1]) by {
        assert forall i :: 0 <= i < |es'| ==> es'[i] == es[i];
      }
    }
  }

  /** The raw alerts the feed carries, in entity order. */
  function Carried(es: seq<Entity>): (r: seq<RawAlert>)
    ensures |r| <= |es|
    decreases |es|
  {
    if es == [] then []
    else
      var prev, e := Carried(es[..|es| - 1]), es[|es| - 1].alert;
      if e.Some? then prev + [e.value] else prev
  }

  /** Every raw alert of `raws` is complete. */
  predicate AllComplete(raws: seq<RawAlert>)
  {
    forall k :: 0 <= k < |raws| ==> Complete(raws[k])
  }

  /** The record of each raw alert, position by position. */
  function ToAlerts(raws: seq<RawAlert>): (r: seq<Alert>)
    requires AllComplete(raws)
    ensures |r| == |raws|
    decreases |raws|
  {
    if raws == [] then []
    else
      var init := raws[..|raws| - 1];
      assert forall k :: 0 <= k < |init| ==> init[k] == raws[k];
      ToAlerts(init) + [ToAlert(raws[|raws| - 1])]
  }

  lemma ToAlertsSnoc(raws: seq<RawAlert>, x: RawAlert)
    requires AllComplete(raws) && Complete(x)
    ensures AllComplete(raws + [x]) && ToAlerts(raws + [x]) == ToAlerts(raws) + [ToAlert(x)]
  {
    var t := raws + [x];
    forall k | 0 <= k < |t| ensures Complete(t[k]) {
      if k < |raws| { assert t[k] == raws[k]; }
    }
    assert t[..|t| - 1] == raws;
  }

  /**
   * A reference definition of the decoding loop: it succeeds exactly when
   * every alert the feed carries is complete, and then yields their records
   * in entity order.
   */
  lemma {:induction false} DecodeAllIsToAlerts(es: seq<Entity>)
    ensures DecodeAll(es).Some? <==> AllComplete(Carried(es))
    ensures DecodeAll(es).Some? ==> DecodeAll(es).value == ToAlerts(Carried(es))
    decreases |es|
  {
    if es != [] {
      var es', e := es[..|es| - 1], es[|es| - 1].alert;
      DecodeAllIsToAlerts(es');
      var c := Carried(es');
      if e.Some? {
        assert Carried(es) == c + [e.value];
        if AllComplete(c) && Complete(e.value) {
          ToAlertsSnoc(c, e.value);
        } else if !Complete(e.value) {
          assert (c + [e.value])[|c|] == e.value;
        } else {
          var k :| 0 <= k < |c| && !Complete(c[k]);
          assert (c + [e.value])[k] == c[k];
        }
      }
    }
  }

  /** Once a prefix of the feed fails to decode, the whole feed does. */
  lemma {:induction false} DecodeAllFailurePersists(es: seq<Entity>, m: nat)
    requires m <= |es| && DecodeAll(es[..m]).None?
    ensures DecodeAll(es).None?
    decreases |es|
  {
    if m < |es| {
      var es' := es[..|es| - 1];
      assert es'[..m] == es[..m];
      DecodeAllFailurePersists(es', m);
    } else {
      assert es[..m] == es;
    }
  }

  /** What `get_alerts` returns once the feed is decoded: the description-deduplicated records, or `None` when it raises. */
  function FetchedAlerts(es: seq<Entity>): Option<seq<Alert>>
  {
    match DecodeAll(es)
    case None => None
    case Some(xs) => Some(Filtered(xs, Description))
  }

  /**
   * A successful fetch returns input records, sorted by decreasing
   * description length, no two of whose descriptions lie inside each other,
   * and covering the description of every record decoded.
   */
  lemma FetchedAlertsProperties(es: seq<Entity>)
    requires FetchedAlerts(es).Some?
    ensures var xs, r := DecodeAll(es).value, FetchedAlerts(es).value;
      multiset(r) <= multiset(xs) && Descending(r, Description) && NoContainment(r, Description) &&
      (forall i :: 0 <= i < |xs| ==> Covered(xs[i], r, Description))
  {
    FilteredProperties(DecodeAll(es).value, Description);
  }

  /**
   * `get_alerts` from the decoded feed on: build a record per entity that
   * carries an alert, then filter near-duplicate descriptions.
   */
  method GetAlerts(entities: seq<Entity>) returns (alerts: Option<seq<Alert>>)
    ensures alerts == FetchedAlerts(entities)
    ensures alerts.Some? ==> NoContainment(alerts.value, Description) && Descending(alerts.value, Description)
  {
    var decoded: seq<Alert> := [];
    for i := 0 to |entities|
      invariant DecodeAll(entities[..i]) == Some(decoded)
    {
      assert entities[..i + 1][..i] == entities[..i];
      var alert := entities[i].alert;
      if alert.Some? {
        if !Complete(alert.value) {
          DecodeAllFailurePersists(entities, i + 1);
          return None;
        }
        decoded := decoded + [ToAlert(alert.value)];
      }
    }
    assert entities[..|entities|] == entities;
    var result := FilterDuplicates(decoded, Description);
    alerts := Some(result);
  }

  // ---------------------------------------------------------------------
  // monitor_alerts
  // ---------------------------------------------------------------------

  /** What one call of `get_alerts` does inside the loop: return alerts, raise, or get interrupted. */
  datatype FetchResult = Returned(alerts: seq<Alert>) | Raised | FetchInterrupted

  /** One turn of the polling loop: how its fetch ends, and whether an interrupt arrives during the wait that follows. */
  datatype Cycle = Cycle(fetch: FetchResult, interruptedInWait: bool)

  /** What a cycle reports: a comparison and the wait after it, or an exception and the retry wait. */
  datatype Report = Compared(partition: Partition, wait: nat) | Retried(wait: nat)

  /** Why the loop stops: the interrupt is caught and the loop left, or the interrupt propagates; or the modelled input ran out. */
  datatype Ending = StoppedByUser | InterruptEscaped | InputExhausted

  /** What one cycle does: its report (if any), the snapshot it keeps, and whether it ends the loop. */
  datatype Outcome = Outcome(report: Option<Report>, next: seq<Alert>, stop: Option<Ending>)

  /** The wait of the exception handler, in seconds. */
  const RetryWait: nat := 60

  /**
   * The wait after a successful comparison: `interval_minutes * 60` seconds;
   * `time.sleep` rejects a negative length, so a negative interval lands in
   * the exception handler's 60 seconds instead.
   */
  function SuccessWait(interval: int): (w: nat)
    ensures interval >= 0 ==> w == interval * 60
    ensures interval < 0 ==> w == RetryWait
  {
    if interval >= 0 then interval * 60 else RetryWait
  }

  /** The cycle ends the loop: an interrupt arrives during its fetch or during its wait. */
  predicate Stops(c: Cycle)
  {
    c.fetch.FetchInterrupted? || c.interruptedInWait
  }

  /** How a stopping cycle ends the loop: inside the `try` the interrupt is caught, inside the handler's wait it escapes. */
  function EndingOf(interval: int, c: Cycle): Ending
  {
    if c.fetch.FetchInterrupted? then StoppedByUser
    else if c.fetch.Returned? && interval >= 0 then StoppedByUser
    else InterruptEscaped
  }

  /** The report a cycle whose fetch was not interrupted logs, given the snapshot it starts from. */
  function ReportFor(previous: seq<Alert>, interval: int, c: Cycle): Report
  {
    if c.fetch.Returned? then Compared(CompareAlerts(previous, c.fetch.alerts), SuccessWait(interval))
    else Retried(RetryWait)
  }

  /**
   * One turn of the `while True` loop from snapshot `current`: a successful
   * fetch is compared against it and replaces it, a failed one leaves it
   * alone, and an interrupt anywhere ends the loop.
   */
  function Step(current: seq<Alert>, interval: int, c: Cycle): Outcome
  {
    match c.fetch
    case FetchInterrupted => Outcome(None, current, Some(StoppedByUser))
    case Raised =>
      Outcome(Some(Retried(RetryWait)), current, if c.interruptedInWait then Some(InterruptEscaped) else None)
    case Returned(xs) =>
      var stop := if !c.interruptedInWait then None
                  else if interval >= 0 then Some(StoppedByUser) else Some(InterruptEscaped);
      Outcome(Some(Compared(CompareAlerts(current, xs), SuccessWait(interval))), xs, stop)
  }

  /**
   * A cycle logs a report unless its fetch is interrupted, compares against
   * the snapshot it starts from, keeps the alerts it fetched (or the old
   * snapshot when the fetch raised), and ends the loop exactly when an
   * interrupt arrives, in the way that interrupt's place decides.
   */
  lemma StepSummary(current: seq<Alert>, interval: int, c: Cycle)
    ensures var o := Step(current, interval, c);
      (o.report.None? <==> c.fetch.FetchInterrupted?) &&
      (o.report.Some? ==> o.report.value == ReportFor(current, interval, c)) &&
      o.next == (if c.fetch.Returned? then c.fetch.alerts else current) &&
      (o.stop.Some? <==> Stops(c)) &&
      (o.stop.Some? ==> o.stop.value == EndingOf(interval, c))
  {
  }

  /** The loop's reports in order, how it ended, and the snapshot it held at the end. */
  datatype Trace = Trace(reports: seq<Report>, ending: Ending, last: seq<Alert>)

  /** Reports `rs` logged before the run `t`. */
  function Prepend(rs: seq<Report>, t: Trace): Trace
  {
    Trace(rs + t.reports, t.ending, t.last)
  }

  /** The loop run over `cycles` from snapshot `current`, stopping at the first cycle that stops it. */
  function Run(current: seq<Alert>, interval: int, cycles: seq<Cycle>): Trace
    decreases |cycles|
  {
    if cycles == [] then Trace([], InputExhausted, current)
    else
      var o := Step(current, interval, cycles[0]);
      var here := if o.report.Some? then [o.report.value] else [];
      if o.stop.Some? then Trace(here, o.stop.value, o.next)
      else Prepend(here, Run(o.next, interval, cycles[1..]))
  }

  /** The last snapshot fetched successfully in `cycles`, or `current` when none was. */
  function LastFetched(current: seq<Alert>, cycles: seq<Cycle>): seq<Alert>
    decreases |cycles|
  {
    if cycles == [] then current
    else if cycles[|cycles| - 1].fetch.Returned? then cycles[|cycles| - 1].fetch.alerts
    else LastFetched(current, cycles[..|cycles| - 1])
  }

  /** Failed cycles, however many, leave the snapshot as the last successful fetch set it. */
  lemma {:induction false} FailuresKeepSnapshot(current: seq<Alert>, cycles: seq<Cycle>, failed: seq<Cycle>)
    requires forall j :: 0 <= j < |failed| ==> !failed[j].fetch.Returned?
    ensures LastFetched(current, cycles + failed) == LastFetched(current, cycles)
    decreases |failed|
  {
    if failed == [] {
      assert cycles + failed == cycles;
    } else {
      var failed' := failed[..|failed| - 1];
      assert (cycles + failed)[..|cycles + failed| - 1] == cycles + failed';
      FailuresKeepSnapshot(current, cycles, failed');
    }
  }

  /** Starting from the first cycle's snapshot and going on from there gives the same snapshot. */
  lemma {:induction false} LastFetchedFirst(current: seq<Alert>, c: Cycle, cycles: seq<Cycle>)
    ensures LastFetched(current, [c] + cycles) == LastFetched(LastFetched(current, [c]), cycles)
    decreases |cycles|
  {
    var all := [c] + cycles;
    if cycles == [] {
      assert all == [c];
    } else {
      var cycles' := cycles[..|cycles| - 1];
      assert all[..|all| - 1] == [c] + cycles' && all[|all| - 1] == cycles[|cycles| - 1];
      LastFetchedFirst(current, c, cycles');
    }
  }

  /** The run over `cycles` is the first cycle's outcome followed, unless it stops, by the run over the rest. */
  lemma RunFirst(current: seq<Alert>, interval: int, cycles: seq<Cycle>)
    requires cycles != []
    ensures var o := Step(current, interval, cycles[0]);
      LastFetched(current, [cycles[0]]) == o.next &&
      cycles == [cycles[0]] + cycles[1..] &&
      Run(current, interval, cycles) == if o.stop.Some? then Trace(if o.report.Some? then [o.report.value] else [], o.stop.value, o.next) else Prepend(if o.report.Some? then [o.report.value] else [], Run(o.next, interval, cycles[1..]))
  {
    assert [cycles[0]][..0] == [];
  }

  /**
   * Each cycle before the first that stops is compared against the last
   * successful snapshot before it (the empty list on the first cycle), and
   * its report is the `k`-th one the loop logs.
   */
  lemma {:induction false} RunReportAt(current: seq<Alert>, interval: int, cycles: seq<Cycle>, k: nat)
    requires k < |cycles| && !cycles[k].fetch.FetchInterrupted?
    requires forall j :: 0 <= j < k ==> !Stops(cycles[j])
    ensures k < |Run(current, interval, cycles).reports|
    ensures Run(current, interval, cycles).reports[k] == ReportFor(LastFetched(current, cycles[..k]), interval, cycles[k])
    decreases k
  {
    var c, rest := cycles[0], cycles[1..];
    var o := Step(current, interval, c);
    RunFirst(current, interval, cycles);
    StepSummary(current, interval, c);
    if k > 0 {
      assert !Stops(c);
      assert rest[k - 1] == cycles[k];
      assert forall j :: 0 <= j < k - 1 ==> rest[j] == cycles[j + 1];
      RunReportAt(o.next, interval, rest, k - 1);
      assert cycles[..k] == [c] + rest[..k - 1];
      LastFetchedFirst(current, c, rest[..k - 1]);
    } else {
      assert cycles[..0] == [];
    }
  }

  /**
   * The first cycle that stops ends the loop: the ending is the one that
   * cycle's interrupt produces, the loop has logged one report per cycle
   * before it plus that cycle's own unless its fetch was interrupted, and the
   * snapshot is the last successful fetch up to that cycle.
   */
  lemma {:induction false} RunEndsAt(current: seq<Alert>, interval: int, cycles: seq<Cycle>, k: nat)
    requires k < |cycles| && Stops(cycles[k])
    requires forall j :: 0 <= j < k ==> !Stops(cycles[j])
    ensures Run(current, interval, cycles).ending == EndingOf(interval, cycles[k])
    ensures |Run(current, interval, cycles).reports| == if cycles[k].fetch.FetchInterrupted? then k else k + 1
    ensures Run(current, interval, cycles).last == LastFetched(current, cycles[..k + 1])
    decreases k
  {
    var c, rest := cycles[0], cycles[1..];
    var o := Step(current, interval, c);
    RunFirst(current, interval, cycles);
    StepSummary(current, interval, c);
    if k > 0 {
      assert !Stops(c);
      assert rest[k - 1] == cycles[k];
      assert forall j :: 0 <= j < k - 1 ==> rest[j] == cycles[j + 1];
      RunEndsAt(o.next, interval, rest, k - 1);
      assert cycles[..k + 1] == [c] + rest[..k];
      LastFetchedFirst(current, c, rest[..k]);
    } else {
      assert cycles[..1] == [c];
    }
  }

  /** Without an interrupt the loop runs every cycle, logs one report each, and keeps the last successful fetch. */
  lemma {:induction false} RunWithoutInterrupt(current: seq<Alert>, interval: int, cycles: seq<Cycle>)
    requires forall j :: 0 <= j < |cycles| ==> !Stops(cycles[j])
    ensures Run(current, interval, cycles).ending == InputExhausted
    ensures |Run(current, interval, cycles).reports| == |cycles|
    ensures Run(current, interval, cycles).last == LastFetched(current, cycles)
    decreases |cycles|
  {
    if cycles != [] {
      var c, rest := cycles[0], cycles[1..];
      var o := Step(current, interval, c);
      RunFirst(current, interval, cycles);
      StepSummary(current, interval, c);
      assert !Stops(c);
      assert forall j :: 0 <= j < |rest| ==> rest[j] == cycles[j + 1];
      RunWithoutInterrupt(o.next, interval, rest);
      LastFetchedFirst(current, c, rest);
    }
  }

  /**
   * How the fetch and decoding of the feed end in one call of `get_alerts`:
   * the decoded entities, an exception (a failed request, or a body that
   * `ParseFromString` rejects), or an interrupt.
   */
  datatype FeedFetch = Received(entities: seq<Entity>) | FetchRaised | Interrupted

  /** A turn of the loop as its input arrives: the feed fetch, and whether an interrupt arrives during the wait. */
  datatype Poll = Poll(feed: FeedFetch, interruptedInWait: bool)

  /** The cycle a poll amounts to: a decoded feed yields what `get_alerts` yields from it, a failure raises. */
  function CycleOf(p: Poll): Cycle
  {
    match p.feed
    case Interrupted => Cycle(FetchInterrupted, p.interruptedInWait)
    case FetchRaised => Cycle(Raised, p.interruptedInWait)
    case Received(es) =>
      match FetchedAlerts(es)
      case None => Cycle(Raised, p.interruptedInWait)
      case Some(xs) => Cycle(Returned(xs), p.interruptedInWait)
  }

  /** The cycles a run of polls amounts to. */
  function CyclesOf(polls: seq<Poll>): (cs: seq<Cycle>)
    ensures |cs| == |polls| && forall i :: 0 <= i < |polls| ==> cs[i] == CycleOf(polls[i])
  {
    seq(|polls|, i requires 0 <= i < |polls| => CycleOf(polls[i]))
  }

  /**
   * `monitor_alerts(interval_minutes)` over a finite run of polls: start
   * from an empty snapshot and run the loop body until a cycle stops the
   * loop or the polls run out.
   */
  method MonitorAlerts(interval: int, polls: seq<Poll>) returns (reports: seq<Report>, ending: Ending, current: seq<Alert>)
    ensures Trace(reports, ending, current) == Run([], interval, CyclesOf(polls))
  {
    ghost var cycles := CyclesOf(polls);
    reports, current := [], [];
    var i := 0;
    while i < |polls|
      invariant 0 <= i <= |polls|
      invariant Run([], interval, cycles) == Prepend(reports, Run(current, interval, cycles[i..]))
    {
      RunFirst(current, interval, cycles[i..]);
      assert cycles[i..][0] == CycleOf(polls[i]) && cycles[i..][1..] == cycles[i + 1..];
      ghost var before := reports;
      var report, next, stop := PollOnce(current, interval, polls[i]);
      var here := if report.Some? then [report.value] else [];
      reports, current := reports + here, next;
      if stop.Some? {
        ending := stop.value;
        return;
      }
      PrependPrepend(before, here, Run(current, interval, cycles[i + 1..]));
      i := i + 1;
    }
    ending := InputExhausted;
  }

  /**
   * The body of the loop: keep the old snapshot as `previous`, fetch, compare
   * and wait; on an exception log it and wait a minute; on an interrupt stop.
   */
  method PollOnce(current: seq<Alert>, interval: int, p: Poll) returns (report: Option<Report>, next: seq<Alert>, stop: Option<Ending>)
    ensures Outcome(report, next, stop) == Step(current, interval, CycleOf(p))
  {
    var previous := current;
    next := current;
    if p.feed.Interrupted? {
      // the interrupt arrives inside the `try` and is caught there
      return None, next, Some(StoppedByUser);
    }
    var fetched: Option<seq<Alert>> := None;
    if p.feed.Received? {
      fetched := GetAlerts(p.feed.entities);
    }
    stop := None;
    if fetched.Some? {
      next := fetched.value;
      var alerts := CompareAlerts(previous, next);
      if interval >= 0 {
        report := Some(Compared(alerts, interval * 60));
        if p.interruptedInWait {
          stop := Some(StoppedByUser);
        }
      } else {
        // the negative sleep raises, and the handler waits instead
        report := Some(Compared(alerts, RetryWait));
        if p.interruptedInWait {
          stop := Some(InterruptEscaped);
        }
      }
    } else {
      report := Some(Retried(RetryWait));
      if p.interruptedInWait {
        // the interrupt arrives in the handler's wait, outside the `try`
        stop := Some(InterruptEscaped);
      }
    }
  }

  lemma PrependPrepend(a: seq<Report>, b: seq<Report>, t: Trace)
    ensures Prepend(a, Prepend(b, t)) == Prepend(a + b, t)
  {
    assert a + (b + t.reports) == (a + b) + t.reports;
  }
}
