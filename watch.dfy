/**
  The `dev` command: one generation up front, then a loop over the file
  watcher's channel. Each call to `recv_timeout` either delivers a change
  notification, which regenerates the site, times out, which does nothing,
  or finds the channel disconnected, which ends the loop. A regeneration
  that fails is logged and the loop goes on. Notifications are not
  debounced: every one of them regenerates.

  The loop runs for as long as the server does; it is modelled over a
  finite sequence of `recv_timeout` results, one per call.
*/
module Watch {
  import opened Site

  /**
    What one `recv_timeout` call returns. A delivered notification carries
    the sources as the regeneration it triggers finds them; whether the
    watcher sent an event or an error does not matter to the loop.
  */
  datatype Tick = Received(src: Sources) | TimedOut | Disconnected

  /** What the loop reports. */
  datatype LogLine =
    | ChangesDetected
    | RegenerationFailed(error: SiteError)
    | WatchStopped

  /** What a run of the loop does: the files it writes, in order, and what it reports. */
  datatype Session = Session(writes: seq<(string, string)>, log: seq<LogLine>)

  /** The loop over the given `recv_timeout` results. */
  function Listen(ticks: seq<Tick>, libs: Libraries): Session
    decreases |ticks|
  {
    if ticks == [] then Session([], [])
    else match ticks[0]
      case TimedOut => Listen(ticks[1..], libs)
      case Disconnected => Session([], [WatchStopped])
      case Received(src) =>
        var plan := SitePlan(src, libs);
        var rest := Listen(ticks[1..], libs);
        Session(plan.writes + rest.writes,
                [ChangesDetected] + ReportOf(plan.outcome) + rest.log)
  }

  /** What a regeneration reports beyond the change itself: its error, if it failed. */
  function ReportOf(outcome: Outcome): seq<LogLine> {
    if outcome.Failed? then [RegenerationFailed(outcome.error)] else []
  }

  // ---------------------------------------------------------------------
  // Reference definitions

  /** The sources of the notifications delivered before the channel disconnects. */
  function Changes(ticks: seq<Tick>): seq<Sources>
    decreases |ticks|
  {
    if ticks == [] then []
    else match ticks[0]
      case Disconnected => []
      case TimedOut => Changes(ticks[1..])
      case Received(src) => [src] + Changes(ticks[1..])
  }

  /** The writes of one full regeneration per source, one after the other. */
  function RegenerationWrites(changes: seq<Sources>, libs: Libraries): seq<(string, string)>
    decreases |changes|
  {
    if changes == [] then [] else SitePlan(changes[0], libs).writes + RegenerationWrites(changes[1..], libs)
  }

  /** How many times `line` appears in `log`. */
  function Count(log: seq<LogLine>, line: LogLine): nat
    decreases |log|
  {
    if log == [] then 0 else (if log[0] == line then 1 else 0) + Count(log[1..], line)
  }

  /** The results with every timeout dropped. */
  function WithoutTimeouts(ticks: seq<Tick>): seq<Tick>
    decreases |ticks|
  {
    if ticks == [] then []
    else (if ticks[0].TimedOut? then [] else [ticks[0]]) + WithoutTimeouts(ticks[1..])
  }

  lemma {:induction false} CountAppend(a: seq<LogLine>, b: seq<LogLine>, line: LogLine)
    ensures Count(a + b, line) == Count(a, line) + Count(b, line)
    decreases |a|
  {
    if a == [] {
      assert a + b == b;
    } else {
      assert (a + b)[0] == a[0];
      assert (a + b)[1..] == a[1..] + b;
      CountAppend(a[1..], b, line);
    }
  }

  // ---------------------------------------------------------------------
  // Properties of the loop

  /**
    Every notification delivered before a disconnect triggers exactly one
    full regeneration, failed or not, in the order they arrive: the loop
    writes what those regenerations write and reports one change for each.
  */
  lemma {:induction false} OneRegenerationPerChange(ticks: seq<Tick>, libs: Libraries)
    ensures Listen(ticks, libs).writes == RegenerationWrites(Changes(ticks), libs)
    ensures Count(Listen(ticks, libs).log, ChangesDetected) == |Changes(ticks)|
    decreases |ticks|
  {
    if ticks != [] {
      OneRegenerationPerChange(ticks[1..], libs);
      match ticks[0]
      case TimedOut =>
      case Disconnected =>
        assert Count([WatchStopped], ChangesDetected) == 0 + Count([], ChangesDetected);
      case Received(src) =>
        var plan := SitePlan(src, libs);
        var rest := Listen(ticks[1..], libs);
        assert Changes(ticks) == [src] + Changes(ticks[1..]);
        assert ([src] + Changes(ticks[1..]))[1..] == Changes(ticks[1..]);
        CountAppend([ChangesDetected] + ReportOf(plan.outcome), rest.log, ChangesDetected);
        CountAppend([ChangesDetected], ReportOf(plan.outcome), ChangesDetected);
        assert Count(ReportOf(plan.outcome), ChangesDetected) == 0;
        assert Count([ChangesDetected], ChangesDetected) == 1 + Count([], ChangesDetected);
    }
  }

  /** The loop reports that it stopped exactly when the channel disconnected, and then as its last line. */
  lemma {:induction false} StopsOnlyOnDisconnect(ticks: seq<Tick>, libs: Libraries)
    ensures WatchStopped in Listen(ticks, libs).log <==> Disconnected in ticks
    ensures Disconnected in ticks ==> Listen(ticks, libs).log[|Listen(ticks, libs).log| - 1] == WatchStopped
    decreases |ticks|
  {
    if ticks != [] {
      StopsOnlyOnDisconnect(ticks[1..], libs);
      assert ticks == [ticks[0]] + ticks[1..];
      match ticks[0]
      case TimedOut =>
      case Disconnected =>
      case Received(src) =>
        var head := [ChangesDetected] + ReportOf(SitePlan(src, libs).outcome);
        assert WatchStopped !in head;
        var rest := Listen(ticks[1..], libs).log;
        assert Listen(ticks, libs).log == head + rest;
        if Disconnected in ticks[1..] {
          assert (head + rest)[|head + rest| - 1] == rest[|rest| - 1];
        }
    }
  }

  /** Timeouts do nothing: the loop behaves as if they had not happened. */
  lemma {:induction false} TimeoutsAreIgnored(ticks: seq<Tick>, libs: Libraries)
    ensures Listen(WithoutTimeouts(ticks), libs) == Listen(ticks, libs)
    decreases |ticks|
  {
    if ticks != [] {
      TimeoutsAreIgnored(ticks[1..], libs);
      var rest := WithoutTimeouts(ticks[1..]);
      if ticks[0].TimedOut? {
        assert WithoutTimeouts(ticks) == [] + rest;
        assert [] + rest == rest;
      } else {
        assert WithoutTimeouts(ticks) == [ticks[0]] + rest;
        assert ([ticks[0]] + rest)[0] == ticks[0];
        assert ([ticks[0]] + rest)[1..] == rest;
      }
    }
  }

  /** Once the channel disconnects the loop is over: later results have no effect. */
  lemma {:induction false} NothingAfterDisconnect(before: seq<Tick>, after: seq<Tick>, libs: Libraries)
    ensures Listen(before + [Disconnected] + after, libs) == Listen(before + [Disconnected], libs)
    decreases |before|
  {
    if before == [] {
      assert ([] + [Disconnected] + after)[0] == Disconnected;
      assert ([] + [Disconnected])[0] == Disconnected;
    } else {
      NothingAfterDisconnect(before[1..], after, libs);
      assert (before + [Disconnected] + after)[0] == before[0];
      assert (before + [Disconnected] + after)[1..] == before[1..] + [Disconnected] + after;
      assert (before + [Disconnected])[0] == before[0];
      assert (before + [Disconnected])[1..] == before[1..] + [Disconnected];
    }
  }

  /**
    Without debouncing, a burst of notifications regenerates once per
    notification; when nothing changed in between, the second
    regeneration leaves the output exactly as the first left it.
  */
  lemma RepeatedChangeIsHarmless(src: Sources, libs: Libraries, files: map<string, string>)
    ensures Apply(files, Listen([Received(src), Received(src)], libs).writes)
         == Apply(files, Listen([Received(src)], libs).writes)
  {
    var w := SitePlan(src, libs).writes;
    assert [Received(src), Received(src)][1..] == [Received(src)];
    assert [Received(src)][1..] == [];
    assert Listen([Received(src)], libs).writes == w + [];
    assert w + [] == w;
    assert Listen([Received(src), Received(src)], libs).writes == w + (w + []);
    ApplyAppend(files, w, w);
    RegenerationIsIdempotent(src, libs, files);
  }

  // ---------------------------------------------------------------------
  // The loop and the command

  /** The watch loop of `dev`, from the first `recv_timeout` to the disconnect or the last result given. */
  method WatchLoop(ticks: seq<Tick>, libs: Libraries, out: OutputDir) returns (log: seq<LogLine>)
    requires out.created
    modifies out
    ensures out.created
    ensures log == Listen(ticks, libs).log
    ensures out.files == Apply(old(out.files), Listen(ticks, libs).writes)
  {
    log := [];
    ghost var done: seq<(string, string)> := [];
    assert ticks[0..] == ticks;
    assert [] + Listen(ticks, libs).writes == Listen(ticks, libs).writes;
    assert [] + Listen(ticks, libs).log == Listen(ticks, libs).log;
    var i := 0;
    while i < |ticks|
      invariant 0 <= i <= |ticks|
      invariant out.created
      invariant out.files == Apply(old(out.files), done)
      invariant Listen(ticks, libs) == Session(done + Listen(ticks[i..], libs).writes, log + Listen(ticks[i..], libs).log)
      decreases |ticks| - i
    {
      assert ticks[i..][0] == ticks[i];
      assert ticks[i..][1..] == ticks[i + 1..];
      var rest := Listen(ticks[i + 1..], libs);
      match ticks[i] {
        case TimedOut =>
        case Disconnected =>
          log := log + [WatchStopped];
          assert done + [] == done;
          break;
        case Received(src) =>
          ghost var earlier := log;
          log := log + [ChangesDetected];
          var outcome := GenerateSite(src, libs, out);
          if outcome.Failed? {
            log := log + [RegenerationFailed(outcome.error)];
          }
          assert log == earlier + ([ChangesDetected] + ReportOf(outcome));
          assert earlier + ([ChangesDetected] + ReportOf(outcome) + rest.log)
              == log + rest.log;
          ApplyAppend(old(out.files), done, SitePlan(src, libs).writes);
          done := done + SitePlan(src, libs).writes;
      }
      i := i + 1;
    }
    if i == |ticks| {
      assert ticks[i..] == [];
      assert done + [] == done && log + [] == log;
    }
  }

  /**
    The `dev` command: generate the site once, and only if that succeeds
    start watching; an initial failure ends the command with its error.
  */
  method Dev(initial: Sources, ticks: seq<Tick>, libs: Libraries, out: OutputDir)
    returns (outcome: Outcome, log: seq<LogLine>)
    modifies out
    ensures outcome == SitePlan(initial, libs).outcome
    ensures outcome.Failed? ==> log == [] && out.files == Apply(old(out.files), SitePlan(initial, libs).writes)
    ensures outcome == Done ==>
      && log == Listen(ticks, libs).log
      && out.files == Apply(Apply(old(out.files), SitePlan(initial, libs).writes), Listen(ticks, libs).writes)
  {
    outcome := GenerateSite(initial, libs, out);
    if outcome.Failed? {
      return outcome, [];
    }
    log := WatchLoop(ticks, libs, out);
  }
}
