/** The per-client fixed-window throttle (internal/middleware/throttle.go).

    `Limiter` keeps one window per client and forgets expired windows with a global
    sweep on every request.  `WindowOf` is an independent reference: it has no map and
    no sweep, it reads one client's window off the whole request history.
 */
module Throttle {
  import opened Wrappers

  datatype Window = Window(count: nat, start: int)

  /** One request: who asked, and the clock reading the throttle took for it. */
  datatype Hit = Hit(ip: string, now: int)

  /** The reference: the window of `ip` after the whole history. */
  function WindowOf(history: seq<Hit>, ip: string, period: int): Option<Window> {
    if history == [] then None
    else
      var before := WindowOf(history[..|history| - 1], ip, period);
      var hit := history[|history| - 1];
      if hit.ip != ip then before
      else if before == None || Expired(before.value, hit.now, period) then Some(Window(1, hit.now))
      else Some(Window(before.value.count + 1, before.value.start))
  }

  predicate Expired(w: Window, now: int, period: int) {
    now - w.start >= period
  }

  /** The reference verdict on the last request of the history. */
  predicate Admitted(history: seq<Hit>, limit: int, period: int)
    requires history != []
  {
    var w := WindowOf(history, history[|history| - 1].ip, period);
    w.Some? && (w.value.count == 1 || w.value.count <= limit)
  }

  ghost predicate Monotone(history: seq<Hit>) {
    forall i, j :: 0 <= i < j < |history| ==> history[i].now <= history[j].now
  }

  /** How many requests of `ip` were admitted at a time in `[from, from + period)`. */
  function AdmittedIn(history: seq<Hit>, ip: string, from: int, limit: int, period: int): nat {
    if history == [] then 0
    else
      var hit := history[|history| - 1];
      AdmittedIn(history[..|history| - 1], ip, from, limit, period)
      + (if hit.ip == ip && from <= hit.now < from + period && Admitted(history, limit, period) then 1 else 0)
  }

  function Max(a: int, b: int): int { if a < b then b else a }
  function Min(a: int, b: int): int { if a < b then a else b }

  /** The windows that survive the sweep at `now`. */
  function Swept(hits: map<string, Window>, now: int, period: int): map<string, Window> {
    map ip | ip in hits && !Expired(hits[ip], now, period) :: hits[ip]
  }

  /** The windows after one request, and the window that request was counted in. */
  function Counted(hits: map<string, Window>, hit: Hit, period: int): map<string, Window> {
    var kept := Swept(hits, hit.now, period);
    kept[hit.ip := if hit.ip in kept then Window(kept[hit.ip].count + 1, kept[hit.ip].start) else Window(1, hit.now)]
  }

  /** The throttle's map after a whole history, sweeps included. */
  function Run(history: seq<Hit>, period: int): map<string, Window> {
    if history == [] then map[]
    else Counted(Run(history[..|history| - 1], period), history[|history| - 1], period)
  }

  /** Whether the throttle refuses the last request of the history. */
  predicate Refused(history: seq<Hit>, limit: int, period: int)
    requires history != []
  {
    var hit := history[|history| - 1];
    var kept := Swept(Run(history[..|history| - 1], period), hit.now, period);
    hit.ip in kept && kept[hit.ip].count + 1 > limit
  }

  class Limiter {
    var hits: map<string, Window>
    const limit: int
    const period: int
    ghost var history: seq<Hit>

    constructor (limit: int, period: int)
      ensures this.limit == limit && this.period == period
      ensures history == [] && Valid()
    {
      this.limit, this.period := limit, period;
      hits, history := map[], [];
    }

    ghost predicate Valid()
      reads this
    {
      hits == Run(history, period)
    }

    /** Drops every expired window, whatever order the map is walked in. */
    method Sweep(now: int)
      modifies this`hits
      ensures hits == Swept(old(hits), now, period)
    {
      var todo := hits.Keys;
      while todo != {}
        invariant todo <= hits.Keys <= old(hits).Keys
        invariant forall ip :: ip in hits ==> hits[ip] == old(hits)[ip]
        invariant forall ip :: ip in old(hits) && ip !in todo ==> (ip in hits <==> !Expired(old(hits)[ip], now, period))
        decreases todo
      {
        var ip :| ip in todo;
        if Expired(hits[ip], now, period) {
          hits := hits - {ip};
        }
        todo := todo - {ip};
      }
    }

    /** One request.  On clock readings that never go back the verdict is the one of the
        unswept reference, and a refused client is told exactly when its window ends. */
    method Allow(ip: string, now: int) returns (blocked: bool, retryAfter: int)
      requires Valid()
      modifies this
      ensures Valid()
      ensures history == old(history) + [Hit(ip, now)]
      ensures blocked == Refused(history, limit, period)
      ensures Monotone(history) ==> blocked == !Admitted(history, limit, period)
      ensures Monotone(history) && blocked ==>
        && WindowOf(history, ip, period).Some?
        && now + retryAfter == WindowOf(history, ip, period).value.start + period
        && 0 < retryAfter <= period
      ensures !blocked ==> retryAfter == 0
      ensures Monotone(history) && RequestsAfter(history, ip, now - period) <= Max(limit, 1) ==> !blocked
    {
      ghost var before := history;
      history := history + [Hit(ip, now)];
      assert history[..|before|] == before;
      Sweep(now);
      if ip !in hits {
        hits := hits[ip := Window(1, now)];
        blocked, retryAfter := false, 0;
      } else {
        var win := hits[ip];
        hits := hits[ip := win.(count := win.count + 1)];
        if win.count + 1 > limit {
          blocked, retryAfter := true, period - (now - win.start);
        } else {
          blocked, retryAfter := false, 0;
        }
      }
      if Monotone(history) {
        SweepUnobservable(history, limit, period);
        RunRepresents(history, ip, period);
        RunRepresents(before, ip, period);
        WindowStartsEarlier(before, ip, period);
        if RequestsAfter(history, ip, now - period) <= Max(limit, 1) { WithinLimitAdmitted(history, limit, period); }
      }
    }
  }

  /** The sweep cannot be observed: the throttle's verdict on every request is the one of
      the reference that never forgets a window. */
  lemma {:induction false} SweepUnobservable(history: seq<Hit>, limit: int, period: int)
    requires history != [] && Monotone(history)
    ensures Refused(history, limit, period) <==> !Admitted(history, limit, period)
  {
    var before, hit := history[..|history| - 1], history[|history| - 1];
    assert history == before + [hit];
    MonotonePrefix(before, hit);
    RunRepresents(before, hit.ip, period);
    CountPositive(before, hit.ip, period);
  }

  /** On readings that never go back the map holds exactly the reference windows, except
      that expired ones may have been swept. */
  lemma {:induction false} RunRepresents(history: seq<Hit>, ip: string, period: int)
    requires Monotone(history)
    ensures Represents(Run(history, period), history, ip, period)
  {
    if history != [] {
      var before, hit := history[..|history| - 1], history[|history| - 1];
      assert history == before + [hit];
      MonotonePrefix(before, hit);
      RunRepresents(before, ip, period);
    }
  }

  ghost predicate Represents(hits: map<string, Window>, history: seq<Hit>, ip: string, period: int) {
    var w := WindowOf(history, ip, period);
    if ip in hits then w == Some(hits[ip])
    else w == None || (history != [] && Expired(w.value, history[|history| - 1].now, period))
  }

  lemma {:induction false} MonotonePrefix(history: seq<Hit>, hit: Hit)
    requires Monotone(history + [hit])
    ensures Monotone(history)
    ensures forall h :: h in history ==> h.now <= hit.now
  {
    var all := history + [hit];
    forall i, j | 0 <= i < j < |history| ensures history[i].now <= history[j].now {
      assert all[i].now <= all[j].now;
    }
    forall h | h in history ensures h.now <= hit.now {
      var i :| 0 <= i < |history| && history[i] == h;
      assert all[i].now <= all[|history|].now;
    }
  }

  lemma {:induction false} CountPositive(history: seq<Hit>, ip: string, period: int)
    ensures var w := WindowOf(history, ip, period); w.Some? ==> w.value.count >= 1
  {
    if history != [] { CountPositive(history[..|history| - 1], ip, period); }
  }

  /** A window starts at one of the client's own requests. */
  lemma {:induction false} WindowStartsEarlier(history: seq<Hit>, ip: string, period: int)
    ensures var w := WindowOf(history, ip, period);
      w.Some? ==> Hit(ip, w.value.start) in history
  {
    if history != [] {
      WindowStartsEarlier(history[..|history| - 1], ip, period);
      assert forall h :: h in history[..|history| - 1] ==> h in history;
    }
  }

  /** In any half-open interval of one period a client is admitted at most twice the
      limit; a limit below one still lets the first request of every window through. */
  lemma {:induction false} AtMostTwiceTheLimit(history: seq<Hit>, ip: string, from: int, limit: int, period: int)
    requires Monotone(history)
    ensures AdmittedIn(history, ip, from, limit, period) <= 2 * Max(limit, 1)
  {
    AdmittedByWindows(history, ip, from, limit, period);
  }

  /** The bound split by the window the client is in: a window that started at or before
      `from` accounts for every admission in the interval, a later one has at most one
      predecessor that does. */
  lemma {:induction false} AdmittedByWindows(history: seq<Hit>, ip: string, from: int, limit: int, period: int)
    requires Monotone(history)
    ensures var w := WindowOf(history, ip, period);
      var n := AdmittedIn(history, ip, from, limit, period);
      var l := Max(limit, 1);
      && (w == None ==> n == 0)
      && (w.Some? && w.value.start + period <= from ==> n == 0)
      && (w.Some? && w.value.start <= from ==> n <= Min(w.value.count, l))
      && (w.Some? && from < w.value.start < from + period ==> n <= l + Min(w.value.count, l))
      && n <= 2 * l
  {
    if history != [] {
      var before, hit := history[..|history| - 1], history[|history| - 1];
      assert history == before + [hit];
      MonotonePrefix(before, hit);
      AdmittedByWindows(before, ip, from, limit, period);
      CountPositive(before, ip, period);
      WindowStartsEarlier(before, ip, period);
    }
  }

  // ---------- Who is never refused ----------

  /** How many requests of `ip` were read after `since`. */
  function RequestsAfter(history: seq<Hit>, ip: string, since: int): nat {
    if history == [] then 0
    else
      var hit := history[|history| - 1];
      RequestsAfter(history[..|history| - 1], ip, since) + (if hit.ip == ip && hit.now > since then 1 else 0)
  }

  lemma {:induction false} FewerAfter(history: seq<Hit>, ip: string, a: int, b: int)
    requires a <= b
    ensures RequestsAfter(history, ip, b) <= RequestsAfter(history, ip, a)
  {
    if history != [] { FewerAfter(history[..|history| - 1], ip, a, b); }
  }

  lemma {:induction false} WindowNotLater(before: seq<Hit>, hit: Hit, period: int)
    requires Monotone(before + [hit])
    ensures var w := WindowOf(before, hit.ip, period); w.Some? ==> w.value.start <= hit.now
  {
    MonotonePrefix(before, hit);
    WindowStartsEarlier(before, hit.ip, period);
  }

  /** A window counts no request but the client's own since it began. */
  lemma {:induction false} WindowCounts(history: seq<Hit>, ip: string, period: int)
    requires Monotone(history)
    ensures CountsOwn(history, ip, period)
  {
    if history != [] {
      var before, hit := history[..|history| - 1], history[|history| - 1];
      assert history == before + [hit];
      MonotonePrefix(before, hit);
      WindowCounts(before, ip, period);
      WindowNotLater(before, hit, period);
      CountsOwnNext(history, ip, period);
    }
  }

  predicate CountsOwn(history: seq<Hit>, ip: string, period: int) {
    var w := WindowOf(history, ip, period); w.Some? ==> w.value.count <= RequestsAfter(history, ip, w.value.start - 1)
  }

  lemma {:induction false} CountsOwnNext(history: seq<Hit>, ip: string, period: int)
    requires history != [] && CountsOwn(history[..|history| - 1], ip, period)
    requires var hit := history[|history| - 1]; var w := WindowOf(history[..|history| - 1], hit.ip, period);
      w.Some? ==> w.value.start <= hit.now
    ensures CountsOwn(history, ip, period)
  {}

  /** A client that made no more than the limit (taken as at least one) of requests within the last
      period, this one included, is let through. */
  lemma {:induction false} WithinLimitAdmitted(history: seq<Hit>, limit: int, period: int)
    requires history != [] && Monotone(history)
    requires var hit := history[|history| - 1]; RequestsAfter(history, hit.ip, hit.now - period) <= Max(limit, 1)
    ensures Admitted(history, limit, period) && !Refused(history, limit, period)
  {
    var hit := history[|history| - 1];
    var w := WindowOf(history, hit.ip, period);
    WindowCounts(history, hit.ip, period);
    NewestWindow(history, period);
    CountPositive(history, hit.ip, period);
    if w.value.count > 1 { FewerAfter(history, hit.ip, hit.now - period, w.value.start - 1); }
    SweepUnobservable(history, limit, period);
  }

  /** The window a request is counted in began less than a period before, or with it. */
  lemma {:induction false} NewestWindow(history: seq<Hit>, period: int)
    requires history != []
    ensures var hit := history[|history| - 1]; var w := WindowOf(history, hit.ip, period);
      w.Some? && (w.value.count == 1 || hit.now - w.value.start < period)
  {
    CountPositive(history[..|history| - 1], history[|history| - 1].ip, period);
  }

  // ---------- When the sweep shows ----------

  /** A reading since the window of `ip` began has reached the end of that window. */
  predicate Outlived(history: seq<Hit>, ip: string, period: int) {
    history != [] &&
    var before, hit := history[..|history| - 1], history[|history| - 1];
    var w := WindowOf(before, ip, period);
    w.Some? && !(hit.ip == ip && Expired(w.value, hit.now, period)) &&
    (Expired(w.value, hit.now, period) || Outlived(before, ip, period))
  }

  /** No request of `ip` came back into a window whose end another reading had reached. */
  predicate NeverLate(history: seq<Hit>, ip: string, period: int) {
    history != [] ==>
    var before, hit := history[..|history| - 1], history[|history| - 1];
    var w := WindowOf(before, ip, period);
    NeverLate(before, ip, period) &&
    (hit.ip == ip && w.Some? && !Expired(w.value, hit.now, period) ==> !Outlived(before, ip, period))
  }

  /** Whatever the limit, the throttle and the reference agree on the last request. */
  ghost predicate SameVerdict(history: seq<Hit>, period: int)
    requires history != []
  {
    forall limit :: Refused(history, limit, period) <==> !Admitted(history, limit, period)
  }

  /** They agree on every request of `ip`. */
  ghost predicate Agrees(history: seq<Hit>, ip: string, period: int) {
    history != [] ==>
      Agrees(history[..|history| - 1], ip, period) && (history[|history| - 1].ip == ip ==> SameVerdict(history, period))
  }

  function Held(hits: map<string, Window>, ip: string): Option<Window> { if ip in hits then Some(hits[ip]) else None }

  /** The map holds the reference window of `ip` until a reading outlives it. */
  lemma {:induction false} HeldUntilOutlived(history: seq<Hit>, ip: string, period: int)
    requires NeverLate(history, ip, period)
    ensures Held(Run(history, period), ip) ==
      if Outlived(history, ip, period) then None else WindowOf(history, ip, period)
  {
    if history != [] { HeldUntilOutlived(history[..|history| - 1], ip, period); }
  }

  /** The sweep cannot be observed by a client if and only if no request of it came back into a
      window whose end some reading had reached. */
  lemma {:induction false} SweepUnobservableIff(history: seq<Hit>, ip: string, period: int)
    ensures Agrees(history, ip, period) <==> NeverLate(history, ip, period)
  {
    if history != [] {
      var before := history[..|history| - 1];
      SweepUnobservableIff(before, ip, period);
      if NeverLate(before, ip, period) && history[|history| - 1].ip == ip { LastVerdict(history, period); }
    }
  }

  lemma {:induction false} LastVerdict(history: seq<Hit>, period: int)
    requires history != [] && NeverLate(history[..|history| - 1], history[|history| - 1].ip, period)
    ensures SameVerdict(history, period) <==> NeverLate(history, history[|history| - 1].ip, period)
  {
    var before, hit := history[..|history| - 1], history[|history| - 1];
    HeldUntilOutlived(before, hit.ip, period);
    CountPositive(before, hit.ip, period);
    if !NeverLate(history, hit.ip, period) { assert !Refused(history, 1, period) && !Admitted(history, 1, period); }
  }

  /** On readings that never go back it never can. */
  lemma {:induction false} MonotoneNeverLate(history: seq<Hit>, ip: string, period: int)
    requires Monotone(history)
    ensures NeverLate(history, ip, period)
    ensures Outlived(history, ip, period) ==>
      var w := WindowOf(history, ip, period); w.Some? && Expired(w.value, history[|history| - 1].now, period)
  {
    if history != [] {
      var before, hit := history[..|history| - 1], history[|history| - 1];
      assert history == before + [hit];
      MonotonePrefix(before, hit);
      MonotoneNeverLate(before, ip, period);
    }
  }

  /** Without the clock assumption the sweep shows: a request that read its clock late sweeps
      a window that a request with an earlier reading would still have been counted in. */
  lemma {:induction false} SweepObservableWhenClockGoesBack()
    ensures exists history: seq<Hit> {:trigger Monotone(history)} ::
      history != [] && !Monotone(history) && !Refused(history, 1, 10) && !Admitted(history, 1, 10)
  {
    var h1, h2, h3 := [Hit("a", 0)], [Hit("a", 0), Hit("b", 10)], [Hit("a", 0), Hit("b", 10), Hit("a", 5)];
    assert h1[..0] == [] && h2[..1] == h1 && h3[..2] == h2;
    assert Run(h1, 10) == map["a" := Window(1, 0)];
    assert Run(h2, 10) == map["b" := Window(1, 10)];
    assert h3[1].now > h3[2].now;
    assert "a" != "b";
    assert WindowOf(h1, "a", 10) == Some(Window(1, 0)) && WindowOf(h2, "a", 10) == Some(Window(1, 0));
    assert !Monotone(h3) && !Refused(h3, 1, 10) && !Admitted(h3, 1, 10);
  }
}
