/** The plot buffer behind the dashboard: bounded series, and the cursor protocol that feeds a browser page.
    A series is named by the position of its spec; `dims[k]` is the width of series `k`. */
module Plots {
  import opened Wrappers
  import opened Integers

  const HISTORY_LENGTH := 1024
  const MAX_CATCHUP := 3

  datatype Point = Point(version: nat, timestamp: real, value: seq<real>)

  datatype Series = Series(points: seq<Point>, version: nat)

  function Tail<T>(xs: seq<T>, n: nat): (r: seq<T>) {
    if |xs| <= n then xs else xs[|xs| - n..]
  }

  /** `_Series.append` on a deque of bounded length. */
  function Grown(s: Series, timestamp: real, value: seq<real>): Series {
    Series(Tail(s.points + [Point(s.version + 1, timestamp, value)], HISTORY_LENGTH), s.version + 1)
  }

  /** The points beyond a cursor. */
  function Newer(points: seq<Point>, cursor: int): (r: seq<Point>) {
    if points == [] then []
    else Newer(points[..|points| - 1], cursor) + (if points[|points| - 1].version > cursor then [points[|points| - 1]] else [])
  }

  function Catchup(points: seq<Point>, cursor: int): seq<Point> { Tail(Newer(points, cursor), MAX_CATCHUP) }

  // ---- The bounded buffer against the whole log ---------------------------------------------------------

  ghost predicate Numbered(log: seq<Point>) {
    forall i :: 0 <= i < |log| ==> log[i].version == i + 1
  }

  /** The series is the unbounded append log of its epoch, cut to its newest points. */
  ghost predicate Mirrors(s: Series, log: seq<Point>) {
    Numbered(log) && s.version == |log| && s.points == Tail(log, HISTORY_LENGTH)
  }

  lemma GrownMirrors(s: Series, log: seq<Point>, timestamp: real, value: seq<real>)
    requires Mirrors(s, log)
    ensures Mirrors(Grown(s, timestamp, value), log + [Point(|log| + 1, timestamp, value)])
  {
  }

  /** Among consecutively numbered points those beyond a cursor are a suffix. */
  lemma {:induction false} NewerIsSuffix(points: seq<Point>, base: nat, cursor: int)
    requires forall i :: 0 <= i < |points| ==> points[i].version == base + i + 1
    ensures Newer(points, cursor) == points[Clamp(cursor - base, 0, |points|)..]
    decreases |points|
  {
    if points != [] {
      var init, last := points[..|points| - 1], points[|points| - 1];
      NewerIsSuffix(init, base, cursor);
      assert points == init + [last];
      if last.version > cursor {
        var c := Clamp(cursor - base, 0, |init|);
        assert init[c..] + [last] == points[c..];
      }
    }
  }

  /** Where a catch-up begins: past the cursor, and at most three points back. */
  function CatchupFrom(cursor: int, n: nat): (from: nat)
    ensures from <= n <= from + MAX_CATCHUP
  {
    var start := Clamp(cursor, 0, n);
    if n - start > MAX_CATCHUP then n - MAX_CATCHUP else start
  }

  /** The newest points of the whole log beyond a cursor, by position. */
  function NewestAfter(log: seq<Point>, cursor: int): seq<Point> { log[CatchupFrom(cursor, |log|)..] }

  /** The catch-up among consecutively numbered points, by position. */
  lemma CatchupOfPoints(points: seq<Point>, base: nat, cursor: int)
    requires forall i :: 0 <= i < |points| ==> points[i].version == base + i + 1
    ensures Catchup(points, cursor) == points[CatchupFrom(cursor - base, |points|)..]
  {
    NewerIsSuffix(points, base, cursor);
    TailOfSlice(points, Clamp(cursor - base, 0, |points|), MAX_CATCHUP);
  }

  lemma CatchupOfLog(log: seq<Point>, cursor: int)
    requires Numbered(log)
    ensures Catchup(log, cursor) == NewestAfter(log, cursor)
  {
    CatchupOfPoints(log, 0, cursor);
  }

  /** The bounded deque answers every cursor as the unbounded log would. */
  lemma BoundedAnswersLikeLog(s: Series, log: seq<Point>, cursor: int)
    requires Mirrors(s, log)
    ensures Catchup(s.points, cursor) == Catchup(log, cursor) == NewestAfter(log, cursor)
  {
    CatchupOfLog(log, cursor);
    BoundedCatchup(s, log, cursor);
  }

  lemma BoundedCatchup(s: Series, log: seq<Point>, cursor: int)
    requires Mirrors(s, log)
    ensures Catchup(s.points, cursor) == NewestAfter(log, cursor)
  {
    var from := if |log| <= HISTORY_LENGTH then 0 else |log| - HISTORY_LENGTH;
    assert s.points == log[from..];
    CatchupOfPoints(s.points, from, cursor);
    SliceOfSlice(log, from, CatchupFrom(cursor - from, |s.points|));
  }

  lemma SliceOfSlice(log: seq<Point>, from: nat, skip: nat)
    requires from + skip <= |log|
    ensures log[from..][skip..] == log[from + skip..]
  {
  }

  lemma TailOfSlice(log: seq<Point>, from: nat, n: nat)
    requires from <= |log|
    ensures Tail(log[from..], n) == log[if |log| - from <= n then from else |log| - n..]
  {
  }

  // ---- One series on one page -------------------------------------------------------------------------------

  /** `shown` is a strictly increasing subsequence of the log, none of it beyond the cursor. */
  ghost predicate ViewOk(shown: seq<Point>, cursor: int, log: seq<Point>) {
    && 0 <= cursor <= |log|
    && (forall i :: 0 <= i < |shown| ==> 1 <= shown[i].version <= cursor && log[shown[i].version - 1] == shown[i])
    && (forall i, j :: 0 <= i < j < |shown| ==> shown[i].version < shown[j].version)
  }

  lemma CatchupKeepsView(shown: seq<Point>, cursor: int, log: seq<Point>)
    requires ViewOk(shown, cursor, log) && Numbered(log)
    ensures ViewOk(shown + NewestAfter(log, cursor), |log|, log)
  {
    var from, all := CatchupFrom(cursor, |log|), shown + NewestAfter(log, cursor);
    forall i | 0 <= i < |all| ensures 1 <= all[i].version <= |log| && log[all[i].version - 1] == all[i] {
      if i >= |shown| { assert all[i] == log[from + (i - |shown|)]; }
    }
    forall i, j | 0 <= i < j < |all| ensures all[i].version < all[j].version {
      if j >= |shown| { assert all[j] == log[from + (j - |shown|)]; }
      if i >= |shown| { assert all[i] == log[from + (i - |shown|)]; }
    }
  }

  /** Up to three new points are all delivered; of more, exactly the newest three. */
  lemma CatchupLosesOnlyExcess(cursor: nat, log: seq<Point>)
    requires Numbered(log) && cursor <= |log|
    ensures |log| - cursor <= 3 ==> Catchup(log, cursor) == log[cursor..]
    ensures |log| - cursor > 3 ==> Catchup(log, cursor) == log[|log| - 3..]
    ensures Catchup(log, cursor) == [] <==> cursor == |log|
  {
    CatchupOfLog(log, cursor);
  }

  // ---- The store ----------------------------------------------------------------------------------------------

  /** The append log of every series in one epoch. */
  type Logs = seq<seq<Point>>

  function Blank<T>(n: nat, value: T): (s: seq<T>)
    ensures |s| == n && forall k :: 0 <= k < n ==> s[k] == value
  {
    seq(n, _ => value)
  }

  ghost predicate SeriesOk(series: seq<Series>, log: Logs) {
    |series| == |log| && forall k :: 0 <= k < |log| ==> Mirrors(series[k], log[k])
  }

  /** Every later log continues the earlier one. */
  ghost predicate Continues(log: Logs, log': Logs) {
    |log| == |log'| && forall k :: 0 <= k < |log| ==> log[k] <= log'[k]
  }

  /** Histories of all epochs: later ones are added, and those there are only extended. */
  ghost predicate Extends(logs: seq<Logs>, logs': seq<Logs>) {
    |logs| <= |logs'| && forall e :: 0 <= e < |logs| ==> Continues(logs[e], logs'[e])
  }

  function Lookup(m: map<nat, int>, k: nat): int { if k in m then m[k] else 0 }

  /** What `snapshot` returns; a series without newer points has an empty entry. */
  datatype Snapshot = Snapshot(epoch: nat, runId: Option<string>, available: seq<bool>, series: seq<seq<Point>>)

  /** One more point on series `k`. */
  function Recorded(log: Logs, k: nat, timestamp: real, value: seq<real>): Logs
    requires k < |log|
  {
    log[k := log[k] + [Point(|log[k]| + 1, timestamp, value)]]
  }

  predicate AllFinite(value: seq<Option<real>>) { forall i :: 0 <= i < |value| ==> value[i].Some? }

  function Finite(value: seq<Option<real>>): (v: seq<real>)
    requires AllFinite(value)
    ensures |v| == |value| && forall i :: 0 <= i < |v| ==> value[i] == Some(v[i])
  {
    seq(|value|, i requires 0 <= i < |value| => value[i].value)
  }

  predicate Accepts(dims: seq<nat>, k: nat, value: seq<Option<real>>) {
    k < |dims| && |value| == dims[k] && AllFinite(value)
  }

  class PlotStore {
    const dims: seq<nat>
    var series: seq<Series>
    var epoch: nat
    var runId: Option<string>
    var origin: Option<int>
    ghost var past: seq<Logs>      // logs of the epochs before this one
    ghost var log: Logs            // log of this epoch

    ghost predicate Valid()
      reads this
    {
      |past| == epoch && |log| == |dims| && SeriesOk(series, log)
    }

    ghost function History(): seq<Logs>
      reads this
    {
      past + [log]
    }

    constructor (dims: seq<nat>)
      ensures Valid() && this.dims == dims && epoch == 0 && runId == None && log == Blank(|dims|, [])
    {
      this.dims := dims;
      series := Blank(|dims|, Series([], 0));
      epoch, runId, origin := 0, None, None;
      past, log := [], Blank(|dims|, []);
    }

    method Reset(runId': Option<string>)
      requires Valid()
      modifies this
      ensures Valid() && runId == runId' && epoch == old(epoch) + 1 && origin == None
      ensures past == old(History()) && log == Blank(|dims|, [])
    {
      epoch := epoch + 1;
      runId := runId';
      origin := None;
      series := Blank(|dims|, Series([], 0));
      past, log := past + [log], Blank(|dims|, []);
    }

    method Attach(run: string)
      requires Valid()
      modifies this
      ensures Valid() && runId == Some(run)
      ensures old(runId) == Some(run) ==> past == old(past) && log == old(log)
      ensures old(runId) != Some(run) ==> past == old(History()) && log == Blank(|dims|, [])
    {
      if runId != Some(run) {
        Reset(Some(run));
      }
    }

    method Detach()
      requires Valid()
      modifies this
      ensures Valid() && runId == None
      ensures old(runId) == None ==> past == old(past) && log == old(log)
      ensures old(runId) != None ==> past == old(History()) && log == Blank(|dims|, [])
    {
      if runId != None {
        Reset(None);
      }
    }

    /** Accepts a finite vector of the right width (`None` entries stand for NaN and infinities); a series
        without a spec is a KeyError. The first point of an epoch is time zero. */
    method Append(k: nat, value: seq<Option<real>>, time: int) returns (r: Option<bool>)
      requires Valid()
      modifies this
      ensures Valid() && runId == old(runId) && past == old(past)
      ensures r == if k < |dims| then Some(Accepts(dims, k, value)) else None
      ensures r != Some(true) ==> log == old(log) && origin == old(origin)
      ensures r == Some(true) <==> k < |dims| && |value| == dims[k] && forall i :: 0 <= i < |value| ==> value[i].Some?
      ensures r == Some(true) ==>
                && origin == (if old(origin) == None then Some(time) else old(origin))
                && log[k] == old(log)[k] + [Point(|old(log)[k]| + 1, (time - origin.value) as real / 1000000000.0, Finite(value))]
                && forall j :: 0 <= j < |log| && j != k ==> log[j] == old(log)[j]
    {
      if k >= |dims| {
        return None;
      }
      if |value| != dims[k] || !AllFinite(value) {
        return Some(false);
      }
      if origin == None {
        origin := Some(time);
      }
      var timestamp := (time - origin.value) as real / 1000000000.0;
      GrownMirrors(series[k], log[k], timestamp, Finite(value));
      series := series[k := Grown(series[k], timestamp, Finite(value))];
      log := Recorded(log, k, timestamp, Finite(value));
      r := Some(true);
    }

    /** For every cursor map, the newest points beyond each cursor as the whole append log would give them. */
    method TakeSnapshot(cursors: map<nat, int>) returns (snap: Snapshot)
      requires Valid()
      ensures snap.epoch == epoch && snap.runId == runId && |snap.available| == |snap.series| == |dims|
      ensures forall k :: 0 <= k < |dims| ==> snap.available[k] == (log[k] != []) && snap.series[k] == NewestAfter(log[k], Lookup(cursors, k))
    {
      var available, found := [], [];
      for i := 0 to |dims|
        invariant |available| == |found| == i
        invariant forall k :: 0 <= k < i ==> available[k] == (log[k] != []) && found[k] == NewestAfter(log[k], Lookup(cursors, k))
      {
        BoundedAnswersLikeLog(series[i], log[i], Lookup(cursors, i));
        found := found + [Catchup(series[i].points, Lookup(cursors, i))];
        available := available + [series[i].points != []];
      }
      snap := Snapshot(epoch, runId, available, found);
    }
  }

  // ---- A browser page -----------------------------------------------------------------------------------------

  datatype Cursors = Cursors(epoch: Option<nat>, versions: map<nat, int>)

  ghost predicate ShowsFrom(shown: Logs, versions: map<nat, int>, log: Logs) {
    |shown| == |log| && forall k :: 0 <= k < |log| ==> ViewOk(shown[k], Lookup(versions, k), log[k])
  }

  /** What a page shows comes from one epoch, in order and without repeats. */
  ghost predicate PageOk(cursors: Option<Cursors>, shown: Logs, history: seq<Logs>, n: nat) {
    match cursors
    case None => shown == Blank(n, [])
    case Some(c) => c.epoch.Some? && c.epoch.value < |history| && ShowsFrom(shown, c.versions, history[c.epoch.value])
  }

  /** The page follows the current epoch and its cursors stand at the newest points. */
  ghost predicate CaughtUp(cursors: Option<Cursors>, epoch: nat, log: Logs) {
    && cursors.Some? && cursors.value.epoch == Some(epoch)
    && forall k :: 0 <= k < |log| ==> Lookup(cursors.value.versions, k) == |log[k]|
  }

  lemma PagePersists(cursors: Option<Cursors>, shown: Logs, history: seq<Logs>, history': seq<Logs>, n: nat)
    requires PageOk(cursors, shown, history, n) && Extends(history, history')
    ensures PageOk(cursors, shown, history', n)
  {
    if cursors.Some? {
      var e := cursors.value.epoch.value;
      assert Continues(history[e], history'[e]);
    }
  }

  /** One series of a same-epoch callback. */
  ghost predicate Advanced(shown: seq<Point>, shown': seq<Point>, cursor: int, cursor': int, log: seq<Point>) {
    shown' == shown + NewestAfter(log, cursor) && cursor' == |log|
  }

  ghost predicate AllAdvanced(shown: Logs, shown': Logs, versions: map<nat, int>, versions': map<nat, int>, log: Logs, n: nat) {
    && n <= |shown| == |shown'| == |log|
    && forall k :: 0 <= k < n ==> Advanced(shown[k], shown'[k], Lookup(versions, k), Lookup(versions', k), log[k])
  }

  /** The loop of `update_plots` over all plots. */
  method ExtendAll(found: Logs, versions: map<nat, int>, shown: Logs, ghost log: Logs) returns (versions': map<nat, int>, shown': Logs)
    requires |found| == |log| && (forall k :: 0 <= k < |log| ==> Numbered(log[k]) && found[k] == NewestAfter(log[k], Lookup(versions, k)))
    requires ShowsFrom(shown, versions, log)
    ensures AllAdvanced(shown, shown', versions, versions', log, |log|)
  {
    versions', shown' := versions, shown;
    for i := 0 to |found|
      invariant AllAdvanced(shown, shown', versions, versions', log, i)
      invariant forall k :: i <= k < |log| ==> shown'[k] == shown[k] && Lookup(versions', k) == Lookup(versions, k)
    {
      if found[i] != [] {
        shown' := shown'[i := shown'[i] + found[i]];
        versions' := versions'[i := found[i][|found[i]| - 1].version];
      }
    }
  }

  lemma AdvancedShows(shown: Logs, shown': Logs, versions: map<nat, int>, versions': map<nat, int>, log: Logs)
    requires AllAdvanced(shown, shown', versions, versions', log, |log|) && ShowsFrom(shown, versions, log)
    requires forall k :: 0 <= k < |log| ==> Numbered(log[k])
    ensures ShowsFrom(shown', versions', log)
  {
    forall k | 0 <= k < |log| ensures ViewOk(shown'[k], Lookup(versions', k), log[k]) {
      CatchupKeepsView(shown[k], Lookup(versions, k), log[k]);
    }
  }

  class Page {
    var cursors: Option<Cursors>
    var shown: Logs

    ghost predicate Follows(store: PlotStore)
      reads this, store
    {
      store.Valid() && PageOk(cursors, shown, store.History(), |store.dims|)
    }

    /** A freshly loaded page: empty figures, no cursors. */
    constructor (store: PlotStore)
      requires store.Valid()
      ensures Follows(store) && cursors == None
    {
      cursors := None;
      shown := Blank(|store.dims|, []);
    }

    /** `update_plots`: a change of epoch empties the figures; otherwise every figure gets its newest points. */
    method UpdatePlots(store: PlotStore)
      requires Follows(store)
      modifies this
      ensures Follows(store)
      ensures cursors.Some? && cursors.value.epoch == Some(store.epoch)
      ensures if old(cursors).Some? && old(cursors).value.epoch == Some(store.epoch) then
                && CaughtUp(cursors, store.epoch, store.log)
                && AllAdvanced(old(shown), shown, old(cursors).value.versions, cursors.value.versions, store.log, |store.log|)
              else shown == Blank(|store.dims|, []) && cursors.value.versions == map[]
    {
      var initial := cursors.None?;
      var state := if initial then Cursors(None, map[]) else cursors.value;
      var snap := store.TakeSnapshot(state.versions);
      if state.epoch != Some(snap.epoch) {
        if !initial {
          shown := Blank(|store.dims|, []);
        }
        cursors := Some(Cursors(Some(snap.epoch), map[]));
        return;
      }
      var versions, figures := ExtendAll(snap.series, state.versions, shown, store.log);
      AdvancedShows(shown, figures, state.versions, versions, store.log);
      shown := figures;
      cursors := Some(Cursors(Some(snap.epoch), versions));
    }
  }

  // ---- Whole runs ----------------------------------------------------------------------------------------------

  datatype Event =
    | Publish(k: nat, value: seq<Option<real>>, time: int)
    | AttachRun(run: string)
    | DetachRun
    | Callback

  /** Points of series `k` accepted since the last callback, after the first `n` events. */
  ghost function Waiting(events: seq<Event>, n: nat, dims: seq<nat>, k: nat): (w: nat)
    requires n <= |events|
  {
    if n == 0 then 0 else
      match events[n - 1]
      case Callback => 0
      case Publish(s, value, _) => Waiting(events, n - 1, dims, k) + (if s == k && Accepts(dims, k, value) then 1 else 0)
      case AttachRun(_) => Waiting(events, n - 1, dims, k)
      case DetachRun => Waiting(events, n - 1, dims, k)
  }

  /** Points of series `k` accepted in the first `n` events. */
  ghost function Accepted(events: seq<Event>, n: nat, dims: seq<nat>, k: nat): (a: nat)
    requires n <= |events|
  {
    if n == 0 then 0 else
      Accepted(events, n - 1, dims, k) +
      (if events[n - 1].Publish? && events[n - 1].k == k && Accepts(dims, k, events[n - 1].value) then 1 else 0)
  }

  ghost predicate LogsGrown(log0: Logs, log: Logs, events: seq<Event>, n: nat, dims: seq<nat>)
    requires n <= |events|
  {
    |log| == |log0| && forall k :: 0 <= k < |log| ==> |log[k]| == |log0[k]| + Accepted(events, n, dims, k)
  }

  /** No more than three accepted points of any series wait for a callback. */
  ghost predicate Paced(events: seq<Event>, dims: seq<nat>) {
    forall n, k :: 0 <= n <= |events| && 0 <= k < |dims| ==> Waiting(events, n, dims, k) <= MAX_CATCHUP
  }

  ghost predicate KeepsEpoch(e: Event, runId: Option<string>) {
    (e.AttachRun? ==> runId == Some(e.run)) && (e.DetachRun? ==> runId == None)
  }

  /** Everything logged since `start` points is shown, in order, or waits for the next callback. */
  ghost predicate Gapless(shown0: seq<Point>, shown: seq<Point>, start: nat, log: seq<Point>, cursor: int) {
    start <= cursor <= |log| && shown == shown0 + log[start..cursor]
  }

  ghost predicate AllGapless(shown0: Logs, shown: Logs, log0: Logs, log: Logs, versions: map<nat, int>) {
    && |shown0| == |shown| == |log0| == |log|
    && forall k :: 0 <= k < |log| ==> Gapless(shown0[k], shown[k], |log0[k]|, log[k], Lookup(versions, k))
  }

  ghost predicate Behind(log: Logs, versions: map<nat, int>, events: seq<Event>, n: nat, dims: seq<nat>)
    requires n <= |events|
  {
    forall k :: 0 <= k < |log| ==> |log[k]| - Lookup(versions, k) <= Waiting(events, n, dims, k)
  }

  /** A published point waits; nothing shown changes. */
  lemma EventKeepsPace(shown0: Logs, shown: Logs, log0: Logs, log: Logs, log': Logs, versions: map<nat, int>, events: seq<Event>, n: nat, dims: seq<nat>)
    requires AllGapless(shown0, shown, log0, log, versions) && n < |events| && !events[n].Callback? && Behind(log, versions, events, n, dims)
    requires Continues(log, log')
    requires forall k :: 0 <= k < |log| ==>
               |log'[k]| == |log[k]| + if events[n].Publish? && k == events[n].k && Accepts(dims, k, events[n].value) then 1 else 0
    ensures AllGapless(shown0, shown, log0, log', versions) && Behind(log', versions, events, n + 1, dims)
  {
    forall k | 0 <= k < |log| ensures Gapless(shown0[k], shown[k], |log0[k]|, log'[k], Lookup(versions, k)) {
      assert log[k][|log0[k]|..Lookup(versions, k)] == log'[k][|log0[k]|..Lookup(versions, k)];
    }
  }

  /** A callback that finds at most three points waiting delivers them all. */
  lemma CallbackCatchesUp(shown0: Logs, shown: Logs, shown': Logs, log0: Logs, log: Logs, versions: map<nat, int>, versions': map<nat, int>,
                          events: seq<Event>, n: nat, dims: seq<nat>)
    requires AllGapless(shown0, shown, log0, log, versions) && n < |events| && Behind(log, versions, events, n, dims)
    requires Paced(events, dims) && |log| == |dims| && AllAdvanced(shown, shown', versions, versions', log, |log|)
    ensures AllGapless(shown0, shown', log0, log, versions') && Behind(log, versions', events, n + 1, dims)
  {
    forall k | 0 <= k < |log| ensures Gapless(shown0[k], shown'[k], |log0[k]|, log[k], Lookup(versions', k)) {
      assert Waiting(events, n, dims, k) <= MAX_CATCHUP;
      var cursor := Lookup(versions, k);
      assert log[k][|log0[k]|..cursor] + log[k][cursor..] == log[k][|log0[k]|..];
    }
  }

  /** The page follows the current epoch without a gap since `log0`, as far as events so far allow. */
  ghost predicate Tracks(cursors: Option<Cursors>, epoch: nat, shown0: Logs, shown: Logs, log0: Logs, log: Logs, events: seq<Event>, n: nat, dims: seq<nat>)
    requires n <= |events|
  {
    && cursors.Some? && cursors.value.epoch == Some(epoch)
    && AllGapless(shown0, shown, log0, log, cursors.value.versions) && Behind(log, cursors.value.versions, events, n, dims)
  }

  ghost predicate Calm(events: seq<Event>, dims: seq<nat>, runId: Option<string>) {
    Paced(events, dims) && forall i :: 0 <= i < |events| ==> KeepsEpoch(events[i], runId)
  }

  lemma ExtendsTransitive(a: seq<Logs>, b: seq<Logs>, c: seq<Logs>)
    requires Extends(a, b) && Extends(b, c)
    ensures Extends(a, c)
  {
    forall e | 0 <= e < |a| ensures Continues(a[e], c[e]) {
      assert Continues(a[e], b[e]) && Continues(b[e], c[e]);
    }
  }

  /** What one event does to the histories. */
  method HandleStoreEvent(store: PlotStore, e: Event)
    requires store.Valid() && !e.Callback?
    modifies store
    ensures store.Valid() && Extends(old(store.History()), store.History())
    ensures KeepsEpoch(e, old(store.runId)) ==>
              && store.epoch == old(store.epoch) && store.runId == old(store.runId) && Continues(old(store.log), store.log)
              && forall k :: 0 <= k < |store.log| ==>
                   |store.log[k]| == |old(store.log)[k]| + if e.Publish? && k == e.k && Accepts(store.dims, k, e.value) then 1 else 0
  {
    match e
    case Publish(k, value, time) => var _ := store.Append(k, value, time);
    case AttachRun(run) => store.Attach(run);
    case DetachRun => store.Detach();
    case Callback =>
  }

  /** A page following a store through any run. From a caught-up page, if callbacks keep pace, it shows
      every point logged in between, once and in order. */
  method Serve(store: PlotStore, page: Page, events: seq<Event>)
    requires page.Follows(store)
    modifies store, page
    ensures page.Follows(store) && Extends(old(store.History()), store.History())
    ensures CaughtUp(old(page.cursors), old(store.epoch), old(store.log)) && Calm(events, store.dims, old(store.runId)) ==>
              && store.epoch == old(store.epoch) && LogsGrown(old(store.log), store.log, events, |events|, store.dims)
              && Tracks(page.cursors, store.epoch, old(page.shown), page.shown, old(store.log), store.log, events, |events|, store.dims)
  {
    ghost var log0, shown0 := store.log, page.shown;
    ghost var calm := CaughtUp(page.cursors, store.epoch, store.log) && Calm(events, store.dims, store.runId);
    for n := 0 to |events|
      invariant page.Follows(store) && Extends(old(store.History()), store.History())
      invariant calm ==> store.epoch == old(store.epoch) && store.runId == old(store.runId)
      invariant calm ==> LogsGrown(log0, store.log, events, n, store.dims)
      invariant calm ==> Tracks(page.cursors, store.epoch, shown0, page.shown, log0, store.log, events, n, store.dims)
    {
      ghost var history, log, shown := store.History(), store.log, page.shown;
      if events[n].Callback? {
        ghost var versions := if page.cursors.Some? then page.cursors.value.versions else map[];
        page.UpdatePlots(store);
        if calm {
          CallbackCatchesUp(shown0, shown, page.shown, log0, log, versions, page.cursors.value.versions, events, n, store.dims);
        }
      } else {
        HandleStoreEvent(store, events[n]);
        ExtendsTransitive(old(store.History()), history, store.History());
        PagePersists(page.cursors, page.shown, history, store.History(), |store.dims|);
        if calm {
          EventKeepsPace(shown0, shown, log0, log, store.log, page.cursors.value.versions, events, n, store.dims);
        }
      }
    }
  }
}
