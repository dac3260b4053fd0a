/** Failed-attempt tracking and automatic blocking (internal/api/security.go).

    Recording an attempt holds the lock while it appends, prunes and compares with the threshold.
    It then lets go of the lock to ask for the block and takes it again to clear the tracker, so
    other calls can run in between. A run is a list of those atomic steps; a step that starts a
    block request is known by its position in the run, the request's ticket. */
module AttemptTracking {
  import opened Prelude

  /** `threshold` comes with each call; the window is the same for all of them. */
  datatype Event =
    | Fail(ip: string, now: int, threshold: int)
    | Request(ip: string)
    | Added(ticket: nat)
    | AddFailed(ticket: nat)
    | Cleared(ticket: nat)
    | Unblocked(ip: string)

  datatype Settings = Settings(window: int, hasBlocker: bool)

  datatype Tracker = Tracker(count: int, last: int, times: seq<int>)

  type Trackers = map<string, Tracker>

  predicate IsLocal(ip: string) {
    ip == "127.0.0.1" || ip == "::1"
  }

  function InWindow(now: int, window: int): int -> bool {
    t => now - t <= window
  }

  function Times(trackers: Trackers, ip: string): seq<int> {
    if ip in trackers then trackers[ip].times else []
  }

  /** The readings kept when one more is added. */
  function Kept(times: seq<int>, window: int, now: int): seq<int> {
    Filter(times + [now], InWindow(now, window))
  }

  function Recorded(trackers: Trackers, window: int, ip: string, now: int): Tracker {
    var times := Kept(Times(trackers, ip), window, now);
    Tracker(|times|, now, times)
  }

  class SecurityManager {
    var attempts: Trackers
    const hasBlocker: bool

    constructor (hasBlocker: bool)
      ensures attempts == map[] && this.hasBlocker == hasBlocker
    {
      attempts := map[];
      this.hasBlocker := hasBlocker;
    }

    /** The part of RecordFailedAttempt that runs under the lock; `block` says whether the caller
        goes on to request a block with the lock released. */
    method RecordFailedAttempt(ip: string, now: int, threshold: int, window: int)
      returns (block: bool)
      modifies this
      ensures IsLocal(ip) ==> attempts == old(attempts) && !block
      ensures !IsLocal(ip) ==>
                var t := Recorded(old(attempts), window, ip, now);
                attempts == old(attempts)[ip := t]
                && (block <==> t.count >= threshold && hasBlocker)
    {
      if ip == "127.0.0.1" || ip == "::1" {
        return false;
      }
      if ip !in attempts {
        attempts := attempts[ip := Tracker(0, 0, [])];
      }
      var times := attempts[ip].times + [now];
      var valid: seq<int> := [];
      ghost var held := attempts;
      for i := 0 to |times|
        invariant attempts == held
        invariant valid == Filter(times[..i], InWindow(now, window))
      {
        assert times[..i + 1] == times[..i] + [times[i]];
        FilterSnoc(times[..i], times[i], InWindow(now, window));
        if now - times[i] <= window {
          valid := valid + [times[i]];
        }
      }
      assert times[..|times|] == times;
      attempts := attempts[ip := Tracker(|valid|, now, valid)];
      assert attempts == old(attempts)[ip := Tracker(|valid|, now, valid)];
      block := |valid| >= threshold && hasBlocker;
    }

    /** The part of blockIPLocked that runs once the address is in the set. */
    method ClearAttempts(ip: string)
      modifies this
      ensures attempts == old(attempts) - {ip}
    {
      attempts := attempts - {ip};
    }
  }

  // ----- The system -----

  /** `adding` and `clearing` are the requests between their two lock-free points. */
  datatype State = State(
    attempts: Trackers, blocked: set<string>, adding: map<nat, string>, clearing: map<nat, string>)

  const START := State(map[], {}, map[], map[])

  ghost predicate Enabled(s: State, e: Event) {
    match e
    case Added(t) => t in s.adding
    case AddFailed(t) => t in s.adding
    case Cleared(t) => t in s.clearing
    case _ => true
  }

  ghost function Step(cfg: Settings, s: State, e: Event, position: nat): State
    requires Enabled(s, e)
  {
    match e
    case Fail(ip, now, threshold) =>
      if IsLocal(ip) then s
      else
        var t := Recorded(s.attempts, cfg.window, ip, now);
        var s' := s.(attempts := s.attempts[ip := t]);
        if t.count >= threshold && cfg.hasBlocker
        then s'.(adding := s.adding[position := ip]) else s'
    case Request(ip) => if cfg.hasBlocker then s.(adding := s.adding[position := ip]) else s
    case Added(t) =>
      s.(blocked := s.blocked + {s.adding[t]}, clearing := s.clearing[t := s.adding[t]],
         adding := s.adding - {t})
    case AddFailed(t) => s.(adding := s.adding - {t})
    case Cleared(t) =>
      s.(attempts := s.attempts - {s.clearing[t]}, clearing := s.clearing - {t})
    case Unblocked(ip) => s.(blocked := s.blocked - {ip})
  }

  ghost predicate Legal(cfg: Settings, run: seq<Event>, n: nat)
    requires n <= |run|
    decreases n, 0
  {
    n == 0 || (Legal(cfg, run, n - 1) && Enabled(After(cfg, run, n - 1), run[n - 1]))
  }

  /** The state after the first `n` steps. */
  ghost function After(cfg: Settings, run: seq<Event>, n: nat): State
    requires n <= |run| && Legal(cfg, run, n)
    decreases n, 1
  {
    if n == 0 then START else Step(cfg, After(cfg, run, n - 1), run[n - 1], n - 1)
  }

  // ----- What happened, read off the run -----

  ghost predicate IsFail(run: seq<Event>, i: int, ip: string) {
    0 <= i < |run| && run[i].Fail? && run[i].ip == ip && !IsLocal(ip)
  }

  /** The address a ticket stands for. */
  ghost predicate Names(run: seq<Event>, ticket: nat, ip: string) {
    ticket < |run| && (run[ticket].Fail? || run[ticket].Request?) && run[ticket].ip == ip
  }

  /** The address's failures among the first `n` steps since its tracker was last cleared. */
  ghost function History(run: seq<Event>, n: nat, ip: string): seq<int>
    requires n <= |run|
  {
    if n == 0 then []
    else if IsFail(run, n - 1, ip) then History(run, n - 1, ip) + [run[n - 1].now]
    else if run[n - 1].Cleared? && Names(run, run[n - 1].ticket, ip) then []
    else History(run, n - 1, ip)
  }

  /** The clock readings of the address reach the lock in order during the first `n` steps. */
  ghost predicate InOrder(run: seq<Event>, n: nat, ip: string)
    requires n <= |run|
  {
    forall i, j :: 0 <= i < j < n && IsFail(run, i, ip) && IsFail(run, j, ip)
                   ==> run[i].now <= run[j].now
  }

  /** Failures of an address among the first `n` steps whose time lies in [from, to]. */
  ghost function FailsBetween(run: seq<Event>, n: nat, ip: string, from: int, to: int): nat
    requires n <= |run|
  {
    if n == 0 then 0
    else
      FailsBetween(run, n - 1, ip, from, to)
      + (if IsFail(run, n - 1, ip) && from <= run[n - 1].now <= to then 1 else 0)
  }

  // ----- Tickets -----

  /** Open requests stem from an earlier step, and a request waits to clear only once added. */
  ghost predicate TicketsKnown(run: seq<Event>, n: nat, s: State)
    requires n <= |run|
  {
    (forall t :: t in s.adding ==> t < n && Names(run, t, s.adding[t]))
    && (forall t :: t in s.clearing ==>
          t < n && Names(run, t, s.clearing[t]) && Added(t) in run[..n])
  }

  lemma {:induction false} TicketsStayKnown(cfg: Settings, run: seq<Event>, n: nat)
    requires n <= |run| && Legal(cfg, run, n)
    ensures TicketsKnown(run, n, After(cfg, run, n))
  {
    if n > 0 {
      TicketsStayKnown(cfg, run, n - 1);
      TicketsKnownStep(cfg, run, n - 1, After(cfg, run, n - 1));
    }
  }

  lemma TicketsKnownStep(cfg: Settings, run: seq<Event>, n: nat, s: State)
    requires n < |run| && TicketsKnown(run, n, s) && Enabled(s, run[n])
    ensures TicketsKnown(run, n + 1, Step(cfg, s, run[n], n))
  {
  }

  /** A tracker is cleared only after its address was added to the set. */
  lemma ClearedOnlyAfterAdded(cfg: Settings, run: seq<Event>, n: nat)
    requires n < |run| && Legal(cfg, run, n + 1) && run[n].Cleared?
    ensures Added(run[n].ticket) in run[..n]
  {
    TicketsStayKnown(cfg, run, n);
  }

  /** The step decides the request of that ticket, one way or the other. */
  ghost predicate Decides(e: Event, t: nat) {
    e == Added(t) || e == AddFailed(t)
  }

  ghost predicate Undecided(run: seq<Event>, n: nat, t: nat)
    requires n <= |run|
  {
    forall i :: 0 <= i < n ==> !Decides(run[i], t)
  }

  ghost predicate Uncleared(run: seq<Event>, n: nat, t: nat)
    requires n <= |run|
  {
    forall i :: 0 <= i < n ==> run[i] != Cleared(t)
  }

  /** A ticket waits to be decided, then to be cleared, and never goes back. */
  ghost predicate InTurn(run: seq<Event>, n: nat, s: State, t: nat)
    requires n <= |run|
  {
    (t in s.adding ==> t !in s.clearing && Undecided(run, n, t) && Uncleared(run, n, t))
    && (t in s.clearing ==> Uncleared(run, n, t))
    && (t >= n ==> Undecided(run, n, t) && Uncleared(run, n, t))
  }

  lemma InTurnStep(cfg: Settings, run: seq<Event>, n: nat, s: State, t: nat)
    requires n < |run| && Enabled(s, run[n]) && TicketsKnown(run, n, s) && InTurn(run, n, s, t)
    ensures InTurn(run, n + 1, Step(cfg, s, run[n], n), t)
  {
  }

  lemma {:induction false} TicketsTakeTurns(cfg: Settings, run: seq<Event>, n: nat, t: nat)
    requires n <= |run| && Legal(cfg, run, n)
    ensures InTurn(run, n, After(cfg, run, n), t)
  {
    if n > 0 {
      TicketsTakeTurns(cfg, run, n - 1, t);
      TicketsStayKnown(cfg, run, n - 1);
      InTurnStep(cfg, run, n - 1, After(cfg, run, n - 1), t);
    }
  }

  /** Every request is decided at most once and clears the tracker at most once. */
  lemma DecidedOnce(cfg: Settings, run: seq<Event>, n: nat, t: nat)
    requires n < |run| && Legal(cfg, run, n + 1)
    ensures Decides(run[n], t) ==> Undecided(run, n, t)
    ensures run[n] == Cleared(t) ==> Uncleared(run, n, t)
  {
    TicketsTakeTurns(cfg, run, n, t);
  }

  /** A request made by hand is opened exactly when there is a blocker. */
  lemma ManualRequestOpens(cfg: Settings, run: seq<Event>, n: nat)
    requires n < |run| && Legal(cfg, run, n + 1) && run[n].Request?
    ensures n in After(cfg, run, n + 1).adding <==> cfg.hasBlocker
    ensures cfg.hasBlocker ==> After(cfg, run, n + 1).adding[n] == run[n].ip
  {
    TicketsStayKnown(cfg, run, n);
  }

  // ----- The pruned list in terms of the history -----

  lemma {:induction false} HistoryMembers(run: seq<Event>, n: nat, ip: string)
    requires n <= |run|
    ensures forall t :: t in History(run, n, ip) ==>
              exists i :: 0 <= i < n && IsFail(run, i, ip) && run[i].now == t
  {
    if n > 0 {
      HistoryMembers(run, n - 1, ip);
      if IsFail(run, n - 1, ip) {
        forall t | t in History(run, n, ip)
          ensures exists i :: 0 <= i < n && IsFail(run, i, ip) && run[i].now == t
        {
          if t !in History(run, n - 1, ip) {
            assert IsFail(run, n - 1, ip) && run[n - 1].now == t;
          }
        }
      }
    }
  }

  /** No reading recorded after the `i`-th, nor that one itself, is more than a window later. */
  ghost predicate Survives(h: seq<int>, window: int, i: int)
    requires 0 <= i < |h|
  {
    forall j :: i <= j < |h| ==> h[j] - h[i] <= window
  }

  /** The survivors among the first `m` readings, in order. */
  ghost function Survivors(h: seq<int>, window: int, m: nat): seq<int>
    requires m <= |h|
  {
    if m == 0 then []
    else if Survives(h, window, m - 1) then Survivors(h, window, m - 1) + [h[m - 1]]
    else Survivors(h, window, m - 1)
  }

  lemma SurvivesOneMore(h: seq<int>, window: int, now: int, i: int)
    requires 0 <= i < |h|
    ensures Survives(h + [now], window, i) <==> Survives(h, window, i) && now - h[i] <= window
  {
    var all := h + [now];
    assert all[|h|] == now && forall j :: 0 <= j < |h| ==> all[j] == h[j];
  }

  lemma {:induction false} SurvivorsOneMore(h: seq<int>, window: int, now: int, m: nat)
    requires m <= |h|
    ensures Survivors(h + [now], window, m)
         == Filter(Survivors(h, window, m), InWindow(now, window))
  {
    if m > 0 {
      SurvivorsOneMore(h, window, now, m - 1);
      SurvivesOneMore(h, window, now, m - 1);
      FilterSnoc(Survivors(h, window, m - 1), h[m - 1], InWindow(now, window));
    }
  }

  lemma KeptSurvivors(h: seq<int>, window: int, now: int)
    ensures Kept(Survivors(h, window, |h|), window, now)
         == Survivors(h + [now], window, |h| + 1)
  {
    SurvivorsOneMore(h, window, now, |h|);
    FilterSnoc(Survivors(h, window, |h|), now, InWindow(now, window));
    assert (h + [now])[|h|] == now;
  }

  /** The tracker is there while the history since the last clear is not empty, and holds its
      survivors. */
  ghost predicate Tracks(cfg: Settings, h: seq<int>, trackers: Trackers, ip: string) {
    (h == [] <==> ip !in trackers)
    && (h != [] ==>
          trackers[ip].last == h[|h| - 1] && trackers[ip].count == |trackers[ip].times|
          && trackers[ip].times == Survivors(h, cfg.window, |h|))
  }

  lemma RecordTracks(cfg: Settings, h: seq<int>, trackers: Trackers, ip: string, now: int)
    requires Tracks(cfg, h, trackers, ip)
    ensures Tracks(cfg, h + [now], trackers[ip := Recorded(trackers, cfg.window, ip, now)], ip)
  {
    KeptSurvivors(h, cfg.window, now);
  }

  ghost predicate SameAt(xs: Trackers, ys: Trackers, ip: string) {
    (ip in xs <==> ip in ys) && (ip in xs ==> xs[ip] == ys[ip])
  }

  /** What one step does to one address's tracker. */
  lemma StepAt(cfg: Settings, s: State, e: Event, position: nat, ip: string)
    requires Enabled(s, e) && !IsLocal(ip)
    ensures var after := Step(cfg, s, e, position).attempts;
            if e.Fail? && e.ip == ip then
              after == s.attempts[ip := Recorded(s.attempts, cfg.window, ip, e.now)]
            else if e.Cleared? && s.clearing[e.ticket] == ip then ip !in after
            else SameAt(after, s.attempts, ip)
  {
  }

  lemma {:induction false} LocalUntracked(cfg: Settings, run: seq<Event>, n: nat, ip: string)
    requires n <= |run| && Legal(cfg, run, n) && IsLocal(ip)
    ensures ip !in After(cfg, run, n).attempts && History(run, n, ip) == []
  {
    if n > 0 {
      LocalUntracked(cfg, run, n - 1, ip);
    }
  }

  /** The same over a run, in terms of what happened. */
  lemma TrackersStep(cfg: Settings, run: seq<Event>, n: nat, ip: string)
    requires n < |run| && Legal(cfg, run, n + 1) && !IsLocal(ip)
    ensures var before, after := After(cfg, run, n).attempts, After(cfg, run, n + 1).attempts;
            if IsFail(run, n, ip) then
              after == before[ip := Recorded(before, cfg.window, ip, run[n].now)]
            else if run[n].Cleared? && Names(run, run[n].ticket, ip) then ip !in after
            else SameAt(after, before, ip)
  {
    TicketsStayKnown(cfg, run, n);
    StepAt(cfg, After(cfg, run, n), run[n], n, ip);
  }

  /** For every run and every order of clock readings, the incrementally pruned list is the history
      since the last clear without the readings that some later-recorded one left behind. */
  lemma {:induction false} PrunedListIsSurvivors(
    cfg: Settings, run: seq<Event>, n: nat, ip: string)
    requires n <= |run| && Legal(cfg, run, n)
    ensures Tracks(cfg, History(run, n, ip), After(cfg, run, n).attempts, ip)
  {
    if IsLocal(ip) {
      LocalUntracked(cfg, run, n, ip);
    } else if n > 0 {
      PrunedListIsSurvivors(cfg, run, n - 1, ip);
      TrackersStep(cfg, run, n - 1, ip);
      if IsFail(run, n - 1, ip) {
        RecordTracks(cfg, History(run, n - 1, ip), After(cfg, run, n - 1).attempts, ip,
                     run[n - 1].now);
      }
    }
  }

  lemma TimesAreSurvivors(cfg: Settings, run: seq<Event>, n: nat, ip: string)
    requires n <= |run| && Legal(cfg, run, n)
    ensures var h := History(run, n, ip);
            Times(After(cfg, run, n).attempts, ip) == Survivors(h, cfg.window, |h|)
  {
    PrunedListIsSurvivors(cfg, run, n, ip);
  }

  ghost predicate Ordered(h: seq<int>) {
    forall i, j :: 0 <= i < j < |h| ==> h[i] <= h[j]
  }

  ghost predicate NoneLater(times: seq<int>, now: int) {
    forall i :: 0 <= i < |times| ==> times[i] <= now
  }

  lemma EarlierAttempts(run: seq<Event>, n: nat, ip: string)
    requires n < |run| && InOrder(run, n + 1, ip) && IsFail(run, n, ip)
    ensures NoneLater(History(run, n, ip), run[n].now)
  {
    HistoryMembers(run, n, ip);
    var h := History(run, n, ip);
    forall i | 0 <= i < |h|
      ensures h[i] <= run[n].now
    {
      assert h[i] in h;
    }
  }

  lemma OrderedSnoc(h: seq<int>, now: int)
    requires Ordered(h) && NoneLater(h, now)
    ensures Ordered(h + [now])
  {
  }

  lemma {:induction false} HistoryOrdered(run: seq<Event>, n: nat, ip: string)
    requires n <= |run| && InOrder(run, n, ip)
    ensures Ordered(History(run, n, ip))
  {
    if n > 0 {
      assert InOrder(run, n - 1, ip);
      HistoryOrdered(run, n - 1, ip);
      if IsFail(run, n - 1, ip) {
        EarlierAttempts(run, n - 1, ip);
        OrderedSnoc(History(run, n - 1, ip), run[n - 1].now);
      }
    }
  }

  lemma {:induction false} OrderedSurvivors(h: seq<int>, window: int, m: nat)
    requires Ordered(h) && h != [] && m <= |h|
    ensures Survivors(h, window, m) == Filter(h[..m], InWindow(h[|h| - 1], window))
  {
    if m > 0 {
      OrderedSurvivors(h, window, m - 1);
      assert h[..m][..m - 1] == h[..m - 1];
      assert Survives(h, window, m - 1) <==> h[|h| - 1] - h[m - 1] <= window;
    }
  }

  /** The readings of the history that lie in the window ending at the latest one. */
  ghost function Windowed(h: seq<int>, window: int): seq<int> {
    if h == [] then [] else Filter(h, InWindow(h[|h| - 1], window))
  }

  /** When the readings reach the lock in order, that is the history filtered by the current
      window. */
  lemma PrunedListIsWindowedHistory(cfg: Settings, run: seq<Event>, n: nat, ip: string)
    requires n <= |run| && Legal(cfg, run, n) && InOrder(run, n, ip)
    ensures Times(After(cfg, run, n).attempts, ip) == Windowed(History(run, n, ip), cfg.window)
  {
    var h := History(run, n, ip);
    TimesAreSurvivors(cfg, run, n, ip);
    HistoryOrdered(run, n, ip);
    if h != [] {
      OrderedSurvivors(h, cfg.window, |h|);
      assert h[..|h|] == h;
    }
  }

  // ----- Automatic blocks are earned -----

  /** How many readings lie in [from, to]. */
  ghost function Between(times: seq<int>, from: int, to: int): nat {
    if times == [] then 0
    else
      Between(times[..|times| - 1], from, to)
      + (if from <= times[|times| - 1] <= to then 1 else 0)
  }

  lemma BetweenSnoc(times: seq<int>, t: int, from: int, to: int)
    ensures Between(times + [t], from, to)
         == Between(times, from, to) + (if from <= t <= to then 1 else 0)
  {
  }

  ghost predicate Inside(times: seq<int>, from: int, to: int) {
    forall i :: 0 <= i < |times| ==> from <= times[i] <= to
  }

  lemma {:induction false} BetweenAll(times: seq<int>, from: int, to: int)
    ensures Between(times, from, to) <= |times|
    ensures Between(times, from, to) == |times| <==> Inside(times, from, to)
  {
    if times != [] {
      var init, last := times[..|times| - 1], times[|times| - 1];
      BetweenAll(init, from, to);
      assert Inside(times, from, to) <==> Inside(init, from, to) && from <= last <= to by {
        assert forall i :: 0 <= i < |init| ==> init[i] == times[i];
      }
    }
  }

  lemma {:induction false} BetweenFilter(times: seq<int>, p: int -> bool, from: int, to: int)
    ensures Between(Filter(times, p), from, to) <= Between(times, from, to)
  {
    if times != [] {
      var init, last := times[..|times| - 1], times[|times| - 1];
      BetweenFilter(init, p, from, to);
      if p(last) {
        BetweenSnoc(Filter(init, p), last, from, to);
      } else {
        assert Filter(times, p) == Filter(init, p);
      }
    }
  }

  /** The readings a tracker holds were all recorded: no interval holds more of them than
      failures. */
  lemma {:induction false} TrackedWereRecorded(
    cfg: Settings, run: seq<Event>, n: nat, ip: string, from: int, to: int)
    requires n <= |run| && Legal(cfg, run, n)
    ensures Between(Times(After(cfg, run, n).attempts, ip), from, to)
         <= FailsBetween(run, n, ip, from, to)
  {
    if IsLocal(ip) {
      LocalUntracked(cfg, run, n, ip);
    } else if n > 0 {
      TrackedWereRecorded(cfg, run, n - 1, ip, from, to);
      TrackersStep(cfg, run, n - 1, ip);
      if IsFail(run, n - 1, ip) {
        var held := Times(After(cfg, run, n - 1).attempts, ip);
        KeptCounts(held, cfg.window, run[n - 1].now, from, to);
      }
    }
  }

  lemma KeptCounts(times: seq<int>, window: int, now: int, from: int, to: int)
    ensures Between(Kept(times, window, now), from, to)
         <= Between(times, from, to) + (if from <= now <= to then 1 else 0)
  {
    BetweenSnoc(times, now, from, to);
    BetweenFilter(times + [now], InWindow(now, window), from, to);
  }

  /** The ticket of an automatic request was earned: `threshold` failures within one window. */
  ghost predicate Earned(cfg: Settings, run: seq<Event>, ticket: nat) {
    ticket < |run| && run[ticket].Fail? && !IsLocal(run[ticket].ip)
    && FailsBetween(run, ticket + 1, run[ticket].ip, run[ticket].now - cfg.window, run[ticket].now)
       >= run[ticket].threshold
  }

  /** When the call of step `n` gets the lock, its tracker holds no reading later than its own. */
  ghost predicate NoLaterReading(cfg: Settings, run: seq<Event>, n: nat)
    requires n < |run| && Legal(cfg, run, n) && run[n].Fail?
  {
    NoneLater(Times(After(cfg, run, n).attempts, run[n].ip), run[n].now)
  }

  lemma KeptMembers(times: seq<int>, window: int, now: int, t: int)
    ensures t in Kept(times, window, now) <==> (t in times || t == now) && now - t <= window
  {
    FilterMembers(times + [now], InWindow(now, window));
    assert t in times + [now] <==> t in times || t == now;
  }

  /** What is kept of readings that are not later than `now` lies inside the window. */
  lemma KeptInside(times: seq<int>, window: int, now: int)
    requires NoneLater(times, now)
    ensures Between(Kept(times, window, now), now - window, now) == |Kept(times, window, now)|
  {
    var kept := Kept(times, window, now);
    forall i | 0 <= i < |kept|
      ensures now - window <= kept[i] <= now
    {
      KeptMembers(times, window, now, kept[i]);
    }
    BetweenAll(kept, now - window, now);
  }

  /** What a call keeps of its address's readings. */
  lemma FailKeeps(cfg: Settings, s: State, e: Event, n: nat)
    requires e.Fail? && !IsLocal(e.ip)
    ensures Times(Step(cfg, s, e, n).attempts, e.ip)
         == Kept(Times(s.attempts, e.ip), cfg.window, e.now)
    ensures n !in s.adding ==>
              (n in Step(cfg, s, e, n).adding
               <==> cfg.hasBlocker
                    && |Times(Step(cfg, s, e, n).attempts, e.ip)| >= e.threshold)
  {
  }

  /** A call starts a request exactly when the surviving history reaches its threshold. */
  lemma RequestedIff(cfg: Settings, run: seq<Event>, n: nat)
    requires n < |run| && Legal(cfg, run, n + 1) && run[n].Fail? && !IsLocal(run[n].ip)
    ensures var h := History(run, n + 1, run[n].ip);
            n in After(cfg, run, n + 1).adding
            <==> cfg.hasBlocker && |Survivors(h, cfg.window, |h|)| >= run[n].threshold
  {
    TicketsStayKnown(cfg, run, n);
    FailKeeps(cfg, After(cfg, run, n), run[n], n);
    TimesAreSurvivors(cfg, run, n + 1, run[n].ip);
  }

  /** With ordered readings: exactly when the failures since the last clear that lie in the window
      reach its threshold. So no block that is due is left out. */
  lemma RequestedIffWindowed(cfg: Settings, run: seq<Event>, n: nat)
    requires n < |run| && Legal(cfg, run, n + 1) && run[n].Fail? && !IsLocal(run[n].ip)
    requires InOrder(run, n + 1, run[n].ip)
    ensures n in After(cfg, run, n + 1).adding
        <==> cfg.hasBlocker
             && |Windowed(History(run, n + 1, run[n].ip), cfg.window)| >= run[n].threshold
  {
    RequestedIff(cfg, run, n);
    TimesAreSurvivors(cfg, run, n + 1, run[n].ip);
    PrunedListIsWindowedHistory(cfg, run, n + 1, run[n].ip);
  }

  lemma OpenedByRemote(cfg: Settings, s: State, e: Event, n: nat)
    requires e.Fail? && n !in s.adding && n in Step(cfg, s, e, n).adding
    ensures !IsLocal(e.ip)
  {
  }

  /** Enough readings kept, none later than the call's own, and all of them recorded. */
  lemma EnoughKept(cfg: Settings, run: seq<Event>, n: nat, held: seq<int>, kept: seq<int>)
    requires n < |run| && run[n].Fail? && !IsLocal(run[n].ip) && NoneLater(held, run[n].now)
    requires kept == Kept(held, cfg.window, run[n].now) && |kept| >= run[n].threshold
    requires Between(kept, run[n].now - cfg.window, run[n].now)
          <= FailsBetween(run, n + 1, run[n].ip, run[n].now - cfg.window, run[n].now)
    ensures Earned(cfg, run, n)
  {
    KeptInside(held, cfg.window, run[n].now);
  }

  lemma FailEarns(cfg: Settings, run: seq<Event>, n: nat)
    requires n < |run| && Legal(cfg, run, n + 1) && run[n].Fail? && NoLaterReading(cfg, run, n)
    requires n in After(cfg, run, n + 1).adding
    ensures Earned(cfg, run, n)
  {
    var s, ip, now := After(cfg, run, n), run[n].ip, run[n].now;
    TicketsStayKnown(cfg, run, n);
    OpenedByRemote(cfg, s, run[n], n);
    FailKeeps(cfg, s, run[n], n);
    TrackedWereRecorded(cfg, run, n + 1, ip, now - cfg.window, now);
    EnoughKept(cfg, run, n, Times(s.attempts, ip), Times(After(cfg, run, n + 1).attempts, ip));
  }

  lemma {:induction false} LegalPrefix(cfg: Settings, run: seq<Event>, m: nat, n: nat)
    requires m <= n <= |run| && Legal(cfg, run, n)
    ensures Legal(cfg, run, m)
  {
    if m < n {
      LegalPrefix(cfg, run, m, n - 1);
    }
  }

  lemma {:induction false} OpenTicketsEarned(cfg: Settings, run: seq<Event>, n: nat, t: nat)
    requires n <= |run| && Legal(cfg, run, n)
    requires t in After(cfg, run, n).adding && t < n && run[t].Fail?
    requires Legal(cfg, run, t) && NoLaterReading(cfg, run, t)
    ensures Earned(cfg, run, t)
  {
    if t == n - 1 {
      FailEarns(cfg, run, t);
    } else {
      AlreadyOpen(cfg, After(cfg, run, n - 1), run[n - 1], n - 1, t);
      OpenTicketsEarned(cfg, run, n - 1, t);
    }
  }

  lemma AlreadyOpen(cfg: Settings, s: State, e: Event, position: nat, t: nat)
    requires t != position && Enabled(s, e) && t in Step(cfg, s, e, position).adding
    ensures t in s.adding
  {
  }

  /** Over every interleaving, an address added by an automatic request had at least `threshold`
      recorded failures inside one window, all before the request, unless the tracker held a later
      reading when the request started. */
  lemma AutomaticBlockIsEarned(cfg: Settings, run: seq<Event>, n: nat)
    requires n < |run| && Legal(cfg, run, n + 1) && run[n].Added?
    ensures var t := run[n].ticket;
            t < n && Legal(cfg, run, t)
            && (run[t].Fail? && NoLaterReading(cfg, run, t) ==> Earned(cfg, run, t))
  {
    var t := run[n].ticket;
    TicketsStayKnown(cfg, run, n);
    LegalPrefix(cfg, run, t, n);
    if run[t].Fail? && NoLaterReading(cfg, run, t) {
      OpenTicketsEarned(cfg, run, n, t);
    }
  }

  /** With ordered readings of the address no tracker ever holds a later one. */
  lemma OrderedMeansNoLater(cfg: Settings, run: seq<Event>, n: nat)
    requires n < |run| && Legal(cfg, run, n) && run[n].Fail? && InOrder(run, n + 1, run[n].ip)
    ensures NoLaterReading(cfg, run, n)
  {
    var ip := run[n].ip;
    if IsLocal(ip) {
      LocalUntracked(cfg, run, n, ip);
    } else {
      TimesAreSurvivors(cfg, run, n, ip);
      EarlierAttempts(run, n, ip);
      SurvivorsNoneLater(History(run, n, ip), cfg.window, |History(run, n, ip)|, run[n].now);
    }
  }

  lemma {:induction false} SurvivorsNoneLater(h: seq<int>, window: int, m: nat, now: int)
    requires m <= |h| && NoneLater(h, now)
    ensures NoneLater(Survivors(h, window, m), now)
  {
    if m > 0 {
      SurvivorsNoneLater(h, window, m - 1, now);
    }
  }

  /** All readings of the address among the first `n` steps. */
  ghost function Readings(run: seq<Event>, n: nat, ip: string): seq<int>
    requires n <= |run|
  {
    if n == 0 then []
    else if IsFail(run, n - 1, ip) then Readings(run, n - 1, ip) + [run[n - 1].now]
    else Readings(run, n - 1, ip)
  }

  lemma {:induction false} ReadingsCounted(
    run: seq<Event>, n: nat, ip: string, from: int, to: int)
    requires n <= |run|
    ensures FailsBetween(run, n, ip, from, to) == Between(Readings(run, n, ip), from, to)
  {
    if n > 0 {
      ReadingsCounted(run, n - 1, ip, from, to);
      if IsFail(run, n - 1, ip) {
        BetweenSnoc(Readings(run, n - 1, ip), run[n - 1].now, from, to);
      }
    }
  }

  /** How many of the readings are later than `now`. */
  ghost function Later(times: seq<int>, now: int): nat {
    if times == [] then 0
    else Later(times[..|times| - 1], now) + (if times[|times| - 1] > now then 1 else 0)
  }

  lemma {:induction false} LaterNone(times: seq<int>, now: int)
    ensures Later(times, now) == 0 <==> NoneLater(times, now)
  {
    if times != [] {
      var init := times[..|times| - 1];
      LaterNone(init, now);
      assert forall i :: 0 <= i < |init| ==> init[i] == times[i];
    }
  }

  /** With a window of at least nothing, what is kept is what lies in the window and what is
      later. */
  lemma {:induction false} FilterSplits(times: seq<int>, window: int, now: int)
    requires window >= 0
    ensures var kept := Filter(times, InWindow(now, window));
            |kept| == Between(kept, now - window, now) + Later(times, now)
  {
    if times != [] {
      var init, last := times[..|times| - 1], times[|times| - 1];
      var kept := Filter(init, InWindow(now, window));
      FilterSplits(init, window, now);
      if InWindow(now, window)(last) {
        BetweenSnoc(kept, last, now - window, now);
      } else {
        assert Filter(times, InWindow(now, window)) == kept;
      }
    }
  }

  lemma KeptSplits(times: seq<int>, window: int, now: int)
    requires window >= 0
    ensures |Kept(times, window, now)|
         == Between(Kept(times, window, now), now - window, now) + Later(times, now)
  {
    FilterSplits(times + [now], window, now);
    assert (times + [now])[..|times|] == times;
  }

  /** The readings hold as many failures of the window as happened. */
  ghost predicate CountsWindow(cfg: Settings, run: seq<Event>, n: nat, kept: seq<int>)
    requires n < |run| && run[n].Fail?
  {
    FailsBetween(run, n + 1, run[n].ip, run[n].now - cfg.window, run[n].now)
    == Between(kept, run[n].now - cfg.window, run[n].now)
  }

  /** The tracker still holds the failures of the window that ends at step `n`'s reading: none of
      them was dropped or cleared. */
  ghost predicate HoldsWindow(cfg: Settings, run: seq<Event>, n: nat)
    requires n < |run| && Legal(cfg, run, n + 1) && run[n].Fail?
  {
    CountsWindow(cfg, run, n, Times(After(cfg, run, n + 1).attempts, run[n].ip))
  }

  lemma EarnedByCount(cfg: Settings, run: seq<Event>, n: nat, held: seq<int>, kept: seq<int>)
    requires n < |run| && run[n].Fail? && !IsLocal(run[n].ip) && cfg.window >= 0
    requires kept == Kept(held, cfg.window, run[n].now) && CountsWindow(cfg, run, n, kept)
    ensures Earned(cfg, run, n) <==> |kept| - Later(held, run[n].now) >= run[n].threshold
  {
    KeptSplits(held, cfg.window, run[n].now);
  }

  /** For such a tracker the exact condition: what it keeps, less the later readings it held,
      reaches the threshold. */
  lemma EarnedIffEnoughTimely(cfg: Settings, run: seq<Event>, n: nat)
    requires n < |run| && Legal(cfg, run, n + 1) && run[n].Fail? && !IsLocal(run[n].ip)
    ensures var kept := Times(After(cfg, run, n + 1).attempts, run[n].ip);
            var held := Times(After(cfg, run, n).attempts, run[n].ip);
            cfg.window >= 0 && HoldsWindow(cfg, run, n) ==>
              (Earned(cfg, run, n) <==> |kept| - Later(held, run[n].now) >= run[n].threshold)
  {
    if cfg.window >= 0 && HoldsWindow(cfg, run, n) {
      FailKeeps(cfg, After(cfg, run, n), run[n], n);
      EarnedByCount(cfg, run, n, Times(After(cfg, run, n).attempts, run[n].ip),
                    Times(After(cfg, run, n + 1).attempts, run[n].ip));
    }
  }

  /** The tracker still holds every reading of the address, the one of step `n` included. */
  ghost predicate HoldsAll(cfg: Settings, run: seq<Event>, n: nat)
    requires n < |run| && Legal(cfg, run, n + 1) && run[n].Fail?
  {
    Times(After(cfg, run, n + 1).attempts, run[n].ip) == Readings(run, n + 1, run[n].ip)
  }

  lemma AllCounted(run: seq<Event>, n: nat, ip: string, held: seq<int>, from: int, to: int)
    requires n <= |run|
    ensures held == Readings(run, n, ip) ==>
              FailsBetween(run, n, ip, from, to) == Between(held, from, to)
  {
    ReadingsCounted(run, n, ip, from, to);
  }

  lemma HoldsAllHoldsWindow(cfg: Settings, run: seq<Event>, n: nat)
    requires n < |run| && Legal(cfg, run, n + 1) && run[n].Fail?
    ensures HoldsAll(cfg, run, n) ==> HoldsWindow(cfg, run, n)
  {
    AllCounted(run, n + 1, run[n].ip, Times(After(cfg, run, n + 1).attempts, run[n].ip),
               run[n].now - cfg.window, run[n].now);
  }

  lemma HoldsAllWindow(cfg: Settings, run: seq<Event>, n: nat)
    requires n < |run| && Legal(cfg, run, n + 1) && run[n].Fail? && !IsLocal(run[n].ip)
    ensures HoldsAll(cfg, run, n) ==> cfg.window >= 0
  {
    LastReading(run, n);
    OwnReadingKept(cfg, After(cfg, run, n), run[n], n);
  }

  lemma OwnReadingKept(cfg: Settings, s: State, e: Event, n: nat)
    requires e.Fail? && !IsLocal(e.ip)
    ensures e.now in Times(Step(cfg, s, e, n).attempts, e.ip) ==> cfg.window >= 0
  {
    FailKeeps(cfg, s, e, n);
    KeptMembers(Times(s.attempts, e.ip), cfg.window, e.now, e.now);
  }

  /** At the threshold, and with nothing dropped or cleared: earned if and only if the tracker held
      no later reading. */
  lemma EarnedIffNoLaterReading(cfg: Settings, run: seq<Event>, n: nat)
    requires n < |run| && Legal(cfg, run, n + 1) && run[n].Fail? && !IsLocal(run[n].ip)
    ensures HoldsAll(cfg, run, n)
            && run[n].threshold == |Times(After(cfg, run, n + 1).attempts, run[n].ip)| ==>
              (Earned(cfg, run, n) <==> NoLaterReading(cfg, run, n))
  {
    HoldsAllHoldsWindow(cfg, run, n);
    HoldsAllWindow(cfg, run, n);
    EarnedIffEnoughTimely(cfg, run, n);
    LaterNone(Times(After(cfg, run, n).attempts, run[n].ip), run[n].now);
  }

  lemma LastReading(run: seq<Event>, n: nat)
    requires n < |run| && run[n].Fail? && !IsLocal(run[n].ip)
    ensures run[n].now in Readings(run, n + 1, run[n].ip)
  {
    assert Readings(run, n + 1, run[n].ip) == Readings(run, n, run[n].ip) + [run[n].now];
  }

  /** The condition can fail: the clock is read before the lock is taken, so a call that
      was overtaken brings an old reading. Here two attempts far apart in time trigger a block. */
  lemma StaleReadingBlocksTooEarly(ip: string)
    requires !IsLocal(ip)
    ensures var cfg := Settings(10, true);
            var run := [Fail(ip, 1000, 2), Fail(ip, 0, 2), Added(1)];
            Legal(cfg, run, 3) && !Earned(cfg, run, 1)
  {
    var cfg := Settings(10, true);
    var run := [Fail(ip, 1000, 2), Fail(ip, 0, 2), Added(1)];
    TwoOutOfOrder();
    assert Legal(cfg, run, 0);
    assert Legal(cfg, run, 1);
    assert After(cfg, run, 1).attempts == map[][ip := Tracker(1, 1000, [1000])];
    assert Recorded(After(cfg, run, 1).attempts, 10, ip, 0) == Tracker(2, 0, [1000, 0]);
    assert Legal(cfg, run, 2);
    assert 1 in After(cfg, run, 2).adding;
    assert FailsBetween(run, 0, ip, -10, 0) == 0;
    assert FailsBetween(run, 1, ip, -10, 0) == 0;
    assert FailsBetween(run, 2, ip, -10, 0) == 1;
  }

  lemma TwoOutOfOrder()
    ensures Kept([], 10, 1000) == [1000] && Kept([1000], 10, 0) == [1000, 0]
  {
    FilterAll([] + [1000], InWindow(1000, 10));
    FilterAll([1000] + [0], InWindow(0, 10));
  }

  /** The two loopback addresses are never tracked, and every other address that fails is. */
  lemma LoopbackIsExempt(cfg: Settings, run: seq<Event>, n: nat)
    requires n <= |run| && Legal(cfg, run, n)
    ensures "127.0.0.1" !in After(cfg, run, n).attempts && "::1" !in After(cfg, run, n).attempts
    ensures n > 0 && run[n - 1].Fail? && run[n - 1].ip != "127.0.0.1" && run[n - 1].ip != "::1" ==>
              run[n - 1].ip in After(cfg, run, n).attempts
  {
    LocalUntracked(cfg, run, n, "127.0.0.1");
    LocalUntracked(cfg, run, n, "::1");
  }

  // ----- The blocked set -----

  /** `ip` was added by the request of step `j` and not taken out again before step `n`. */
  ghost predicate BlockedSince(run: seq<Event>, j: nat, n: nat, ip: string)
    requires n <= |run|
  {
    j < n && run[j].Added? && Names(run, run[j].ticket, ip) && Unblocked(ip) !in run[j..n]
  }

  /** The set holds exactly the addresses that were added and not unblocked since. */
  lemma {:induction false} BlockedIff(cfg: Settings, run: seq<Event>, n: nat, ip: string)
    requires n <= |run| && Legal(cfg, run, n)
    ensures ip in After(cfg, run, n).blocked <==> exists j :: BlockedSince(run, j, n, ip)
  {
    if n > 0 {
      var m: nat, e := n - 1, run[n - 1];
      BlockedIff(cfg, run, m, ip);
      TicketsStayKnown(cfg, run, m);
      forall j: nat | j < m
        ensures BlockedSince(run, j, n, ip) <==> BlockedSince(run, j, m, ip) && e != Unblocked(ip)
      {
        assert run[j..n] == run[j..m] + [e];
      }
      if e.Added? && After(cfg, run, m).adding[e.ticket] == ip {
        assert run[m..n] == [e];
        assert BlockedSince(run, m, n, ip);
      } else if ip in After(cfg, run, m).blocked {
        var j :| BlockedSince(run, j, m, ip);
        assert BlockedSince(run, j, n, ip) <==> e != Unblocked(ip);
      }
    }
  }
}
