/**
  The election that names the one server all writes go to (`resolve_write_target` in
  freeipa.rs), and what it promises about a whole run of the agent.

  A run is a log of what every call and login turned out to be, on whichever server it was
  aimed at, in clock order. The health of a server is what its part of the log has left in
  its record.
*/
module WriteTarget {
  import opened Wrappers
  import opened ServerHealth

  datatype Target = Any | Named(url: string)

  datatype Config = Config(server: Option<string>, window: int)

  datatype LogEntry = LogEntry(server: string, event: Event)

  /** The first server in configuration order, other than `except`, that may take writes. */
  function FirstFit(pool: seq<string>, health: map<string, Health>, except: string, window: int, now: int)
    : Option<string>
    requires forall s | s in pool :: s in health
  {
    if pool == [] then None
    else if pool[0] != except && health[pool[0]].CanTakeWrites(window, now) then Some(pool[0])
    else FirstFit(pool[1..], health, except, window, now)
  }

  function OrElse(replacement: Option<string>, writeServer: string): Target {
    match replacement
    case Some(url) => Named(url)
    case None => Named(writeServer)
  }

  function Resolve(pool: seq<string>, health: map<string, Health>, config: Config, now: int): Target
    requires forall s | s in pool :: s in health
  {
    match config.server
    case None => Any
    case Some(w) =>
      if w !in pool then Any
      else if health[w].CanTakeWrites(config.window, now) then Named(w)
      else
        var replacement := FirstFit(pool, health, w, config.window, now);
        match health[w].DownFor(now)
        case None => OrElse(replacement, w)
        case Some(t) => if t < config.window then Named(w) else OrElse(replacement, w)
  }

  // ---- The same decision read off the log ----

  /** The events of one server, in order. */
  function History(log: seq<LogEntry>, s: string): seq<Event> {
    if log == [] then []
    else
      var earlier := History(log[..|log| - 1], s);
      if log[|log| - 1].server == s then earlier + [log[|log| - 1].event] else earlier
  }

  function HealthOf(log: seq<LogEntry>, pool: seq<string>): map<string, Health> {
    map s | s in pool :: Replay(History(log, s))
  }

  /** Times are positive, never go back, and none lies after `now`. */
  ghost predicate Clocked(log: seq<LogEntry>, now: int) {
    && (forall i | 0 <= i < |log| :: 0 < log[i].event.at <= now)
    && (forall i, j | 0 <= i < j < |log| :: log[i].event.at <= log[j].event.at)
  }

  ghost predicate Ordered(es: seq<Event>, now: int) {
    && (forall i | 0 <= i < |es| :: 0 < es[i].at <= now)
    && (forall i, j | 0 <= i < j < |es| :: es[i].at <= es[j].at)
  }

  /** Up, and every return from an outage lies at least a full window back. */
  ghost predicate UpForWindow(es: seq<Event>, window: int, now: int) {
    && !HasEvidence(Spell(es))
    && forall i | EndsOutage(es, i) :: es[i].at <= now - window
  }

  /** The current outage began at least a full window ago. */
  ghost predicate DownForWindow(es: seq<Event>, window: int, now: int) {
    exists k :: FirstEvidence(Spell(es), k) && Spell(es)[k].at <= now - window
  }

  /** Up again, but for less than a window. */
  ghost predicate JustBack(es: seq<Event>, window: int, now: int) {
    && !HasEvidence(Spell(es))
    && exists i :: EndsOutage(es, i) && es[i].at > now - window
  }

  ghost predicate FirstUpForWindow(log: seq<LogEntry>, pool: seq<string>, except: string, u: string,
                                   window: int, now: int)
  {
    exists i :: && 0 <= i < |pool| && pool[i] == u && u != except
                && UpForWindow(History(log, u), window, now)
                && forall j | 0 <= j < i :: pool[j] == except || !UpForWindow(History(log, pool[j]), window, now)
  }

  lemma {:induction false} HistoryOrdered(log: seq<LogEntry>, s: string, now: int)
    requires Clocked(log, now)
    ensures Ordered(History(log, s), now)
  {
    if log == [] {
    } else {
      var init, last := log[..|log| - 1], log[|log| - 1].event.at;
      assert Clocked(init, last);
      HistoryOrdered(init, s, last);
    }
  }

  lemma {:induction false} HistoryExtends(log: seq<LogEntry>, tail: seq<LogEntry>, s: string)
    ensures |History(log, s)| <= |History(log + tail, s)|
    ensures History(log + tail, s)[..|History(log, s)|] == History(log, s)
  {
    if tail == [] {
      assert log + tail == log;
    } else {
      var init := tail[..|tail| - 1];
      assert (log + tail)[..|log + tail| - 1] == log + init;
      HistoryExtends(log, init, s);
    }
  }

  lemma OrderedPositive(es: seq<Event>, now: int)
    requires Ordered(es, now)
    ensures forall e | e in es :: e.at > 0
  {}

  /** If any answer ended an outage, one of them was the last to. */
  lemma LastEnderExists(es: seq<Event>, i: int) returns (last: int)
    requires EndsOutage(es, i)
    ensures LastToEndOutage(es, last) && i <= last
    decreases |es| - i
  {
    last := i;
    if j :| i < j < |es| && EndsOutage(es, j) {
      last := LastEnderExists(es, j);
    }
  }

  lemma OneFirstEvidence(spell: seq<Event>, j: int, k: int)
    requires FirstEvidence(spell, j) && FirstEvidence(spell, k)
    ensures j == k
  {
    assert 0 <= j && 0 <= k;
  }

  lemma SpellIsSuffix(es: seq<Event>, k: int)
    requires 0 <= k < |Spell(es)|
    ensures |Spell(es)| <= |es| && Spell(es)[k] == es[|es| - |Spell(es)| + k]
  {
    SpellFollowsLastAnswer(es);
    hide Spell;
    var n := |es| - |Spell(es)|;
    assert es[n..][k] == es[n + k];
  }

  /** A server that is down has been since the first evidence of it. */
  lemma DownSinceFirst(es: seq<Event>, now: int) returns (first: int)
    requires Ordered(es, now) && HasEvidence(Spell(es))
    ensures FirstEvidence(Spell(es), first)
    ensures Replay(es).downSince == Spell(es)[first].at && 0 < Spell(es)[first].at <= now
  {
    OrderedPositive(es, now);
    DownSinceMeaning(es);
    hide Replay, Spell, CountTimeouts;
    var k :| IsEvidence(Spell(es), k);
    first := FirstEvidenceExists(Spell(es), k);
    assert 0 <= first < |Spell(es)|;
    hide IsEvidence;
    SpellIsSuffix(es, first);
  }

  lemma DownMeaning(es: seq<Event>, window: int, now: int)
    requires Ordered(es, now) && window >= 0 && HasEvidence(Spell(es))
    ensures Replay(es).downSince != 0
    ensures Elapsed(Replay(es).downSince, now) >= window <==> DownForWindow(es, window, now)
  {
    hide Replay, Spell, HasEvidence, Ordered;
    var first := DownSinceFirst(es, now);
    if k :| FirstEvidence(Spell(es), k) && Spell(es)[k].at <= now - window {
      OneFirstEvidence(Spell(es), k, first);
    }
  }

  lemma UpMeaning(es: seq<Event>, window: int, now: int)
    requires Ordered(es, now) && window >= 0 && !HasEvidence(Spell(es))
    ensures Replay(es).CanTakeWrites(window, now) <==> UpForWindow(es, window, now)
  {
    OrderedPositive(es, now);
    DownSinceMeaning(es);
    UpSinceMeaning(es);
    if i :| EndsOutage(es, i) {
      var last := LastEnderExists(es, i);
    }
  }

  /** What the record decides is what the history says. */
  lemma FitnessMeaning(es: seq<Event>, window: int, now: int)
    requires Ordered(es, now) && window >= 0
    ensures Replay(es).CanTakeWrites(window, now) <==> UpForWindow(es, window, now)
    ensures Replay(es).downSince == 0 <==> !HasEvidence(Spell(es))
    ensures HasEvidence(Spell(es)) ==>
              (Elapsed(Replay(es).downSince, now) >= window <==> DownForWindow(es, window, now))
    ensures !HasEvidence(Spell(es)) && !UpForWindow(es, window, now) ==> JustBack(es, window, now)
  {
    OrderedPositive(es, now);
    DownSinceMeaning(es);
    if HasEvidence(Spell(es)) {
      DownMeaning(es, window, now);
    } else {
      UpMeaning(es, window, now);
    }
  }

  lemma {:induction false} FirstFitMeaning(pool: seq<string>, log: seq<LogEntry>, all: seq<string>, w: string,
                                           window: int, now: int)
    requires Clocked(log, now) && window >= 0
    requires forall s | s in pool :: s in all
    ensures var r := FirstFit(pool, HealthOf(log, all), w, window, now);
            && (r.Some? ==> FirstUpForWindow(log, pool, w, r.value, window, now))
            && (r.None? ==> forall j | 0 <= j < |pool| ::
                pool[j] == w || !UpForWindow(History(log, pool[j]), window, now))
  {
    if pool == [] {
    } else {
      HistoryOrdered(log, pool[0], now);
      FitnessMeaning(History(log, pool[0]), window, now);
      FirstFitMeaning(pool[1..], log, all, w, window, now);
      var rest := FirstFit(pool[1..], HealthOf(log, all), w, window, now);
      if pool[0] != w && UpForWindow(History(log, pool[0]), window, now) {
        assert FirstUpForWindow(log, pool, w, pool[0], window, now);
      } else if rest.Some? {
        var i :| && 0 <= i < |pool[1..]| && pool[1..][i] == rest.value
                 && forall j | 0 <= j < i :: pool[1..][j] == w || !UpForWindow(History(log, pool[1..][j]), window, now);
        assert forall j | 0 < j < i + 1 :: pool[j] == pool[1..][j - 1];
        assert pool[i + 1] == rest.value;
      }
    }
  }

  lemma FirstUpUnique(log: seq<LogEntry>, pool: seq<string>, w: string, u: string, v: string, window: int, now: int)
    requires FirstUpForWindow(log, pool, w, u, window, now) && FirstUpForWindow(log, pool, w, v, window, now)
    ensures u == v
  {}

  /** The target of a write in a run of the agent. */
  ghost function TargetAfter(log: seq<LogEntry>, pool: seq<string>, w: string, window: int, now: int): Target {
    Resolve(pool, HealthOf(log, pool), Config(Some(w), window), now)
  }

  /**
    The exact failover rule, over every run: writes go to another server `u` if and only if
    the write server has been down for a full window or has been back for less than one, and
    `u` is the first other server that is up and has been for a full window. In every other
    case they go to the write server, whatever state it is in.
   */
  lemma FailoverRule(log: seq<LogEntry>, pool: seq<string>, w: string, window: int, now: int)
    requires Clocked(log, now) && w in pool && window >= 0
    ensures var es := History(log, w);
            var leaves := DownForWindow(es, window, now) || JustBack(es, window, now);
            && TargetAfter(log, pool, w, window, now).Named?
            && forall u | u != w ::
                 TargetAfter(log, pool, w, window, now) == Named(u)
                 <==> leaves && FirstUpForWindow(log, pool, w, u, window, now)
  {
    var es := History(log, w);
    HistoryOrdered(log, w, now);
    FitnessMeaning(es, window, now);
    FirstFitMeaning(pool, log, pool, w, window, now);
    var r := FirstFit(pool, HealthOf(log, pool), w, window, now);
    forall u | u != w && FirstUpForWindow(log, pool, w, u, window, now) ensures r == Some(u) {
      FirstUpUnique(log, pool, w, u, if r.Some? then r.value else u, window, now);
    }
    if k :| FirstEvidence(Spell(es), k) && Spell(es)[k].at <= now - window {
      assert HasEvidence(Spell(es));
    }
  }

  /** Every answer from the server lies at least a full window back. */
  ghost predicate SilentForWindow(es: seq<Event>, window: int, now: int) {
    forall i | 0 <= i < |es| && es[i].outcome == Answered :: es[i].at <= now - window
  }

  lemma DownForWindowIsSilent(es: seq<Event>, window: int, now: int)
    requires Ordered(es, now) && DownForWindow(es, window, now)
    ensures SilentForWindow(es, window, now)
  {
    SpellFollowsLastAnswer(es);
    var n := |es| - |Spell(es)|;
    var k :| FirstEvidence(Spell(es), k) && Spell(es)[k].at <= now - window;
    assert es[n + k] == Spell(es)[k];
  }

  /**
    The documented promise is that a write goes to a different server no sooner than a window
    after the write server was last known to be taking writes. Of the code this is true
    exactly when the write server is recorded as down at the time of the decision: whenever
    it is up again, "leave the writes where they are" moves them to a stand-in although the
    write server has answered within the window.
   */
  lemma WindowKeptIffDown(log: seq<LogEntry>, pool: seq<string>, w: string, window: int, now: int)
    requires Clocked(log, now) && w in pool && window >= 0
    requires TargetAfter(log, pool, w, window, now) != Named(w)
    ensures SilentForWindow(History(log, w), window, now) <==> HealthOf(log, pool)[w].downSince != 0
  {
    var es := History(log, w);
    HistoryOrdered(log, w, now);
    FitnessMeaning(es, window, now);
    FailoverRule(log, pool, w, window, now);
    if DownForWindow(es, window, now) {
      DownForWindowIsSilent(es, window, now);
      assert HasEvidence(Spell(es));
    }
  }

  /** No server is named exactly if no write server is configured, or it is not in the pool. */
  lemma AnyServerIff(log: seq<LogEntry>, pool: seq<string>, config: Config, now: int)
    ensures Resolve(pool, HealthOf(log, pool), config, now) == Any <==>
            config.server.None? || config.server.value !in pool
  {}

  // ---- Stand-ins ----

  /** A stand-in that is down is never the target, however recently it answered. */
  lemma DownIsNeverStandIn(log: seq<LogEntry>, pool: seq<string>, w: string, window: int, now: int, u: string)
    requires Clocked(log, now) && w in pool && window >= 0
    requires u != w && HasEvidence(Spell(History(log, u)))
    ensures TargetAfter(log, pool, w, window, now) != Named(u)
  {
    FailoverRule(log, pool, w, window, now);
  }

  ghost predicate SameExceptFor(log: seq<LogEntry>, log': seq<LogEntry>, u: string) {
    forall s | s != u :: History(log, s) == History(log', s)
  }

  lemma SameLeaving(log: seq<LogEntry>, log': seq<LogEntry>, pool: seq<string>, w: string, window: int, now: int,
                    u: string, v: string)
    requires Clocked(log, now) && Clocked(log', now) && w in pool && window >= 0
    requires u != w && SameExceptFor(log, log', u) && v != u && v != w
    requires TargetAfter(log, pool, w, window, now) == Named(v)
    ensures TargetAfter(log', pool, w, window, now) in {Named(u), Named(v)}
  {
    hide TargetAfter, History, UpForWindow, DownForWindow, JustBack;
    FailoverRule(log, pool, w, window, now);
    FailoverRule(log', pool, w, window, now);
    assert History(log, w) == History(log', w);
    var i :| && 0 <= i < |pool| && pool[i] == v && UpForWindow(History(log, v), window, now)
             && forall j | 0 <= j < i :: pool[j] == w || !UpForWindow(History(log, pool[j]), window, now);
    if k :| 0 <= k < i && pool[k] == u && UpForWindow(History(log', u), window, now)
            && forall j | 0 <= j < k :: pool[j] != u {
      assert forall j | 0 <= j < k :: History(log, pool[j]) == History(log', pool[j]);
      assert FirstUpForWindow(log', pool, w, u, window, now);
    } else {
      NoneBefore(pool, u, i, UpForWindow(History(log', u), window, now));
      assert forall j | 0 <= j < i && pool[j] != u :: History(log, pool[j]) == History(log', pool[j]);
      assert FirstUpForWindow(log', pool, w, v, window, now);
    }
  }

  /** If no first place before `i` has the name and the property, no place does. */
  lemma NoneBefore(pool: seq<string>, u: string, i: nat, up: bool)
    requires i <= |pool|
    requires !exists k :: 0 <= k < i && pool[k] == u && up && forall j | 0 <= j < k :: pool[j] != u
    ensures up ==> forall j | 0 <= j < i :: pool[j] != u
  {
    if up {
      var k := 0;
      while k < i
        invariant 0 <= k <= i && forall j | 0 <= j < k :: pool[j] != u
      {
        assert pool[k] != u;
        k := k + 1;
      }
    }
  }

  /**
    Writes that leave a stand-in never wait for it: whatever else happened to `u`, whether it
    last took writes a second ago or an hour ago, the decision to go elsewhere is the same.
    This includes handing the writes back to the write server.
   */
  lemma StandInIsNeverWaitedFor(log: seq<LogEntry>, log': seq<LogEntry>, pool: seq<string>, w: string, window: int,
                                now: int, u: string)
    requires Clocked(log, now) && Clocked(log', now) && w in pool && window >= 0
    requires u != w && SameExceptFor(log, log', u)
    requires TargetAfter(log, pool, w, window, now) != Named(u)
    requires TargetAfter(log', pool, w, window, now) != Named(u)
    ensures TargetAfter(log, pool, w, window, now) == TargetAfter(log', pool, w, window, now)
  {
    FailoverRule(log, pool, w, window, now);
    FailoverRule(log', pool, w, window, now);
    hide TargetAfter, FirstUpForWindow, History;
    var t, t' := TargetAfter(log, pool, w, window, now), TargetAfter(log', pool, w, window, now);
    if t != Named(w) {
      SameLeaving(log, log', pool, w, window, now, u, t.url);
    } else if t' != Named(w) {
      SameLeaving(log', log, pool, w, window, now, u, t'.url);
    }
  }

  /**
    Writes leave a stand-in that is still fit only for the write server or for a server before
    it in the configuration. One that is down when they leave it has been silent for a window
    if it has been down for one; one that has only just come back has not been.
   */
  lemma LeavingStandIn(log: seq<LogEntry>, pool: seq<string>, w: string, window: int, now: int, u: string)
    requires Clocked(log, now) && w in pool && u in pool && window >= 0 && u != w
    requires TargetAfter(log, pool, w, window, now) != Named(u)
    ensures UpForWindow(History(log, u), window, now) ==>
              || TargetAfter(log, pool, w, window, now) == Named(w)
              || exists i :: 0 <= i < |pool| && u !in pool[..i]
                             && TargetAfter(log, pool, w, window, now) == Named(pool[i])
    ensures DownForWindow(History(log, u), window, now) ==> SilentForWindow(History(log, u), window, now)
    ensures JustBack(History(log, u), window, now) ==> !SilentForWindow(History(log, u), window, now)
  {
    FailoverRule(log, pool, w, window, now);
    HistoryOrdered(log, u, now);
    var t := TargetAfter(log, pool, w, window, now);
    if UpForWindow(History(log, u), window, now) && t != Named(w) {
      var i :| && 0 <= i < |pool| && pool[i] == t.url && UpForWindow(History(log, t.url), window, now)
               && forall j | 0 <= j < i :: pool[j] == w || !UpForWindow(History(log, pool[j]), window, now);
      assert u !in pool[..i];
    }
    if DownForWindow(History(log, u), window, now) {
      DownForWindowIsSilent(History(log, u), window, now);
    }
  }

  // ---- What a record can tell ----

  function Repeated(e: Event, n: nat): (es: seq<Event>)
    ensures |es| == n && forall i | 0 <= i < n :: es[i] == e
  {
    seq(n, i => e)
  }

  lemma OneMoreRepeated(es: seq<Event>, e: Event, n: nat)
    requires n > 0
    ensures es + Repeated(e, n) == es + Repeated(e, n - 1) + [e]
  {
    assert Repeated(e, n) == Repeated(e, n - 1) + [e];
  }

  lemma {:induction false} TimeoutsAdd(es: seq<Event>, at: int, n: nat)
    requires Replay(es).downSince != 0 || Replay(es).timeouts + n < MAX_CONSECUTIVE_TIMEOUTS
    ensures Replay(es + Repeated(Event(TimedOut, at), n)) == Replay(es).(timeouts := Replay(es).timeouts + n)
  {
    hide Replay, Repeated;
    var e := Event(TimedOut, at);
    if n == 0 {
      assert es + Repeated(e, 0) == es;
    } else {
      TimeoutsAdd(es, at, n - 1);
      OneMoreRepeated(es, e, n);
      ReplaySnoc(es + Repeated(e, n - 1), e);
    }
  }

  lemma {:induction false} ManyTimeoutsAreDown(es: seq<Event>)
    requires forall e | e in es :: e.at > 0
    ensures Replay(es).timeouts >= 0
    ensures Replay(es).downSince == 0 ==> Replay(es).timeouts < MAX_CONSECUTIVE_TIMEOUTS
  {
    if es == [] {
    } else {
      ManyTimeoutsAreDown(es[..|es| - 1]);
    }
  }

  /** The last answer leaves a server up, and nothing since then changes when it came back. */
  lemma {:induction false} AtLastAnswer(es: seq<Event>)
    ensures |Spell(es)| <= |es|
    ensures var h := Replay(es[..|es| - |Spell(es)|]);
            h.downSince == 0 && h.timeouts == 0 && h.upSince == Replay(es).upSince
  {
    if es == [] {
    } else if es[|es| - 1].outcome == Answered {
      assert es[..|es|] == es;
    } else {
      var before := es[..|es| - 1];
      AtLastAnswer(before);
      assert es[..|es| - |Spell(es)|] == before[..|before| - |Spell(before)|];
    }
  }

  lemma OrderedMore(es: seq<Event>, e: Event, n: nat, now: int)
    requires Ordered(es, e.at) && 0 < e.at <= now
    ensures Ordered(es + Repeated(e, n), now)
  {
    var all := es + Repeated(e, n);
    forall i | 0 <= i < |all| ensures 0 < all[i].at <= e.at && (i < |es| || all[i].at == e.at) {
      if i >= |es| {
        assert all[i] == Repeated(e, n)[i - |es|];
      }
    }
  }

  /** A history that ends in an answer, if the server is up, followed by as many timeouts as are counted. */
  lemma UpMayHaveAnswered(es: seq<Event>, now: int) returns (other: seq<Event>)
    requires Ordered(es, now) && now > 0 && Replay(es).downSince == 0
    ensures Ordered(other, now) && Replay(other) == Replay(es)
    ensures |es| < |other| && other[|es|] == Event(Answered, now)
  {
    OrderedPositive(es, now);
    ManyTimeoutsAreDown(es);
    ReplaySnoc(es, Event(Answered, now));
    hide Replay;
    var n, answered := Replay(es).timeouts, es + [Event(Answered, now)];
    TimeoutsAdd(answered, now, n);
    OrderedMore(answered, Event(TimedOut, now), n, now);
    other := answered + Repeated(Event(TimedOut, now), n);
  }

  function RefusedAfter(es: seq<Event>, at: int, n: nat): seq<Event> {
    es + [Event(Answered, at)] + [Event(Refused, at)] + Repeated(Event(TimedOut, at), n)
  }

  lemma RefusedAfterReplays(es: seq<Event>, at: int, n: nat, now: int)
    requires Ordered(es, at) && 0 < at <= now && Replay(es).downSince == 0
    ensures Replay(RefusedAfter(es, at, n)) == Health(at, Replay(es).upSince, n)
    ensures Ordered(RefusedAfter(es, at, n), now)
  {
    ReplaySnoc(es, Event(Answered, at));
    var answered := es + [Event(Answered, at)];
    ReplaySnoc(answered, Event(Refused, at));
    var refused := answered + [Event(Refused, at)];
    hide Replay;
    TimeoutsAdd(refused, at, n);
    OrderedMore(refused, Event(TimedOut, at), n, now);
  }

  lemma OrderedPrefix(es: seq<Event>, n: nat, k: nat, now: int)
    requires Ordered(es, now) && n <= k < |es|
    ensures Ordered(es[..n], es[k].at) && 0 < es[k].at <= now
  {
    assert forall i | 0 <= i < n :: es[..n][i] == es[i];
  }

  /** One that ends in an answer, a refusal and timeouts, if it is down. */
  lemma DownMayHaveAnswered(es: seq<Event>, now: int) returns (other: seq<Event>, i: nat)
    requires Ordered(es, now) && Replay(es).downSince != 0
    ensures Ordered(other, now) && Replay(other) == Replay(es)
    ensures i < |other| && other[i] == Event(Answered, Replay(es).downSince)
  {
    OrderedPositive(es, now);
    ManyTimeoutsAreDown(es);
    DownSinceMeaning(es);
    assert HasEvidence(Spell(es));
    hide Replay, Spell, HasEvidence, IsEvidence, Describes, CountTimeouts, Ordered;
    AtLastAnswer(es);
    var first := DownSinceFirst(es, now);
    assert 0 <= first < |Spell(es)| by { EvidenceIsInside(Spell(es), first); }
    SpellIsSuffix(es, first);
    var h, n := Replay(es), |es| - |Spell(es)|;
    OrderedPrefix(es, n, n + first, now);
    RefusedAfterReplays(es[..n], h.downSince, h.timeouts, now);
    other, i := RefusedAfter(es[..n], h.downSince, h.timeouts), n;
  }

  lemma EvidenceIsInside(spell: seq<Event>, k: int)
    requires FirstEvidence(spell, k)
    ensures 0 <= k < |spell|
  {}

  /** Unless it says that a server has been down for a window, its record fits one that has just answered. */
  lemma MayHaveAnswered(es: seq<Event>, window: int, now: int) returns (other: seq<Event>)
    requires Ordered(es, now) && window > 0 && now > 0
    requires Replay(es).downSince == 0 || Elapsed(Replay(es).downSince, now) < window
    ensures Ordered(other, now) && Replay(other) == Replay(es) && !SilentForWindow(other, window, now)
  {
    hide Replay, Ordered;
    if Replay(es).downSince == 0 {
      other := UpMayHaveAnswered(es, now);
    } else {
      var i;
      other, i := DownMayHaveAnswered(es, now);
    }
  }

  /**
    What the record of a server can tell about its silence: every history that leads to it is
    silent for a window exactly if the record says that the server has been down for one.
   */
  lemma RecordTellsSilenceIff(es: seq<Event>, window: int, now: int)
    requires Ordered(es, now) && window > 0 && now > 0
    ensures (forall other | Ordered(other, now) && Replay(other) == Replay(es) ::
              SilentForWindow(other, window, now)) <==>
            Replay(es).downSince != 0 && Elapsed(Replay(es).downSince, now) >= window
  {
    if Replay(es).downSince != 0 && Elapsed(Replay(es).downSince, now) >= window {
      forall other | Ordered(other, now) && Replay(other) == Replay(es) ensures SilentForWindow(other, window, now) {
        FitnessMeaning(other, window, now);
        DownForWindowIsSilent(other, window, now);
      }
    } else {
      var other := MayHaveAnswered(es, window, now);
    }
  }

  /** The writes go back to the write server the moment it is fit again, whatever a stand-in is doing. */
  lemma HandBackDoesNotWait(log: seq<LogEntry>, pool: seq<string>, w: string, window: int, now: int)
    requires Clocked(log, now) && w in pool && window >= 0
    requires UpForWindow(History(log, w), window, now)
    ensures TargetAfter(log, pool, w, window, now) == Named(w)
  {
    FailoverRule(log, pool, w, window, now);
    HistoryOrdered(log, w, now);
  }

  // ---- Writes do not flap ----

  /**
    From event `n` on there is no refusal and no failed login, and never three unanswered
    calls in a row (those in a row just before event `n` included).
   */
  ghost predicate Steady(es: seq<Event>, n: nat) {
    forall i | n <= i < |es| ::
      && es[i].outcome !in {Refused, LoginFailed}
      && CountTimeouts(Spell(es[..i + 1])) < 3
  }

  lemma SteadyNext(init: seq<Event>, e: Event)
    requires !HasEvidence(Spell(init)) && e.outcome !in {Refused, LoginFailed}
    requires CountTimeouts(Spell(init + [e])) < MAX_CONSECUTIVE_TIMEOUTS
    ensures !HasEvidence(Spell(init + [e]))
  {
    SpellSnoc(init, e);
    FirstEvidenceSnoc(Spell(init), e);
    EvidenceSnoc(Spell(init), e);
  }

  lemma {:induction false} SteadyHasNoEvidence(es: seq<Event>, n: nat, m: nat)
    requires n <= m <= |es| && Steady(es, n) && !HasEvidence(Spell(es[..n]))
    ensures !HasEvidence(Spell(es[..m]))
    decreases m
  {
    if n == m {
    } else {
      SteadyHasNoEvidence(es, n, m - 1);
      assert es[..m] == es[..m - 1] + [es[m - 1]];
      SteadyNext(es[..m - 1], es[m - 1]);
    }
  }

  lemma SteadyStaysUp(es: seq<Event>, n: nat, window: int, fitAt: int, now: int)
    requires n <= |es| && Steady(es, n) && UpForWindow(es[..n], window, fitAt) && fitAt <= now
    ensures UpForWindow(es, window, now)
  {
    SteadyHasNoEvidence(es, n, |es|);
    assert es[..|es|] == es;
    forall i | EndsOutage(es, i) ensures es[i].at <= now - window {
      if i < n {
        assert es[..n][..i] == es[..i];
        assert EndsOutage(es[..n], i);
      } else {
        SteadyHasNoEvidence(es, n, i);
      }
    }
  }

  /**
    Writes do not flap: once the write server is fit to take writes, nothing short of a
    refusal, a failed login or three unanswered calls in a row ever sends a write elsewhere,
    however the other servers fare.
   */
  lemma WritesDoNotFlap(log: seq<LogEntry>, tail: seq<LogEntry>, pool: seq<string>, w: string, window: int,
                        fitAt: int, now: int)
    requires Clocked(log, fitAt) && Clocked(log + tail, now) && fitAt <= now
    requires w in pool && window >= 0
    requires HealthOf(log, pool)[w].CanTakeWrites(window, fitAt)
    requires Steady(History(log + tail, w), |History(log, w)|)
    ensures TargetAfter(log + tail, pool, w, window, now) == Named(w)
  {
    HistoryOrdered(log, w, fitAt);
    HistoryOrdered(log + tail, w, now);
    FitnessMeaning(History(log, w), window, fitAt);
    HistoryExtends(log, tail, w);
    SteadyStaysUp(History(log + tail, w), |History(log, w)|, window, fitAt, now);
    FitnessMeaning(History(log + tail, w), window, now);
  }

  /**
    Hand-back: once the write server has answered and been steady ever since, for at least a
    window, every write goes to it again, whatever happened before that answer.
   */
  lemma WritesAreHandedBack(log: seq<LogEntry>, pool: seq<string>, w: string, window: int, now: int, i: nat)
    requires Clocked(log, now) && w in pool && window >= 0
    requires i < |History(log, w)| && History(log, w)[i].outcome == Answered
    requires History(log, w)[i].at + window <= now
    requires Steady(History(log, w), i + 1)
    ensures TargetAfter(log, pool, w, window, now) == Named(w)
  {
    var es := History(log, w);
    HistoryOrdered(log, w, now);
    assert es[..i + 1] == es[..i] + [es[i]];
    SpellSnoc(es[..i], es[i]);
    SteadyHasNoEvidence(es, i + 1, |es|);
    assert es[..|es|] == es;
    forall j | EndsOutage(es, j) ensures j <= i {
      if j > i {
        SteadyHasNoEvidence(es, i + 1, j);
      }
    }
    FitnessMeaning(es, window, now);
  }

  // ---- Two runs that leave the documented promise behind ----

  lemma HealthSnoc(log: seq<LogEntry>, x: LogEntry, s: string)
    ensures Replay(History(log + [x], s)) ==
            if x.server == s then Record(Replay(History(log, s)), x.event) else Replay(History(log, s))
  {
    assert (log + [x])[..|log|] == log;
    ReplaySnoc(History(log, s), x.event);
  }

  lemma HistoryOfTwo(x: LogEntry, y: LogEntry, s: string)
    requires x.server == s && y.server == s
    ensures History([x, y], s) == [x.event, y.event]
  {
    assert [x][..0] == [] && [x, y][..1] == [x];
    assert History([x], s) == [x.event];
  }

  /** The health of a server after each of three entries. */
  lemma HealthOfThree(x: LogEntry, y: LogEntry, z: LogEntry, s: string)
    ensures Replay(History([x], s)) == if x.server == s then Record(UNKNOWN, x.event) else UNKNOWN
    ensures Replay(History([x, y], s)) ==
            if y.server == s then Record(Replay(History([x], s)), y.event) else Replay(History([x], s))
    ensures Replay(History([x, y, z], s)) ==
            if z.server == s then Record(Replay(History([x, y], s)), z.event) else Replay(History([x, y], s))
  {
    HealthSnoc([], x, s);
    assert [] + [x] == [x];
    HealthSnoc([x], y, s);
    assert [x] + [y] == [x, y];
    HealthSnoc([x, y], z, s);
    assert [x, y] + [z] == [x, y, z];
  }

  /** Where a write goes among three servers, the first of which is the write server. */
  lemma TargetOfThree(log: seq<LogEntry>, w: string, a: string, b: string, window: int, now: int)
    requires w != a && w != b
    ensures var hw, ha, hb := Replay(History(log, w)), Replay(History(log, a)), Replay(History(log, b));
            TargetAfter(log, [w, a, b], w, window, now) ==
            if hw.CanTakeWrites(window, now) || (hw.downSince != 0 && Elapsed(hw.downSince, now) < window) then Named(w)
            else if ha.CanTakeWrites(window, now) then Named(a)
            else if hb.CanTakeWrites(window, now) then Named(b)
            else Named(w)
  {
    var pool := [w, a, b];
    assert pool[1..] == [a, b] && [a, b][1..] == [b];
    assert pool[0] == w && w in pool && pool[1] == a && a in pool && pool[2] == b && b in pool;
    var h := HealthOf(log, pool);
    assert FirstFit([b], h, w, window, now) == if h[b].CanTakeWrites(window, now) then Some(b) else None;
    assert FirstFit([a, b], h, w, window, now) ==
           if h[a].CanTakeWrites(window, now) then Some(a) else FirstFit([b], h, w, window, now);
    assert FirstFit(pool, h, w, window, now) == FirstFit([a, b], h, w, window, now);
  }

  /**
    One refused connection followed by an answer a second later: the write that comes next
    goes to another server, one second after the write server was last seen taking writes.
   */
  lemma ShortOutageMovesWrites(w: string, a: string, b: string, x: LogEntry, y: LogEntry)
    requires w != a && w != b
    requires x == LogEntry(w, Event(Refused, 100)) && y == LogEntry(w, Event(Answered, 101))
    ensures Clocked([x, y], 102)
    ensures TargetAfter([x, y], [w, a, b], w, 30, 102) == Named(a)
    ensures !SilentForWindow(History([x, y], w), 30, 102)
  {
    hide Replay, History, TargetAfter;
    assert TargetAfter([x, y], [w, a, b], w, 30, 102) == Named(a) by {
      assert Replay(History([x, y], w)) == Health(0, 101, 0) by { HealthOfThree(x, y, y, w); }
      assert Replay(History([x, y], a)) == UNKNOWN by { HealthOfThree(x, y, y, a); }
      TargetOfThree([x, y], w, a, b, 30, 102);
    }
    assert !SilentForWindow(History([x, y], w), 30, 102) by {
      HistoryOfTwo(x, y, w);
      assert History([x, y], w)[1] == y.event;
    }
  }

  /**
    The window guards the write server only: a stand-in that stops answering is replaced at
    once, within the same second that it was last taking writes.
   */
  lemma StandInIsReplacedAtOnce(w: string, a: string, b: string, x: LogEntry, y: LogEntry, z: LogEntry)
    requires w != a && w != b && a != b
    requires x == LogEntry(w, Event(Refused, 100))
    requires y == LogEntry(a, Event(Answered, 199)) && z == LogEntry(a, Event(Refused, 199))
    ensures Clocked([x, y, z], 199)
    ensures TargetAfter([x, y], [w, a, b], w, 30, 199) == Named(a)
    ensures TargetAfter([x, y, z], [w, a, b], w, 30, 199) == Named(b)
  {
    hide Replay, History, TargetAfter;
    assert Replay(History([x, y], w)) == Health(100, 0, 0) && Replay(History([x, y, z], w)) == Health(100, 0, 0) by {
      HealthOfThree(x, y, z, w);
    }
    assert Replay(History([x, y], a)) == UNKNOWN && Replay(History([x, y, z], a)) == Health(199, 0, 0) by {
      HealthOfThree(x, y, z, a);
    }
    assert Replay(History([x, y, z], b)) == UNKNOWN by {
      HealthOfThree(x, y, z, b);
    }
    assert TargetAfter([x, y], [w, a, b], w, 30, 199) == Named(a) by {
      TargetOfThree([x, y], w, a, b, 30, 199);
    }
    assert TargetAfter([x, y, z], [w, a, b], w, 30, 199) == Named(b) by {
      TargetOfThree([x, y, z], w, a, b, 30, 199);
    }
  }
}
