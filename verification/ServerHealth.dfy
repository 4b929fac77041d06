/**
  The health record kept for each FreeIPA server (`ServerHealth` in freeipa.rs), and what its
  three fields mean in terms of everything that has happened to the server so far.

  Every method of the record is taken as one atomic step. Times are Unix seconds and are
  positive, because 0 is the record's own mark for "not down" and "never came back".
*/
module ServerHealth {
  import opened Wrappers

  const MAX_CONSECUTIVE_TIMEOUTS: int := 3

  /** What one call to, or one login at, a server can turn out to be. */
  datatype Outcome =
    | Answered      // any response at all, whatever it says
    | TimedOut      // no response in time
    | Refused       // the connection could not be made
    | OtherFailure  // failed in transit for a reason that says nothing about the server
    | LoginFailed   // a login was rejected or got no answer
    | LoginOk       // deliberately not recorded: only an answered call counts
    | OutOfTime     // the job's own deadline passed first

  datatype Event = Event(outcome: Outcome, at: int)

  /** The value of the three atomics. */
  datatype Health = Health(downSince: int, upSince: int, timeouts: int) {

    function MarkDown(now: int): Health {
      if downSince == 0 then this.(downSince := now) else this
    }

    function MarkTimeout(now: int): Health {
      var counted := this.(timeouts := timeouts + 1);
      if counted.timeouts >= MAX_CONSECUTIVE_TIMEOUTS then counted.MarkDown(now) else counted
    }

    function MarkUp(now: int): Health {
      if downSince != 0 then Health(0, now, 0) else this.(timeouts := 0)
    }

    /** How long the server has been confirmed down, if it is. */
    function DownFor(now: int): Option<int> {
      if downSince == 0 then None else Some(Elapsed(downSince, now))
    }

    predicate CanTakeWrites(window: int, now: int) {
      downSince == 0 && (upSince == 0 || Elapsed(upSince, now) >= window)
    }
  }

  const UNKNOWN := Health(0, 0, 0)

  /** Seconds since `since`, never negative even if the clock was set back. */
  function Elapsed(since: int, now: int): int {
    if now - since < 0 then 0 else now - since
  }

  /** A clock set back counts as no time at all: it never makes an outage longer or a recovery older. */
  lemma ClockSetBack(h: Health, window: int, now: int)
    ensures h.downSince != 0 && now <= h.downSince ==> h.DownFor(now) == Some(0)
    ensures h.upSince != 0 && now <= h.upSince && window > 0 ==> !h.CanTakeWrites(window, now)
  {}

  /** What the agent writes into the record after one call or login. */
  function Record(h: Health, e: Event): Health {
    match e.outcome
    case Answered => h.MarkUp(e.at)
    case TimedOut => h.MarkTimeout(e.at)
    case Refused => h.MarkDown(e.at)
    case LoginFailed => h.MarkDown(e.at)
    case OtherFailure => h
    case LoginOk => h
    case OutOfTime => h
  }

  /** The record of a server after everything in `es`, oldest first. */
  function Replay(es: seq<Event>): Health {
    if es == [] then UNKNOWN else Record(Replay(es[..|es| - 1]), es[|es| - 1])
  }

  lemma ReplaySnoc(es: seq<Event>, e: Event)
    ensures Replay(es + [e]) == Record(Replay(es), e)
  {
    assert (es + [e])[..|es|] == es;
  }

  /** The record itself: three counters that calls update in place. */
  class HealthRecord {
    var downSince: int
    var upSince: int
    var consecutiveTimeouts: int
    ghost var history: seq<Event>

    ghost function View(): Health
      reads this
    {
      Health(downSince, upSince, consecutiveTimeouts)
    }

    ghost predicate Valid()
      reads this
    {
      View() == Replay(history)
    }

    constructor ()
      ensures Valid() && history == []
    {
      downSince, upSince, consecutiveTimeouts := 0, 0, 0;
      history := [];
    }

    method MarkDown(now: int)
      modifies this
      ensures View() == old(View()).MarkDown(now) && history == old(history)
    {
      if downSince == 0 {
        downSince := now;
      }
    }

    method MarkTimeout(now: int)
      modifies this
      ensures View() == old(View()).MarkTimeout(now) && history == old(history)
    {
      consecutiveTimeouts := consecutiveTimeouts + 1;
      if consecutiveTimeouts >= MAX_CONSECUTIVE_TIMEOUTS {
        MarkDown(now);
      }
    }

    method MarkUp(now: int)
      modifies this
      ensures View() == old(View()).MarkUp(now) && history == old(history)
    {
      consecutiveTimeouts := 0;
      var was := downSince;
      downSince := 0;
      if was != 0 {
        upSince := now;
      }
    }

    /** Record one call or login; the record goes on saying what its history says. */
    method Note(e: Event)
      requires Valid()
      modifies this
      ensures Valid() && history == old(history) + [e]
    {
      match e.outcome {
        case Answered => MarkUp(e.at);
        case TimedOut => MarkTimeout(e.at);
        case Refused => MarkDown(e.at);
        case LoginFailed => MarkDown(e.at);
        case OtherFailure =>
        case LoginOk =>
        case OutOfTime =>
      }
      assert View() == Record(old(View()), e);
      ReplaySnoc(history, e);
      history := history + [e];
    }
  }

  // ---- What the fields mean ----

  /** Everything since the last answer. */
  function Spell(es: seq<Event>): seq<Event> {
    if es == [] || es[|es| - 1].outcome == Answered then []
    else Spell(es[..|es| - 1]) + [es[|es| - 1]]
  }

  function CountTimeouts(es: seq<Event>): nat {
    if es == [] then 0
    else CountTimeouts(es[..|es| - 1]) + if es[|es| - 1].outcome == TimedOut then 1 else 0
  }

  /** Event `k` of a spell without answers shows that the server is down: the third unanswered call does. */
  predicate IsEvidence(spell: seq<Event>, k: int) {
    && 0 <= k < |spell|
    && (|| spell[k].outcome in {Refused, LoginFailed}
        || (spell[k].outcome == TimedOut
            && CountTimeouts(spell[..k + 1]) >= 3))
  }

  ghost predicate HasEvidence(spell: seq<Event>) {
    exists k :: IsEvidence(spell, k)
  }

  ghost predicate FirstEvidence(spell: seq<Event>, k: int) {
    IsEvidence(spell, k) && forall j | 0 <= j < k :: !IsEvidence(spell, j)
  }

  /** Event `i` is an answer from a server that was down just before it. */
  ghost predicate EndsOutage(es: seq<Event>, i: int) {
    0 <= i < |es| && es[i].outcome == Answered && HasEvidence(Spell(es[..i]))
  }

  ghost predicate LastToEndOutage(es: seq<Event>, i: int) {
    EndsOutage(es, i) && forall j | i < j < |es| :: !EndsOutage(es, j)
  }

  /** A spell is exactly what follows the last answer: it holds none, and one precedes it. */
  lemma {:induction false} SpellFollowsLastAnswer(es: seq<Event>)
    ensures var n := |es| - |Spell(es)|;
            && 0 <= n
            && Spell(es) == es[n..]
            && (forall k | n <= k < |es| :: es[k].outcome != Answered)
            && (n > 0 ==> es[n - 1].outcome == Answered)
  {
    if es == [] || es[|es| - 1].outcome == Answered {
      assert Spell(es) == [] && es[|es|..] == [];
    } else {
      var before := es[..|es| - 1];
      SpellFollowsLastAnswer(before);
      var n := |before| - |Spell(before)|;
      assert |Spell(es)| == |Spell(before)| + 1;
      assert es[n..] == before[n..] + [es[|es| - 1]];
      assert forall k | n <= k < |before| :: es[k] == before[k];
    }
  }

  lemma SpellSnoc(es: seq<Event>, e: Event)
    ensures Spell(es + [e]) == if e.outcome == Answered then [] else Spell(es) + [e]
  {
    assert (es + [e])[..|es|] == es;
  }

  lemma EvidenceSnoc(spell: seq<Event>, e: Event)
    ensures forall k | 0 <= k < |spell| :: IsEvidence(spell + [e], k) <==> IsEvidence(spell, k)
    ensures CountTimeouts(spell + [e]) == CountTimeouts(spell) + if e.outcome == TimedOut then 1 else 0
    ensures IsEvidence(spell + [e], |spell|) <==>
            (e.outcome in {Refused, LoginFailed}
             || (e.outcome == TimedOut && CountTimeouts(spell) + 1 >= MAX_CONSECUTIVE_TIMEOUTS))
  {
    var s := spell + [e];
    assert s[..|s| - 1] == spell && s[..|spell| + 1] == s;
    forall k | 0 <= k < |spell| ensures IsEvidence(s, k) <==> IsEvidence(spell, k) {
      assert s[..k + 1] == spell[..k + 1];
    }
  }

  lemma FirstEvidenceSnoc(spell: seq<Event>, e: Event)
    ensures HasEvidence(spell + [e]) <==> HasEvidence(spell) || IsEvidence(spell + [e], |spell|)
    ensures forall k | FirstEvidence(spell + [e], k) ::
              if HasEvidence(spell) then FirstEvidence(spell, k) else k == |spell|
  {
    EvidenceSnoc(spell, e);
    if k :| IsEvidence(spell, k) {
      assert IsEvidence(spell + [e], k);
    }
    if k :| IsEvidence(spell + [e], k) {
      assert k < |spell| ==> IsEvidence(spell, k);
    }
  }

  /** The part of a record that describes the current spell. */
  ghost predicate Describes(h: Health, spell: seq<Event>) {
    && h.timeouts == CountTimeouts(spell)
    && (h.downSince == 0 <==> !HasEvidence(spell))
    && (forall k | FirstEvidence(spell, k) :: h.downSince == spell[k].at)
  }

  lemma DescribesSnoc(h: Health, spell: seq<Event>, e: Event)
    requires Describes(h, spell) && e.outcome != Answered && e.at > 0
    ensures Describes(Record(h, e), spell + [e])
  {
    EvidenceSnoc(spell, e);
    FirstEvidenceSnoc(spell, e);
  }

  /**
    The timeout counter and `down_since` describe the events since the last answer: how many
    timed out, and when the first of them showed the server to be down.
   */
  lemma {:induction false} DownSinceMeaning(es: seq<Event>)
    requires forall e | e in es :: e.at > 0
    ensures Describes(Replay(es), Spell(es))
  {
    if es == [] {
    } else {
      var init, e := es[..|es| - 1], es[|es| - 1];
      DownSinceMeaning(init);
      if e.outcome != Answered {
        DescribesSnoc(Replay(init), Spell(init), e);
      }
    }
  }

  /** An answer that is not the last event ended an outage if it did so when it arrived. */
  lemma EndsOutageSnoc(init: seq<Event>, e: Event)
    requires forall x | x in init :: x.at > 0
    ensures forall i | 0 <= i < |init| :: EndsOutage(init + [e], i) <==> EndsOutage(init, i)
    ensures EndsOutage(init + [e], |init|) <==> e.outcome == Answered && Replay(init).downSince != 0
  {
    var es := init + [e];
    DownSinceMeaning(init);
    assert es[..|init|] == init;
    forall i | 0 <= i < |init| ensures EndsOutage(es, i) <==> EndsOutage(init, i) {
      assert init[..i] == es[..i];
    }
  }

  /** `up_since` is the time of the last answer that ended an outage, and 0 if none did. */
  lemma {:induction false} UpSinceMeaning(es: seq<Event>)
    requires forall e | e in es :: e.at > 0
    ensures (forall i :: !EndsOutage(es, i)) ==> Replay(es).upSince == 0
    ensures forall i | LastToEndOutage(es, i) :: Replay(es).upSince == es[i].at
  {
    if es == [] {
    } else {
      var last := |es| - 1;
      var init, e := es[..last], es[last];
      assert es == init + [e];
      UpSinceMeaning(init);
      EndsOutageSnoc(init, e);
      if forall i :: !EndsOutage(es, i) {
        assert !EndsOutage(es, last);
        assert forall i | EndsOutage(init, i) :: EndsOutage(es, i);
      }
      forall i | LastToEndOutage(es, i) ensures Replay(es).upSince == es[i].at {
        if i < last {
          assert LastToEndOutage(init, i);
        }
      }
    }
  }

  /** When there is evidence there is a first piece of it. */
  lemma FirstEvidenceExists(spell: seq<Event>, k: int) returns (first: int)
    requires IsEvidence(spell, k)
    ensures FirstEvidence(spell, first)
    decreases k
  {
    first := k;
    if j :| 0 <= j < k && IsEvidence(spell, j) {
      first := FirstEvidenceExists(spell, j);
    }
  }
}
