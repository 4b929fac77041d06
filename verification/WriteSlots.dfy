/**
  Where pinned calls, the writes, get their connections (`write_slots_for` and
  `get_connected_server` in freeipa.rs). A server gets slots of its own for writes the first
  time it takes them and keeps them. Only if no server can be named as the write target do
  writes go through the shared slots that reads use. A call holds one slot while in flight.
 */
module WriteSlots {
  import opened Wrappers

  datatype Pool = Pool(
    shared: map<string, seq<nat>>,  // the slots that reads use, of each configured server
    slots: map<string, seq<nat>>,   // the slots of each server that has ever taken writes
    inFlight: map<nat, nat>,        // each call and the slot it holds
    pinned: set<nat>,               // the calls in flight that are pinned
    nextSlot: nat
  )

  /** What is configured: a write server that is in the pool, and its number of writes at once. */
  datatype Config = Config(named: bool, concurrentWrites: nat)

  datatype Step =
    | Open(url: string)                            // the server is named as the write target
    | Begin(call: nat, slot: nat, pinned: bool)    // a call gets the lock of a slot
    | End(call: nat)

  /** At least one slot, whatever is configured. */
  function Width(config: Config): nat {
    if config.concurrentWrites < 1 then 1 else config.concurrentWrites
  }

  predicate Free(p: Pool, slot: nat) {
    forall c | c in p.inFlight :: p.inFlight[c] != slot
  }

  function Consecutive(first: nat, n: nat): (r: seq<nat>)
    ensures |r| == n && forall k | 0 <= k < n :: r[k] == first + k
  {
    seq(n, k => first + k)
  }

  function Opened(p: Pool, config: Config, url: string): Pool {
    if url in p.slots then p
    else
      var n := Width(config);
      p.(slots := p.slots[url := Consecutive(p.nextSlot, n)], nextSlot := p.nextSlot + n)
  }

  predicate Among(slots: map<string, seq<nat>>, slot: nat) {
    exists u | u in slots :: slot in slots[u]
  }

  /** The slots a call may have: its own if it is pinned and a target is named, else shared ones. */
  predicate MayUse(p: Pool, config: Config, slot: nat, pinned: bool) {
    if pinned && config.named then Among(p.slots, slot) else Among(p.shared, slot)
  }

  predicate Enabled(p: Pool, config: Config, step: Step) {
    match step
    case Open(_) => config.named
    case Begin(c, slot, pinned) => c !in p.inFlight && Free(p, slot) && MayUse(p, config, slot, pinned)
    case End(c) => c in p.inFlight
  }

  function Taken(p: Pool, call: nat, slot: nat, pinned: bool): Pool {
    p.(inFlight := p.inFlight[call := slot], pinned := if pinned then p.pinned + {call} else p.pinned)
  }

  function Apply(p: Pool, config: Config, step: Step): Pool {
    match step
    case Open(url) => Opened(p, config, url)
    case Begin(c, slot, pinned) => Taken(p, c, slot, pinned)
    case End(c) => p.(inFlight := p.inFlight - {c}, pinned := p.pinned - {c})
  }

  // ---- The invariant ----

  /** Each server has its full number of slots, none of them shared with reads or another server. */
  ghost predicate SlotsApart(p: Pool, config: Config) {
    && (forall u | u in p.slots :: |p.slots[u]| == Width(config))
    && (forall u, i, j | u in p.slots && 0 <= i < j < |p.slots[u]| :: p.slots[u][i] != p.slots[u][j])
    && (forall u, slot | u in p.slots && slot in p.slots[u] :: slot < p.nextSlot)
    && (forall u, v, slot | u in p.slots && v in p.shared && slot in p.slots[u] :: slot !in p.shared[v])
    && (forall u, slot | u in p.shared && slot in p.shared[u] :: slot < p.nextSlot)
    && (forall u, v, slot | u in p.slots && v in p.slots && slot in p.slots[u] && slot in p.slots[v] :: u == v)
  }

  ghost predicate Inv(p: Pool, config: Config) {
    && SlotsApart(p, config)
    && (forall c, d | c in p.inFlight && d in p.inFlight && p.inFlight[c] == p.inFlight[d] :: c == d)
    && (forall c | c in p.inFlight :: MayUse(p, config, p.inFlight[c], c in p.pinned))
    && p.pinned <= p.inFlight.Keys
    && (p.slots != map[] ==> config.named)
  }

  /** Nothing is in flight, and nobody has taken writes yet. */
  ghost predicate Initial(p: Pool) {
    && p.slots == map[] && p.inFlight == map[] && p.pinned == {}
    && forall u, slot | u in p.shared && slot in p.shared[u] :: slot < p.nextSlot
  }

  lemma OpenedApart(p: Pool, config: Config, url: string)
    requires SlotsApart(p, config)
    ensures SlotsApart(Opened(p, config, url), config)
  {
    if url in p.slots {
      return;
    }
    var p' := Opened(p, config, url);
    assert forall slot | slot in p'.slots[url] :: p.nextSlot <= slot < p'.nextSlot;
    assert forall u | u in p'.slots && u != url :: u in p.slots && p'.slots[u] == p.slots[u];
    forall u, slot | u in p'.slots && slot in p'.slots[u] ensures slot < p'.nextSlot && !Among(p'.shared, slot) {
      if u != url {
        assert slot in p.slots[u];
      }
    }
    forall u, v, slot | u in p'.slots && v in p'.slots && slot in p'.slots[u] && slot in p'.slots[v] ensures u == v {
      assert u != url ==> slot in p.slots[u] && slot < p.nextSlot;
      assert v != url ==> slot in p.slots[v] && slot < p.nextSlot;
    }
  }

  lemma OpenKeepsInv(p: Pool, config: Config, url: string)
    requires Inv(p, config) && config.named
    ensures Inv(Opened(p, config, url), config)
  {
    OpenedApart(p, config, url);
    hide SlotsApart, Consecutive;
    var p' := Opened(p, config, url);
    forall c | c in p'.inFlight ensures MayUse(p', config, p'.inFlight[c], c in p'.pinned) {
      assert MayUse(p, config, p.inFlight[c], c in p.pinned);
      if c in p.pinned && config.named {
        var u :| u in p.slots && p.inFlight[c] in p.slots[u];
        assert u in p'.slots && p'.slots[u] == p.slots[u];
      }
    }
  }

  lemma BeginKeepsInv(p: Pool, config: Config, c: nat, slot: nat, pinned: bool)
    requires Inv(p, config) && Enabled(p, config, Begin(c, slot, pinned))
    ensures Inv(Taken(p, c, slot, pinned), config)
  {
    hide Among, SlotsApart;
    SameSlotsApart(p, Taken(p, c, slot, pinned), config);
  }

  lemma SameSlotsApart(p: Pool, q: Pool, config: Config)
    requires SlotsApart(p, config) && q.slots == p.slots && q.shared == p.shared && q.nextSlot == p.nextSlot
    ensures SlotsApart(q, config)
  {}

  lemma InvStep(p: Pool, config: Config, step: Step)
    requires Inv(p, config) && Enabled(p, config, step)
    ensures Inv(Apply(p, config, step), config)
  {
    match step
    case Open(url) => OpenKeepsInv(p, config, url);
    case Begin(c, slot, pinned) => BeginKeepsInv(p, config, c, slot, pinned);
    case End(c) =>
      hide Among, SlotsApart;
      SameSlotsApart(p, Apply(p, config, step), config);
  }

  ghost predicate Runs(p: Pool, config: Config, steps: seq<Step>, p': Pool)
    decreases |steps|
  {
    if steps == [] then p' == p
    else Enabled(p, config, steps[0]) && Runs(Apply(p, config, steps[0]), config, steps[1..], p')
  }

  lemma {:induction false} RunKeeps(p: Pool, config: Config, steps: seq<Step>, p': Pool)
    requires Inv(p, config) && Runs(p, config, steps, p')
    ensures Inv(p', config) && p'.shared == p.shared
    ensures forall u | u in p.slots :: u in p'.slots && p'.slots[u] == p.slots[u]
    decreases |steps|
  {
    if steps == [] {
    } else {
      InvStep(p, config, steps[0]);
      hide Inv, Enabled, Consecutive;
      RunKeeps(Apply(p, config, steps[0]), config, steps[1..], p');
    }
  }

  // ---- Main results ----

  function SlotsOf(slots: map<string, seq<nat>>, url: string): seq<nat> {
    if url in slots then slots[url] else []
  }

  /** The pinned calls in flight on one server, by whichever slots. */
  ghost function PinnedOn(p: Pool, url: string): set<nat> {
    set c | c in p.pinned && c in p.inFlight && p.inFlight[c] in SlotsOf(p.slots, url) + SlotsOf(p.shared, url)
  }

  lemma {:induction false} InjectionBound(calls: set<nat>, slotOf: map<nat, nat>, slots: seq<nat>)
    requires forall c | c in calls :: c in slotOf && slotOf[c] in slots
    requires forall c, d | c in calls && d in calls && slotOf[c] == slotOf[d] :: c == d
    ensures |calls| <= |slots|
    decreases |slots|
  {
    if slots == [] {
      assert calls == {};
    } else {
      var last := slots[|slots| - 1];
      if c :| c in calls && slotOf[c] == last {
        InjectionBound(calls - {c}, slotOf, slots[..|slots| - 1]);
      } else {
        InjectionBound(calls, slotOf, slots[..|slots| - 1]);
      }
    }
  }

  /** Pinned calls are in a server's own slots exactly if a write target is named. */
  lemma WherePinnedAre(p: Pool, config: Config, url: string, c: nat)
    requires Inv(p, config) && c in PinnedOn(p, url)
    ensures p.inFlight[c] in if config.named then SlotsOf(p.slots, url) else SlotsOf(p.shared, url)
  {
    assert MayUse(p, config, p.inFlight[c], true);
    if p.inFlight[c] in SlotsOf(p.shared, url) {
      assert Among(p.shared, p.inFlight[c]);
    } else {
      assert url in p.slots && p.inFlight[c] in p.slots[url] && !Among(p.shared, p.inFlight[c]);
    }
  }

  /**
    In every run, through failover and hand-back: while a write target is named, never more
    pinned calls are in flight on one server than are configured, or than one. If no write
    server is configured, or it is not in the pool, the bound is the server's share of the slots
    that reads use.
   */
  lemma InFlightIsBounded(start: Pool, config: Config, steps: seq<Step>, p: Pool, url: string)
    requires Initial(start) && Runs(start, config, steps, p)
    ensures config.named && config.concurrentWrites == 0 ==> |PinnedOn(p, url)| <= 1
    ensures config.named && config.concurrentWrites > 0 ==> |PinnedOn(p, url)| <= config.concurrentWrites
    ensures !config.named ==> |PinnedOn(p, url)| <= |SlotsOf(start.shared, url)|
  {
    RunKeeps(start, config, steps, p);
    var slots := if config.named then SlotsOf(p.slots, url) else SlotsOf(p.shared, url);
    forall c | c in PinnedOn(p, url) ensures p.inFlight[c] in slots {
      WherePinnedAre(p, config, url, c);
    }
    InjectionBound(PinnedOn(p, url), p.inFlight, slots);
  }

  lemma {:induction false} CoverBound(calls: set<nat>, slotOf: map<nat, nat>, slots: seq<nat>)
    requires forall i, j | 0 <= i < j < |slots| :: slots[i] != slots[j]
    requires forall slot | slot in slots :: exists c :: c in calls && c in slotOf && slotOf[c] == slot
    ensures |slots| <= |calls|
    decreases |slots|
  {
    if slots == [] {
    } else {
      var front, last := slots[..|slots| - 1], slots[|slots| - 1];
      assert last in slots;
      var held :| held in calls && held in slotOf && slotOf[held] == last;
      forall slot | slot in front ensures exists c :: c in calls - {held} && c in slotOf && slotOf[c] == slot {
        assert slot in slots;
        var c :| c in calls && c in slotOf && slotOf[c] == slot;
        assert c in calls - {held};
      }
      CoverBound(calls - {held}, slotOf, front);
    }
  }

  /**
    In every run, of a server that has taken writes: another pinned call finds a slot that is
    free exactly if fewer are in flight on it than are configured, or than one.
   */
  lemma AnotherCanStartIff(start: Pool, config: Config, steps: seq<Step>, p: Pool, url: string)
    requires Initial(start) && Runs(start, config, steps, p) && url in p.slots
    ensures (exists slot | slot in p.slots[url] :: Free(p, slot)) <==>
            |PinnedOn(p, url)| < if config.concurrentWrites == 0 then 1 else config.concurrentWrites
  {
    RunKeeps(start, config, steps, p);
    var slots, pinned := p.slots[url], PinnedOn(p, url);
    forall c | c in pinned ensures p.inFlight[c] in slots {
      WherePinnedAre(p, config, url, c);
    }
    if k :| 0 <= k < |slots| && Free(p, slots[k]) {
      assert forall slot | slot in slots && slot != slots[k] :: slot in slots[..k] + slots[k + 1..];
      InjectionBound(pinned, p.inFlight, slots[..k] + slots[k + 1..]);
    } else {
      forall slot | slot in slots ensures exists c :: c in pinned && c in p.inFlight && p.inFlight[c] == slot {
        var k :| 0 <= k < |slots| && slots[k] == slot;
        HolderIsPinned(p, config, url, slot);
      }
      CoverBound(pinned, p.inFlight, slots);
    }
  }

  lemma HolderIsPinned(p: Pool, config: Config, url: string, slot: nat)
    requires Inv(p, config) && url in p.slots && slot in p.slots[url] && !Free(p, slot)
    ensures exists c :: c in PinnedOn(p, url) && c in p.inFlight && p.inFlight[c] == slot
  {
    var c :| c in p.inFlight && p.inFlight[c] == slot;
    assert MayUse(p, config, slot, c in p.pinned);
    assert c in PinnedOn(p, url);
  }

  lemma {:induction false} RunsThen(p: Pool, config: Config, steps: seq<Step>, q: Pool, step: Step)
    requires Runs(p, config, steps, q) && Enabled(q, config, step)
    ensures Runs(p, config, steps + [step], Apply(q, config, step))
    decreases |steps|
  {
    var all := steps + [step];
    if steps == [] {
      assert all[1..] == [];
    } else {
      assert all[1..] == steps[1..] + [step];
      RunsThen(Apply(p, config, steps[0]), config, steps[1..], q, step);
    }
  }

  lemma {:induction false} NewCall(calls: set<nat>) returns (c: nat)
    ensures forall d | d in calls :: d < c
    decreases |calls|
  {
    if calls == {} {
      c := 0;
    } else {
      var d :| d in calls;
      c := NewCall(calls - {d});
      c := if c <= d then d + 1 else c;
      assert forall e | e in calls :: e == d || e in calls - {d};
    }
  }

  lemma PinnedOnMore(p: Pool, c: nat, slot: nat, url: string)
    requires c !in p.inFlight && slot in SlotsOf(p.slots, url)
    ensures |PinnedOn(Taken(p, c, slot, true), url)| == |PinnedOn(p, url)| + 1
  {
    hide SlotsOf;
    assert PinnedOn(Taken(p, c, slot, true), url) == PinnedOn(p, url) + {c};
  }

  /** One more pinned call on a server with a free slot. */
  lemma OneMorePinned(start: Pool, config: Config, steps: seq<Step>, p: Pool, url: string)
      returns (step: Step, q: Pool)
    requires Initial(start) && Runs(start, config, steps, p) && url in p.slots
    requires exists slot | slot in p.slots[url] :: Free(p, slot)
    ensures step.Begin? && step.pinned && step.slot in p.slots[url]
    ensures Runs(start, config, steps + [step], q) && q.slots == p.slots
    ensures |PinnedOn(q, url)| == |PinnedOn(p, url)| + 1
  {
    RunKeeps(start, config, steps, p);
    var slot :| slot in p.slots[url] && Free(p, slot);
    var c := NewCall(p.inFlight.Keys);
    step, q := Begin(c, slot, true), Taken(p, c, slot, true);
    assert config.named && Enabled(p, config, step);
    PinnedOnMore(p, c, slot, url);
    hide Inv, Runs, Enabled, PinnedOn, Free, Initial;
    RunsThen(start, config, steps, p, step);
  }

  /**
    ... and that many are reached, from any point of any run, once the server is the write
    target, by pinned calls alone.
   */
  lemma BoundIsReached(start: Pool, config: Config, steps: seq<Step>, p: Pool, url: string)
      returns (more: seq<Step>, q: Pool)
    requires Initial(start) && Runs(start, config, steps, p) && config.named
    ensures Runs(start, config, steps + [Open(url)] + more, q) && url in q.slots
    ensures forall k | 0 <= k < |more| :: more[k].Begin? && more[k].pinned && more[k].slot in q.slots[url]
    ensures |PinnedOn(q, url)| == if config.concurrentWrites == 0 then 1 else config.concurrentWrites
  {
    RunsThen(start, config, steps, p, Open(url));
    var begun := steps + [Open(url)];
    more, q := [], Opened(p, config, url);
    InFlightIsBounded(start, config, begun, q, url);
    ghost var slots := q.slots;
    assert url in slots;
    hide Initial, Runs, Inv, PinnedOn, Free, Opened;
    assert begun + more == begun;
    var bound := if config.concurrentWrites == 0 then 1 else config.concurrentWrites;
    while |PinnedOn(q, url)| < bound
      invariant Runs(start, config, begun + more, q) && q.slots == slots
      invariant |PinnedOn(q, url)| <= bound
      invariant forall k | 0 <= k < |more| :: more[k].Begin? && more[k].pinned && more[k].slot in q.slots[url]
      decreases bound - |PinnedOn(q, url)|
    {
      AnotherCanStartIff(start, config, begun + more, q, url);
      var step;
      ghost var before := more;
      step, q := OneMorePinned(start, config, begun + more, q, url);
      more := more + [step];
      assert begun + more == begun + before + [step];
    }
  }

  /** A server that takes the writes again gets the very slots it had before. */
  lemma SameSlotsAgain(start: Pool, config: Config, before: seq<Step>, p: Pool, between: seq<Step>, q: Pool,
                       url: string)
    requires Initial(start) && Runs(start, config, before, p) && url in p.slots && Runs(p, config, between, q)
    ensures url in q.slots && Opened(q, config, url).slots[url] == p.slots[url]
  {
    RunKeeps(start, config, before, p);
    RunKeeps(p, config, between, q);
  }

  lemma NewSlotsAreFree(p: Pool, config: Config)
    requires Inv(p, config)
    ensures forall slot | p.nextSlot <= slot :: Free(p, slot)
  {
    forall c | c in p.inFlight ensures p.inFlight[c] < p.nextSlot {
      assert MayUse(p, config, p.inFlight[c], c in p.pinned);
    }
  }

  // ---- The slots themselves ----

  class Slots {
    const config: Config
    const shared: map<string, seq<nat>>
    var credentials: bool
    var slots: map<string, seq<nat>>
    var inFlight: map<nat, nat>
    var pinned: set<nat>
    var nextSlot: nat

    ghost function View(): Pool
      reads this
    {
      Pool(shared, slots, inFlight, pinned, nextSlot)
    }

    ghost predicate Valid()
      reads this
    {
      Inv(View(), config)
    }

    constructor (config: Config, shared: map<string, seq<nat>>, nextSlot: nat)
      requires forall u, slot | u in shared && slot in shared[u] :: slot < nextSlot
      ensures Valid() && Initial(View()) && this.config == config && this.shared == shared && credentials
    {
      this.config, this.shared, this.nextSlot := config, shared, nextSlot;
      credentials, slots, inFlight, pinned := true, map[], map[], {};
    }

    /** `n` new connections, none shared with any earlier one. */
    static method OpenSlots(first: nat, n: nat) returns (entries: seq<nat>)
      ensures entries == Consecutive(first, n)
    {
      entries := [];
      for i := 0 to n
        invariant |entries| == i && forall k | 0 <= k < i :: entries[k] == first + k
      {
        entries := entries + [first + i];
      }
    }

    method WriteSlotsFor(url: string) returns (r: Option<seq<nat>>)
      requires Valid() && config.named
      modifies this
      ensures Valid() && credentials == old(credentials)
      ensures r.None? <==> url !in old(slots) && !credentials
      ensures View() == if r.None? then old(View()) else Opened(old(View()), config, url)
      ensures r.Some? ==> url in slots && r.value == slots[url]
      ensures r.Some? && url !in old(slots) ==> forall slot | slot in r.value :: old(Free(View(), slot))
    {
      if url in slots {
        return Some(slots[url]);
      }
      if !credentials {
        return None;
      }
      OpenKeepsInv(View(), config, url);
      NewSlotsAreFree(View(), config);
      hide Inv;
      var n := if config.concurrentWrites < 1 then 1 else config.concurrentWrites;
      var entries := OpenSlots(nextSlot, n);
      slots, nextSlot := slots[url := entries], nextSlot + n;
      r := Some(entries);
    }

    /**
      One round over some slots, in any order. The call gets one exactly if one is free that is
      logged in, or that is not backing off and can be logged in.
     */
    method TrySlots(call: nat, from: set<nat>, connects: set<nat>, pins: bool) returns (got: Option<nat>)
      requires Valid() && call !in inFlight && forall slot | slot in from :: MayUse(View(), config, slot, pins)
      modifies this`inFlight, this`pinned
      ensures Valid()
      ensures got.Some? <==> exists slot | slot in from && slot in connects :: old(Free(View(), slot))
      ensures got.Some? ==> got.value in from && got.value in connects && old(Free(View(), got.value))
      ensures View() == if got.Some? then Taken(old(View()), call, got.value, pins) else old(View())
    {
      hide Inv, Among;
      var untried := from;
      while untried != {}
        invariant untried <= from && View() == old(View())
        invariant forall slot | slot in from && slot !in untried && slot in connects :: !Free(View(), slot)
      {
        var slot :| slot in untried;
        untried := untried - {slot};
        if (forall c | c in inFlight :: inFlight[c] != slot) && slot in connects {
          assert Free(View(), slot);
          BeginKeepsInv(View(), config, call, slot, pins);
          inFlight := inFlight[call := slot];
          if pins {
            pinned := pinned + {call};
          }
          return Some(slot);
        }
      }
      got := None;
    }

    /**
      One round of getting a connection. A pinned call tries the write slots of the target if
      there is one, every other call tries the shared slots.
     */
    method GetConnectedServer(call: nat, target: Option<string>, pins: bool, connects: set<nat>)
        returns (got: Option<nat>)
      requires Valid() && call !in inFlight && (target.Some? <==> config.named)
      modifies this
      ensures Valid()
      ensures got.Some? ==> got.value in connects && call in inFlight && inFlight[call] == got.value
      ensures got.Some? && pins && target.Some? ==> got.value in SlotsOf(slots, target.value)
      ensures got.Some? && !(pins && target.Some?) ==> Among(shared, got.value)
      ensures pins && target.Some? ==>
                (got.Some? <==> exists slot | slot in SlotsOf(slots, target.value) && slot in connects ::
                                  old(Free(View(), slot)))
      ensures !(pins && target.Some?) ==>
                (got.Some? <==> exists u, slot | u in shared && slot in shared[u] && slot in connects ::
                                  old(Free(View(), slot)))
      ensures pins && target.Some? ==> (target.value in slots <==> target.value in old(slots) || credentials)
      ensures got.None? ==> inFlight == old(inFlight) && pinned == old(pinned)
    {
      if pins && target.Some? {
        var r := WriteSlotsFor(target.value);
        if r.None? {
          return None;
        }
        got := TrySlots(call, (set slot | slot in r.value), connects, true);
      } else {
        got := TrySlots(call, (set u, slot | u in shared && slot in shared[u] :: slot), connects, pins);
      }
    }

    method Release(call: nat)
      requires Valid() && call in inFlight
      modifies this`inFlight, this`pinned
      ensures Valid() && View() == Apply(old(View()), config, End(call))
      ensures call !in inFlight && Free(View(), old(inFlight[call]))
      ensures forall c | c != call :: (c in inFlight <==> c in old(inFlight))
                                      && (c in inFlight ==> inFlight[c] == old(inFlight[c]))
    {
      InvStep(View(), config, End(call));
      inFlight, pinned := inFlight - {call}, pinned - {call};
    }
  }
}
