/**
  The deduplicating queue of slow commands (`queue_command` and `start_queue_worker` in
  lustreengine.rs). A command that is already waiting is not queued a second time: the caller is
  added to its waiters, and all of them get the result of the one execution. A single worker
  takes the commands one at a time from the other end of the queue.
 */
module CommandQueue {
  import opened Wrappers
  import opened Text

  /** How a command can fail. Waiters get every failure as `Failed`, with the same message. */
  datatype Error = Failed(message: string) | Timeout(message: string) | Misconfigured(message: string)

  datatype Key = Key(command: string, args: seq<string>)

  datatype Entry = Entry(key: Key, waiters: seq<nat>)

  datatype Notice = Notice(waiter: nat, result: Result<string, Error>)

  datatype State = State(queue: seq<Entry>, running: Option<Entry>, notices: seq<Notice>)

  datatype Event =
    | Submit(waiter: nat, key: Key)               // a caller queues a command
    | Take(key: Key)                              // the worker takes it from the queue and starts it
    | Finish(result: Result<string, Error>)       // the command ends and its waiters are told

  const EMPTY := State([], None, [])

  function Delivered(result: Result<string, Error>): Result<string, Error> {
    match result
    case Ok(output) => Ok(output)
    case Err(e) => Err(Failed(e.message))
  }

  /** The entry a command already has in the queue. */
  function Place(queue: seq<Entry>, key: Key): (r: Option<nat>)
    ensures r.Some? ==> r.value < |queue| && queue[r.value].key == key
    ensures r.None? ==> forall i | 0 <= i < |queue| :: queue[i].key != key
  {
    if queue == [] then None
    else if queue[|queue| - 1].key == key then Some(|queue| - 1)
    else Place(queue[..|queue| - 1], key)
  }

  function Queued(queue: seq<Entry>, waiter: nat, key: Key): seq<Entry> {
    match Place(queue, key)
    case Some(i) => queue[i := Entry(key, queue[i].waiters + [waiter])]
    case None => [Entry(key, [waiter])] + queue
  }

  function Notices(waiters: seq<nat>, result: Result<string, Error>): (r: seq<Notice>)
    ensures |r| == |waiters| && forall i | 0 <= i < |r| :: r[i] == Notice(waiters[i], result)
  {
    seq(|waiters|, i requires 0 <= i < |waiters| => Notice(waiters[i], result))
  }

  // ---- What one caller sees ----

  /** The life of one waiter, told without the queue. */
  datatype Status = Unknown | Waiting(key: Key) | Started(key: Key) | Told(result: Result<string, Error>)

  function Advance(status: Status, waiter: nat, e: Event): Status {
    match e
    case Submit(w, key) => if w == waiter then Waiting(key) else status
    case Take(key) => if status == Waiting(key) then Started(key) else status
    case Finish(result) => if status.Started? then Told(Delivered(result)) else status
  }

  function StatusOf(es: seq<Event>, waiter: nat): Status {
    if es == [] then Unknown else Advance(StatusOf(es[..|es| - 1], waiter), waiter, es[|es| - 1])
  }

  lemma StatusAfter(es: seq<Event>, e: Event, waiter: nat)
    ensures StatusOf(es + [e], waiter) == Advance(StatusOf(es, waiter), waiter, e)
  {
    assert (es + [e])[..|es|] == es;
  }

  /** The results a waiter has been sent. */
  function Sent(notices: seq<Notice>, waiter: nat): seq<Result<string, Error>> {
    if notices == [] then []
    else
      var last := notices[|notices| - 1];
      Sent(notices[..|notices| - 1], waiter) + if last.waiter == waiter then [last.result] else []
  }

  // ---- What the worker does ----

  /** The command has been submitted and not been taken since. */
  function Pending(es: seq<Event>, key: Key): bool {
    if es == [] then false
    else
      match es[|es| - 1]
      case Submit(_, k) => k == key || Pending(es[..|es| - 1], key)
      case Take(k) => k != key && Pending(es[..|es| - 1], key)
      case Finish(_) => Pending(es[..|es| - 1], key)
  }

  /** The commands in the order of their first submission: later ones join the pending one. */
  function FirstSubmissions(es: seq<Event>): seq<Key> {
    if es == [] then []
    else
      var earlier, e := es[..|es| - 1], es[|es| - 1];
      FirstSubmissions(earlier) + if e.Submit? && !Pending(earlier, e.key) then [e.key] else []
  }

  /** The commands in the order they were started. */
  function Starts(es: seq<Event>): seq<Key> {
    if es == [] then []
    else
      var e := es[|es| - 1];
      Starts(es[..|es| - 1]) + if e.Take? then [e.key] else []
  }

  lemma HistoryAfter(es: seq<Event>, e: Event)
    ensures FirstSubmissions(es + [e]) ==
            FirstSubmissions(es) + if e.Submit? && !Pending(es, e.key) then [e.key] else []
    ensures Starts(es + [e]) == Starts(es) + if e.Take? then [e.key] else []
    ensures forall key :: Pending(es + [e], key) <==>
              if e.Submit? && e.key == key then true else if e.Take? && e.key == key then false else Pending(es, key)
  {
    assert (es + [e])[..|es|] == es;
  }

  /** The queued commands, the oldest first: new ones go in at the front. */
  function OldestFirst(queue: seq<Entry>): (r: seq<Key>)
    ensures |r| == |queue| && forall i | 0 <= i < |r| :: r[i] == queue[|queue| - 1 - i].key
  {
    seq(|queue|, i requires 0 <= i < |queue| => queue[|queue| - 1 - i].key)
  }

  // ---- Runs ----

  predicate Blank(command: string) {
    Trim(command) == []
  }

  /** A waiter is a new channel, and a command that names no program is refused without running. */
  predicate Enabled(s: State, es: seq<Event>, e: Event) {
    match e
    case Submit(w, _) => StatusOf(es, w).Unknown?
    case Take(key) => s.running.None? && s.queue != [] && s.queue[|s.queue| - 1].key == key
    case Finish(result) =>
      && s.running.Some?
      && (Blank(s.running.value.key.command) ==> result == Err(Misconfigured("lfs_command is empty")))
  }

  function Apply(s: State, e: Event): State {
    match e
    case Submit(w, key) => State(Queued(s.queue, w, key), s.running, s.notices)
    case Take(key) =>
      if s.queue == [] then s else State(s.queue[..|s.queue| - 1], Some(s.queue[|s.queue| - 1]), s.notices)
    case Finish(result) =>
      if s.running.None? then s
      else State(s.queue, None, s.notices + Notices(s.running.value.waiters, Delivered(result)))
  }

  function StateAfter(es: seq<Event>): State {
    if es == [] then EMPTY else Apply(StateAfter(es[..|es| - 1]), es[|es| - 1])
  }

  predicate IsRun(es: seq<Event>) {
    es == [] || (IsRun(es[..|es| - 1]) && Enabled(StateAfter(es[..|es| - 1]), es[..|es| - 1], es[|es| - 1]))
  }

  // ---- Invariants ----

  /** Every command is queued once, and the queue holds what is pending, in order. */
  ghost predicate InOrder(es: seq<Event>, s: State) {
    var keys := OldestFirst(s.queue);
    && (forall i, j | 0 <= i < j < |keys| :: keys[i] != keys[j])
    && (forall key :: Pending(es, key) <==> key in keys)
    && FirstSubmissions(es) == Starts(es) + keys
  }

  lemma QueuedKeys(queue: seq<Entry>, w: nat, key: Key)
    ensures key in OldestFirst(queue) ==> OldestFirst(Queued(queue, w, key)) == OldestFirst(queue)
    ensures key !in OldestFirst(queue) ==> OldestFirst(Queued(queue, w, key)) == OldestFirst(queue) + [key]
  {
    match Place(queue, key)
    case Some(i) => assert OldestFirst(queue)[|queue| - 1 - i] == key;
    case None =>
  }

  lemma TakeKeepsOrder(es: seq<Event>, s: State, key: Key)
    requires InOrder(es, s) && Enabled(s, es, Take(key))
    ensures InOrder(es + [Take(key)], Apply(s, Take(key)))
  {
    hide Pending, FirstSubmissions, Starts, Blank, StatusOf;
    HistoryAfter(es, Take(key));
    var keys, rest := OldestFirst(s.queue), OldestFirst(s.queue[..|s.queue| - 1]);
    assert keys == [key] + rest;
    hide OldestFirst;
    assert key == keys[0] && forall i | 0 <= i < |rest| :: rest[i] == keys[i + 1];
    assert Starts(es) + keys == Starts(es) + [key] + rest;
  }

  lemma OrderStep(es: seq<Event>, s: State, e: Event)
    requires InOrder(es, s) && Enabled(s, es, e)
    ensures InOrder(es + [e], Apply(s, e))
  {
    hide Pending, FirstSubmissions, Starts, Queued, OldestFirst, Blank, StatusOf;
    match e
    case Submit(w, key) =>
      HistoryAfter(es, e);
      QueuedKeys(s.queue, w, key);
    case Take(key) => TakeKeepsOrder(es, s, key);
    case Finish(result) => HistoryAfter(es, e);
  }

  predicate NoRepeats(s: seq<nat>) {
    forall i, j | 0 <= i < j < |s| :: s[i] != s[j]
  }

  /** Who waits for a queued command. */
  function Waiters(queue: seq<Entry>, key: Key): seq<nat> {
    if queue == [] then []
    else if queue[|queue| - 1].key == key then queue[|queue| - 1].waiters
    else Waiters(queue[..|queue| - 1], key)
  }

  function Running(s: State): seq<nat> {
    if s.running.Some? then s.running.value.waiters else []
  }

  /** Waiters are listed once, and exactly where their status says. */
  ghost predicate Listed(es: seq<Event>, s: State) {
    && (forall key :: NoRepeats(Waiters(s.queue, key)))
    && (forall key, w :: w in Waiters(s.queue, key) <==> StatusOf(es, w) == Waiting(key))
    && NoRepeats(Running(s))
    && (forall w :: w in Running(s) <==> StatusOf(es, w).Started?)
    && (forall w | w in Running(s) :: StatusOf(es, w) == Started(s.running.value.key))
  }

  /** Every waiter has been sent what its status says, and nothing else. */
  ghost predicate Answered(es: seq<Event>, s: State) {
    forall w :: Sent(s.notices, w) == if StatusOf(es, w).Told? then [StatusOf(es, w).result] else []
  }

  lemma {:induction false} WaitersOfReplaced(queue: seq<Entry>, i: nat, waiters: seq<nat>, key: Key)
    requires i < |queue| && Place(queue, queue[i].key) == Some(i)
    ensures Waiters(queue[i := Entry(queue[i].key, waiters)], key) ==
            if key == queue[i].key then waiters else Waiters(queue, key)
    ensures Waiters(queue, queue[i].key) == queue[i].waiters
  {
    var last := |queue| - 1;
    var q := queue[i := Entry(queue[i].key, waiters)];
    if i < last {
      WaitersOfReplaced(queue[..last], i, waiters, key);
      assert q[..last] == queue[..last][i := Entry(queue[i].key, waiters)];
    } else {
      assert q[..last] == queue[..last];
    }
  }

  lemma {:induction false} WaitersOfAdded(e: Entry, queue: seq<Entry>, key: Key)
    requires Place(queue, e.key).None?
    ensures Waiters([e] + queue, key) == if key == e.key then e.waiters else Waiters(queue, key)
    ensures Waiters(queue, e.key) == []
  {
    if queue == [] {
    } else {
      var last := |queue| - 1;
      WaitersOfAdded(e, queue[..last], key);
      assert ([e] + queue)[..|queue|] == [e] + queue[..last];
    }
  }

  lemma WaitersOfQueued(queue: seq<Entry>, w: nat, key: Key, k: Key)
    ensures Waiters(Queued(queue, w, key), k) == if k == key then Waiters(queue, key) + [w] else Waiters(queue, k)
  {
    match Place(queue, key)
    case Some(i) => WaitersOfReplaced(queue, i, queue[i].waiters + [w], k);
    case None => WaitersOfAdded(Entry(key, [w]), queue, k);
  }

  lemma {:induction false} NobodyWaits(queue: seq<Entry>, key: Key)
    requires forall i | 0 <= i < |queue| :: queue[i].key != key
    ensures Waiters(queue, key) == []
  {
    if queue == [] {
    } else {
      NobodyWaits(queue[..|queue| - 1], key);
    }
  }

  lemma WaitersOfRest(queue: seq<Entry>, k: Key)
    requires queue != [] && var keys := OldestFirst(queue); forall i, j | 0 <= i < j < |keys| :: keys[i] != keys[j]
    ensures var last := queue[|queue| - 1];
            Waiters(queue[..|queue| - 1], k) == if k == last.key then [] else Waiters(queue, k)
  {
    var last := |queue| - 1;
    forall i | 0 <= i < last ensures queue[i].key != queue[last].key {
      assert OldestFirst(queue)[last - i] == queue[i].key && OldestFirst(queue)[0] == queue[last].key;
    }
    NobodyWaits(queue[..last], queue[last].key);
  }

  lemma ListedStep(es: seq<Event>, s: State, e: Event)
    requires InOrder(es, s) && Listed(es, s) && Enabled(s, es, e)
    ensures Listed(es + [e], Apply(s, e))
  {
    hide Pending, FirstSubmissions, Starts, OldestFirst, Place, StatusOf, Waiters, Queued, Blank;
    forall v ensures StatusOf(es + [e], v) == Advance(StatusOf(es, v), v, e) {
      StatusAfter(es, e, v);
    }
    match e
    case Submit(w, key) =>
      forall k
        ensures Waiters(Queued(s.queue, w, key), k) ==
                if k == key then Waiters(s.queue, key) + [w] else Waiters(s.queue, k)
      {
        WaitersOfQueued(s.queue, w, key, k);
      }
    case Take(key) =>
      forall k ensures Waiters(s.queue[..|s.queue| - 1], k) == if k == key then [] else Waiters(s.queue, k) {
        WaitersOfRest(s.queue, k);
      }
      WaitersOfLast(s.queue);
      assert NoRepeats([]) && Running(s) == [];
      var rest := s.queue[..|s.queue| - 1];
      assert Apply(s, e) == State(rest, Some(s.queue[|s.queue| - 1]), s.notices);
      assert Running(Apply(s, e)) == Waiters(s.queue, key);
      forall k ensures NoRepeats(Waiters(rest, k)) {
        assert NoRepeats(Waiters(s.queue, k));
      }
      assert NoRepeats(Waiters(s.queue, key));
      forall k, w ensures w in Waiters(rest, k) <==> StatusOf(es + [e], w) == Waiting(k) {
        assert w in Waiters(s.queue, k) <==> StatusOf(es, w) == Waiting(k);
      }
      forall w ensures w in Waiters(s.queue, key) <==> StatusOf(es + [e], w).Started? {
        assert w in Waiters(s.queue, key) <==> StatusOf(es, w) == Waiting(key);
        assert !StatusOf(es, w).Started?;
      }
    case Finish(result) =>
  }

  lemma WaitersOfLast(queue: seq<Entry>)
    requires queue != []
    ensures Waiters(queue, queue[|queue| - 1].key) == queue[|queue| - 1].waiters
  {}

  lemma SentOneMore(notices: seq<Notice>, notice: Notice, w: nat)
    ensures Sent(notices + [notice], w) == Sent(notices, w) + if notice.waiter == w then [notice.result] else []
  {
    assert (notices + [notice])[..|notices|] == notices;
  }

  lemma NoticesOneMore(waiters: seq<nat>, w: nat, result: Result<string, Error>)
    ensures Notices(waiters + [w], result) == Notices(waiters, result) + [Notice(w, result)]
  {}

  lemma {:induction false} SentConcat(a: seq<Notice>, b: seq<Notice>, w: nat)
    ensures Sent(a + b, w) == Sent(a, w) + Sent(b, w)
    decreases |b|
  {
    if b == [] {
      assert a + b == a;
    } else {
      var front, last := b[..|b| - 1], b[|b| - 1];
      SentConcat(a, front, w);
      SentOneMore(a + front, last, w);
      assert a + b == a + front + [last];
    }
  }

  lemma {:induction false} SentOfAll(waiters: seq<nat>, result: Result<string, Error>, w: nat)
    requires NoRepeats(waiters)
    ensures Sent(Notices(waiters, result), w) == if w in waiters then [result] else []
    decreases |waiters|
  {
    if waiters == [] {
    } else {
      var front, last := waiters[..|waiters| - 1], waiters[|waiters| - 1];
      SentOfAll(front, result, w);
      hide Sent;
      SentOneMore(Notices(front, result), Notice(last, result), w);
      assert Notices(waiters, result) == Notices(front, result) + [Notice(last, result)];
      assert w in waiters <==> w in front || w == last;
      assert last !in front;
    }
  }

  lemma AnsweredStep(es: seq<Event>, s: State, e: Event)
    requires Listed(es, s) && Answered(es, s) && Enabled(s, es, e)
    ensures Answered(es + [e], Apply(s, e))
  {
    hide Pending, FirstSubmissions, Starts, OldestFirst, Place, StatusOf, Waiters, Queued, Blank, Sent, NoRepeats;
    var s' := Apply(s, e);
    forall w ensures Sent(s'.notices, w) == if StatusOf(es + [e], w).Told? then [StatusOf(es + [e], w).result] else [] {
      StatusAfter(es, e, w);
      if e.Finish? {
        SentConcat(s.notices, Notices(Running(s), Delivered(e.result)), w);
        SentOfAll(Running(s), Delivered(e.result), w);
      }
    }
  }

  lemma {:induction false} RunKeeps(es: seq<Event>)
    requires IsRun(es)
    ensures InOrder(es, StateAfter(es)) && Listed(es, StateAfter(es)) && Answered(es, StateAfter(es))
  {
    if es == [] {
    } else {
      hide InOrder, Listed, Answered, Enabled, Apply, StatusOf;
      var before, e := es[..|es| - 1], es[|es| - 1];
      RunKeeps(before);
      assert before + [e] == es;
      OrderStep(before, StateAfter(before), e);
      ListedStep(before, StateAfter(before), e);
      AnsweredStep(before, StateAfter(before), e);
    }
  }

  // ---- Main results ----

  /**
    In every run the commands start in the order in which they were first submitted, and those
    not started yet are queued in that order, each of them once.
   */
  lemma CommandsStartInOrder(es: seq<Event>)
    requires IsRun(es)
    ensures FirstSubmissions(es) == Starts(es) + OldestFirst(StateAfter(es).queue)
    ensures forall i, j | 0 <= i < j < |StateAfter(es).queue| ::
              StateAfter(es).queue[i].key != StateAfter(es).queue[j].key
  {
    hide StateAfter, FirstSubmissions, Starts, Pending, IsRun, Listed, Answered;
    RunKeeps(es);
    var q := StateAfter(es).queue;
    var keys := OldestFirst(q);
    forall i, j | 0 <= i < j < |q| ensures q[i].key != q[j].key {
      assert keys[|q| - 1 - i] == q[i].key && keys[|q| - 1 - j] == q[j].key;
    }
  }

  /** No waiter is ever told more than once, and each is told exactly what its own story says. */
  lemma EachWaiterIsToldOnce(es: seq<Event>, w: nat)
    requires IsRun(es)
    ensures Sent(StateAfter(es).notices, w) == if StatusOf(es, w).Told? then [StatusOf(es, w).result] else []
  {
    RunKeeps(es);
  }

  predicate OnlySubmits(es: seq<Event>, from: int, to: int)
    requires to <= |es|
  {
    forall j | 0 <= from <= j < to :: es[j].Submit?
  }

  predicate NotTaken(es: seq<Event>, key: Key, from: int, to: int)
    requires to <= |es|
  {
    forall j | 0 <= from <= j < to :: es[j] != Take(key)
  }

  lemma {:induction false} WaitingSince(es: seq<Event>, w: nat) returns (i: nat)
    requires StatusOf(es, w).Waiting?
    ensures i < |es| && es[i] == Submit(w, StatusOf(es, w).key)
    ensures NotTaken(es, StatusOf(es, w).key, i, |es|)
  {
    var before, e := es[..|es| - 1], es[|es| - 1];
    if e.Submit? && e.waiter == w {
      i := |es| - 1;
    } else {
      i := WaitingSince(before, w);
      assert NotTaken(before, StatusOf(es, w).key, i, |before|);
      assert forall j | 0 <= j < |before| :: es[j] == before[j];
    }
  }

  lemma OnlySubmitsWhileBusy(es: seq<Event>, e: Event, w: nat)
    requires IsRun(es) && Enabled(StateAfter(es), es, e) && StatusOf(es, w).Started? && !e.Finish?
    ensures e.Submit?
  {
    hide StateAfter, IsRun, StatusOf;
    RunKeeps(es);
    assert w in Running(StateAfter(es));
  }

  lemma {:induction false} StartedSince(es: seq<Event>, w: nat) returns (i: nat, t: nat)
    requires IsRun(es) && StatusOf(es, w).Started?
    ensures i < t < |es| && es[i] == Submit(w, StatusOf(es, w).key) && es[t] == Take(StatusOf(es, w).key)
    ensures NotTaken(es, StatusOf(es, w).key, i, t) && OnlySubmits(es, t + 1, |es|)
  {
    hide StateAfter;
    var before, e := es[..|es| - 1], es[|es| - 1];
    assert forall j | 0 <= j < |before| :: es[j] == before[j];
    if StatusOf(before, w).Waiting? {
      i := WaitingSince(before, w);
      t := |es| - 1;
      assert NotTaken(before, StatusOf(es, w).key, i, |before|);
    } else {
      OnlySubmitsWhileBusy(before, e, w);
      i, t := StartedSince(before, w);
      assert OnlySubmits(before, t + 1, |before|) && NotTaken(before, StatusOf(es, w).key, i, t);
    }
  }

  /** A command is blank exactly if it consists of spaces alone, if of anything. */
  lemma {:induction false} BlankIff(command: string)
    ensures Blank(command) <==> forall c | c in command :: IsSpace(c)
    decreases |command|
  {
    if command == [] {
    } else if IsSpace(command[0]) {
      BlankIff(command[1..]);
      assert command == [command[0]] + command[1..];
    } else {
      assert command[0] in command;
      if IsSpace(command[|command| - 1]) {
        BlankIff(command[..|command| - 1]);
        assert command[0] == command[..|command| - 1][0];
      }
    }
  }

  /** The end of the running command, told to one of those who wait for it. */
  lemma EndsBecause(es: seq<Event>, e: Event, w: nat)
    requires IsRun(es) && Enabled(StateAfter(es), es, e) && StatusOf(es, w).Started? && e.Finish?
    ensures Blank(StatusOf(es, w).key.command) ==> e.result == Err(Misconfigured("lfs_command is empty"))
  {
    hide StateAfter, IsRun, StatusOf, Blank;
    RunKeeps(es);
    assert w in Running(StateAfter(es));
  }

  lemma {:induction false} ToldBy(es: seq<Event>, w: nat) returns (i: nat, t: nat, f: nat)
    requires IsRun(es) && StatusOf(es, w).Told?
    ensures i < t < f < |es|
    ensures es[i].Submit? && es[i].waiter == w && es[t] == Take(es[i].key) && es[f].Finish?
    ensures NotTaken(es, es[i].key, i, t) && OnlySubmits(es, t + 1, f)
    ensures Blank(es[i].key.command) ==> es[f].result == Err(Misconfigured("lfs_command is empty"))
    ensures StatusOf(es, w).result == Delivered(es[f].result)
  {
    hide Blank, StateAfter, Delivered;
    var before, e := es[..|es| - 1], es[|es| - 1];
    assert forall j | 0 <= j < |before| :: es[j] == before[j];
    if StatusOf(before, w).Told? {
      i, t, f := ToldBy(before, w);
    } else {
      i, t := StartedSince(before, w);
      f := |es| - 1;
      EndsBecause(before, e, w);
    }
    assert NotTaken(before, es[i].key, i, t) && OnlySubmits(before, t + 1, f);
  }

  /**
    What a waiter is told is the result of an execution of its own command that began after it
    asked: the first one to begin after that, ended by the very next end of a command. Output is
    passed on as it is, and of an error its message. A command of spaces alone is always an error.
   */
  lemma ToldBecause(es: seq<Event>, w: nat) returns (i: nat, t: nat, f: nat)
    requires IsRun(es) && StatusOf(es, w).Told?
    ensures i < t < f < |es|
    ensures es[i].Submit? && es[i].waiter == w && es[t] == Take(es[i].key) && es[f].Finish?
    ensures NotTaken(es, es[i].key, i, t) && OnlySubmits(es, t + 1, f)
    ensures (forall c | c in es[i].key.command :: IsSpace(c)) ==>
              es[f].result == Err(Misconfigured("lfs_command is empty"))
    ensures es[f].result.Ok? ==> StatusOf(es, w).result == es[f].result
    ensures es[f].result.Err? ==> StatusOf(es, w).result == Err(Failed(es[f].result.error.message))
  {
    i, t, f := ToldBy(es, w);
    BlankIff(es[i].key.command);
  }

  lemma {:induction false} SubmittedIsKnown(es: seq<Event>, i: nat)
    requires i < |es| && es[i].Submit?
    ensures !StatusOf(es, es[i].waiter).Unknown?
    decreases |es|
  {
    if i == |es| - 1 {
    } else {
      SubmittedIsKnown(es[..|es| - 1], i);
    }
  }

  /** When the queue is empty and the worker idle, everybody has been told, exactly once. */
  lemma EverybodyIsTold(es: seq<Event>, i: nat)
    requires IsRun(es) && StateAfter(es).queue == [] && StateAfter(es).running.None?
    requires i < |es| && es[i].Submit?
    ensures |Sent(StateAfter(es).notices, es[i].waiter)| == 1
  {
    RunKeeps(es);
    SubmittedIsKnown(es, i);
    var w := es[i].waiter;
    assert StatusOf(es, w).Waiting? ==> w in Waiters(StateAfter(es).queue, StatusOf(es, w).key);
    assert StatusOf(es, w).Started? ==> w in Running(StateAfter(es));
  }

  lemma RunThen(es: seq<Event>, e: Event)
    requires IsRun(es) && Enabled(StateAfter(es), es, e)
    ensures IsRun(es + [e]) && StateAfter(es + [e]) == Apply(StateAfter(es), e)
  {
    assert (es + [e])[..|es|] == es;
  }

  /** An outcome that the running command can have. */
  function SomeResult(key: Key): Result<string, Error> {
    if Blank(key.command) then Err(Misconfigured("lfs_command is empty")) else Ok([])
  }

  /** From any point the worker alone empties the queue, in two steps for each command. */
  lemma WorkerDrains(es: seq<Event>) returns (more: seq<Event>)
    requires IsRun(es)
    ensures IsRun(es + more) && forall k | 0 <= k < |more| :: !more[k].Submit?
    ensures StateAfter(es + more).queue == [] && StateAfter(es + more).running.None?
    ensures |more| <= 2 * |StateAfter(es).queue| + if StateAfter(es).running.Some? then 1 else 0
    decreases 2 * |StateAfter(es).queue| + if StateAfter(es).running.Some? then 1 else 0
  {
    hide IsRun, StateAfter, StatusOf, Blank, Delivered;
    var s := StateAfter(es);
    var step: Event;
    if s.running.Some? {
      step := Finish(SomeResult(s.running.value.key));
    } else if s.queue != [] {
      step := Take(s.queue[|s.queue| - 1].key);
    } else {
      assert es + [] == es;
      return [];
    }
    RunThen(es, step);
    var rest := WorkerDrains(es + [step]);
    more := [step] + rest;
    assert es + more == es + [step] + rest;
  }

  // ---- The queue itself ----

  class Queue {
    var queue: seq<Entry>
    var running: Option<Entry>
    var notices: seq<Notice>          // every result sent, in order
    ghost var history: seq<Event>

    ghost predicate Valid()
      reads this
    {
      IsRun(history) && StateAfter(history) == State(queue, running, notices)
    }

    constructor ()
      ensures Valid() && history == []
    {
      queue, running, notices, history := [], None, [], [];
    }

    /** `waiter` is a fresh channel. */
    method QueueCommand(command: string, args: seq<string>, waiter: nat)
      requires Valid() && StatusOf(history, waiter).Unknown?
      modifies this
      ensures Valid() && history == old(history) + [Submit(waiter, Key(command, args))]
      ensures running == old(running) && notices == old(notices)
      ensures Waiters(queue, Key(command, args)) == old(Waiters(queue, Key(command, args))) + [waiter]
      ensures forall k | k != Key(command, args) :: Waiters(queue, k) == old(Waiters(queue, k))
    {
      hide Pending, FirstSubmissions, Starts, OldestFirst, Place, Waiters, IsRun, StateAfter;
      ghost var key := Key(command, args);
      forall k ensures Waiters(Queued(queue, waiter, key), k) ==
                       if k == key then Waiters(queue, key) + [waiter] else Waiters(queue, k) {
        WaitersOfQueued(queue, waiter, key, k);
      }
      RunThen(history, Submit(waiter, key));
      CommandsStartInOrder(history);
      history := history + [Submit(waiter, key)];
      hide StateAfter, IsRun, Waiters, StatusOf, Pending, FirstSubmissions, Starts, OldestFirst, Place;
      for i := 0 to |queue|
        invariant queue == old(queue) && running == old(running) && notices == old(notices)
        invariant history == old(history) + [Submit(waiter, key)]
        invariant forall j | 0 <= j < i :: queue[j].key != key
      {
        if queue[i].key.args == args && queue[i].key.command == command {
          queue := queue[i := Entry(queue[i].key, queue[i].waiters + [waiter])];
          return;
        }
      }
      queue := [Entry(Key(command, args), [waiter])] + queue;
    }

    method TakeNext() returns (taken: Option<Key>)
      requires Valid() && running.None?
      modifies this
      ensures Valid() && notices == old(notices)
      ensures taken.None? ==> old(queue) == [] && queue == [] && running.None? && history == old(history)
      ensures taken.Some? ==>
                && old(queue) != [] && taken.value == OldestFirst(old(queue))[0]
                && running.Some? && running.value == old(queue)[|old(queue)| - 1]
                && queue == old(queue)[..|old(queue)| - 1]
                && history == old(history) + [Take(taken.value)]
    {
      if queue == [] {
        return None;
      }
      var cmd := queue[|queue| - 1];
      RunThen(history, Take(cmd.key));
      history := history + [Take(cmd.key)];
      queue, running := queue[..|queue| - 1], Some(cmd);
      taken := Some(cmd.key);
    }

    /** The running command has ended with `outcome`, if there was a program to run at all. */
    method NotifyWaiters(outcome: Result<string, Error>)
      requires Valid() && running.Some?
      modifies this
      ensures Valid() && running.None? && queue == old(queue)
      ensures exists result :: history == old(history) + [Finish(result)]
                && result == (if Blank(old(running).value.key.command)
                              then Err(Misconfigured("lfs_command is empty"))
                              else outcome)
                && notices[..|old(notices)|] == old(notices)
                && |notices| == |old(notices)| + |old(running).value.waiters|
                && forall i | 0 <= i < |old(running).value.waiters| ::
                     var notice := notices[|old(notices)| + i];
                     && notice.waiter == old(running).value.waiters[i]
                     && (result.Ok? ==> notice.result == result)
                     && (result.Err? ==> notice.result == Err(Failed(result.error.message)))
    {
      var cmd := running.value;
      var result := if Blank(cmd.key.command) then Err(Misconfigured("lfs_command is empty")) else outcome;
      RunThen(history, Finish(result));
      history := history + [Finish(result)];
      hide StateAfter, IsRun, StatusOf, Blank, Notices;
      var told := match result case Ok(output) => Ok(output) case Err(e) => Err(Failed(e.message));
      ghost var before := notices;
      var waiters := cmd.waiters;
      var n := 0;
      while n < |waiters|
        invariant 0 <= n <= |waiters| && queue == old(queue) && running == old(running)
        invariant notices == before + Notices(waiters[..n], told)
        invariant history == old(history) + [Finish(result)]
      {
        assert waiters[..n + 1] == waiters[..n] + [waiters[n]];
        NoticesOneMore(waiters[..n], waiters[n], told);
        notices := notices + [Notice(waiters[n], told)];
        n := n + 1;
      }
      assert waiters[..n] == waiters;
      running := None;
    }
  }
}
